/** The index of vendor tags: a first pass over the declared sections collects names, types and
    the sorted list of sections, a second one builds the maps between tags and sections. */
module VendorTags {
  import opened Wrappers

  datatype Tag = Tag(id: uint32, name: string, tagType: int)

  datatype Section = Section(name: string, tags: seq<Tag>)

  /** A tag with the name of the section that declares it. */
  datatype Declared = Declared(section: string, tag: Tag)

  datatype Descriptor = Descriptor(
    tagCount: nat, tagToName: map<uint32, string>, tagToType: map<uint32, int>, sections: seq<string>,
    tagToSection: map<uint32, nat>, reverse: map<string, map<string, uint32>>)

  datatype Result = Ok(descriptor: Descriptor) | BadValue

  const VENDOR_TAG_BOUNDARY: uint32 := 0x8000_0000
  const INT32_MAX: nat := 0x7FFF_FFFF

  // ----- the sorted vector of section names

  /** The order of strings by their characters. */
  predicate Before(a: string, b: string) {
    b != [] && (a == [] || a[0] < b[0] || (a[0] == b[0] && Before(a[1..], b[1..])))
  }

  lemma {:induction false} BeforeTotal(a: string, b: string)
    ensures a != b ==> Before(a, b) || Before(b, a)
    ensures !(Before(a, b) && Before(b, a)) && (a == b ==> !Before(a, b))
  {
    if a != [] && b != [] && a[0] == b[0] {
      assert a == [a[0]] + a[1..] && b == [b[0]] + b[1..];
      BeforeTotal(a[1..], b[1..]);
    }
  }

  lemma {:induction false} BeforeTransitive(a: string, b: string, c: string)
    requires Before(a, b) && Before(b, c)
    ensures Before(a, c)
  {
    if a != [] && a[0] == b[0] == c[0] { BeforeTransitive(a[1..], b[1..], c[1..]); }
  }

  predicate Sorted(v: seq<string>) {
    forall i, j :: 0 <= i < j < |v| ==> Before(v[i], v[j])
  }

  /** The vector with a name added in its place, if it is new. */
  function Add(v: seq<string>, x: string): seq<string> {
    if v == [] then [x]
    else if x == v[0] then v
    else if Before(x, v[0]) then [x] + v
    else [v[0]] + Add(v[1..], x)
  }

  lemma {:induction false} AddSorted(v: seq<string>, x: string)
    requires Sorted(v)
    ensures Sorted(Add(v, x)) && forall y :: y in Add(v, x) <==> y in v || y == x
  {
    if v != [] {
      BeforeTotal(x, v[0]);
      assert v == [v[0]] + v[1..];
      if x == v[0] {
      } else if Before(x, v[0]) {
        forall j | 1 <= j < |v| ensures Before(x, v[j]) { BeforeTransitive(x, v[0], v[j]); }
      } else {
        AddSorted(v[1..], x);
        forall y | y in Add(v[1..], x) ensures Before(v[0], y) {
          if y in v[1..] { assert exists j :: 1 <= j < |v| && v[j] == y; }
        }
      }
    }
  }

  /** The place of a name, or -1. */
  function IndexOf(v: seq<string>, x: string): (r: int)
    ensures -1 <= r < |v| && (r >= 0 ==> v[r] == x) && (r >= 0 <==> x in v)
  {
    if v == [] then -1
    else if v[|v| - 1] == x then |v| - 1
    else IndexOf(v[..|v| - 1], x)
  }

  // ----- what the two passes compute

  function DeclaredIn(s: Section): (r: seq<Declared>)
    ensures |r| == |s.tags| && forall j :: 0 <= j < |r| ==> r[j] == Declared(s.name, s.tags[j])
  {
    seq(|s.tags|, j requires 0 <= j < |s.tags| => Declared(s.name, s.tags[j]))
  }

  /** All declared tags in order. */
  function Flat(vts: seq<Section>): seq<Declared> {
    if vts == [] then [] else Flat(vts[..|vts| - 1]) + DeclaredIn(vts[|vts| - 1])
  }

  function SectionList(vts: seq<Section>): seq<string> {
    if vts == [] then [] else Add(SectionList(vts[..|vts| - 1]), vts[|vts| - 1].name)
  }

  /** A later declaration of a tag id replaces its name and section, but not its type. */
  function NamesOf(d: seq<Declared>): map<uint32, string> {
    if d == [] then map[] else NamesOf(d[..|d| - 1])[d[|d| - 1].tag.id := d[|d| - 1].tag.name]
  }

  function SectionsOf(d: seq<Declared>): map<uint32, string> {
    if d == [] then map[] else SectionsOf(d[..|d| - 1])[d[|d| - 1].tag.id := d[|d| - 1].section]
  }

  function TypesOf(d: seq<Declared>): map<uint32, int> {
    if d == [] then map[]
    else
      var before, last := TypesOf(d[..|d| - 1]), d[|d| - 1].tag;
      if last.id in before then before else before[last.id := last.tagType]
  }

  predicate Placed(tags: seq<uint32>, sectionOf: map<uint32, string>, sections: seq<string>) {
    forall i :: 0 <= i < |tags| ==> tags[i] in sectionOf && sectionOf[tags[i]] in sections
  }

  predicate Mapped(tags: seq<uint32>, sectionOf: map<uint32, string>, nameOf: map<uint32, string>) {
    forall i :: 0 <= i < |tags| ==> tags[i] in sectionOf && tags[i] in nameOf
  }

  predicate HasSection(vts: seq<Section>, name: string) {
    exists s :: 0 <= s < |vts| && vts[s].name == name
  }

  /** The second pass over the tags, given the section and the name of each. */
  function Indexed(tags: seq<uint32>, sectionOf: map<uint32, string>, sections: seq<string>): (m: map<uint32, nat>)
    requires Placed(tags, sectionOf, sections)
  {
    if tags == [] then map[]
    else
      var t := tags[|tags| - 1];
      Indexed(tags[..|tags| - 1], sectionOf, sections)[t := IndexOf(sections, sectionOf[t])]
  }

  function Reversed(tags: seq<uint32>, sectionOf: map<uint32, string>, nameOf: map<uint32, string>)
      : map<string, map<string, uint32>>
    requires Mapped(tags, sectionOf, nameOf)
  {
    if tags == [] then map[]
    else
      var before, t := Reversed(tags[..|tags| - 1], sectionOf, nameOf), tags[|tags| - 1];
      var s := sectionOf[t];
      before[s := (if s in before then before[s] else map[])[nameOf[t] := t]]
  }

  function Ids(d: seq<Declared>): (r: seq<uint32>)
    ensures |r| == |d| && forall i :: 0 <= i < |d| ==> r[i] == d[i].tag.id
  {
    seq(|d|, i requires 0 <= i < |d| => d[i].tag.id)
  }

  predicate Good(t: Tag) { t.id >= VENDOR_TAG_BOUNDARY && t.tagType >= 0 }

  predicate AllGood(d: seq<Declared>) {
    forall k :: 0 <= k < |d| ==> Good(d[k].tag)
  }

  lemma {:induction false} MapsCover(d: seq<Declared>)
    ensures forall k :: 0 <= k < |d| ==>
              d[k].tag.id in NamesOf(d) && d[k].tag.id in SectionsOf(d) && d[k].tag.id in TypesOf(d)
    ensures forall id :: id in SectionsOf(d) ==>
              exists k :: 0 <= k < |d| && d[k].tag.id == id && SectionsOf(d)[id] == d[k].section
  {
    if d != [] {
      var init := d[..|d| - 1];
      MapsCover(init);
      forall id | id in SectionsOf(d)
        ensures exists k :: 0 <= k < |d| && d[k].tag.id == id && SectionsOf(d)[id] == d[k].section
      {
        if id == d[|d| - 1].tag.id {
          assert SectionsOf(d)[id] == d[|d| - 1].section;
        } else {
          var k :| 0 <= k < |init| && init[k].tag.id == id && SectionsOf(init)[id] == init[k].section;
          assert d[k] == init[k];
        }
      }
    }
  }

  lemma HasSectionSnoc(vts: seq<Section>, name: string)
    requires vts != []
    ensures HasSection(vts, name) <==> HasSection(vts[..|vts| - 1], name) || vts[|vts| - 1].name == name
  {
    var init := vts[..|vts| - 1];
    if s :| 0 <= s < |init| && init[s].name == name { assert vts[s].name == name; }
    if s :| 0 <= s < |vts| && vts[s].name == name { assert s < |init| ==> init[s].name == name; }
  }

  lemma {:induction false} SectionListSorted(vts: seq<Section>)
    ensures Sorted(SectionList(vts))
    ensures forall x :: x in SectionList(vts) <==> HasSection(vts, x)
  {
    if vts != [] {
      var init := vts[..|vts| - 1];
      SectionListSorted(init);
      AddSorted(SectionList(init), vts[|vts| - 1].name);
      hide Sorted, HasSection;
      forall x ensures x in SectionList(vts) <==> HasSection(vts, x) { HasSectionSnoc(vts, x); }
    }
  }

  lemma {:induction false} FlatSections(vts: seq<Section>, k: nat)
    requires k < |Flat(vts)|
    ensures HasSection(vts, Flat(vts)[k].section)
  {
    var init := vts[..|vts| - 1];
    HasSectionSnoc(vts, Flat(vts)[k].section);
    if k < |Flat(init)| { FlatSections(init, k); }
  }

  /** Every declared tag has a section in the list, so the second pass never fails. */
  lemma SecondPassDefined(vts: seq<Section>)
    ensures var d := Flat(vts);
            Placed(Ids(d), SectionsOf(d), SectionList(vts)) && Mapped(Ids(d), SectionsOf(d), NamesOf(d))
  {
    var d := Flat(vts);
    MapsCover(d);
    SectionListSorted(vts);
    hide NamesOf, SectionsOf, TypesOf, SectionList, HasSection;
    forall i | 0 <= i < |d| ensures SectionsOf(d)[d[i].tag.id] in SectionList(vts) {
      var k :| 0 <= k < |d| && d[k].tag.id == d[i].tag.id && SectionsOf(d)[d[i].tag.id] == d[k].section;
      FlatSections(vts, k);
    }
    hide Flat;
  }

  function Build(vts: seq<Section>): Descriptor {
    SecondPassDefined(vts);
    var d := Flat(vts);
    Descriptor(|d|, NamesOf(d), TypesOf(d), SectionList(vts), Indexed(Ids(d), SectionsOf(d), SectionList(vts)),
               Reversed(Ids(d), SectionsOf(d), NamesOf(d)))
  }

  // ----- what the index says

  predicate DistinctIds(d: seq<Declared>) {
    forall i, j :: 0 <= i < j < |d| ==> d[i].tag.id != d[j].tag.id
  }

  predicate DistinctNames(d: seq<Declared>) {
    forall i, j :: 0 <= i < j < |d| ==> d[i].section != d[j].section || d[i].tag.name != d[j].tag.name
  }

  /** A tag has the name and the section of its last declaration and the type of its first. */
  lemma {:induction false} MapsExact(d: seq<Declared>, k: nat)
    requires k < |d|
    ensures var id := d[k].tag.id;
            && ((forall j :: k < j < |d| ==> d[j].tag.id != id) ==>
                  && id in NamesOf(d) && NamesOf(d)[id] == d[k].tag.name
                  && id in SectionsOf(d) && SectionsOf(d)[id] == d[k].section)
            && ((forall j :: 0 <= j < k ==> d[j].tag.id != id) ==>
                  id in TypesOf(d) && TypesOf(d)[id] == d[k].tag.tagType)
  {
    var init := d[..|d| - 1];
    assert forall j :: 0 <= j < |init| ==> init[j] == d[j];
    if k < |d| - 1 { MapsExact(init, k); } else { TypesOnly(init); }
  }

  lemma {:induction false} TypesOnly(d: seq<Declared>)
    ensures forall id :: id in TypesOf(d) ==> exists k :: 0 <= k < |d| && d[k].tag.id == id
  {
    if d != [] {
      var init := d[..|d| - 1];
      TypesOnly(init);
      forall id | id in TypesOf(d) ensures exists k :: 0 <= k < |d| && d[k].tag.id == id {
        if id in TypesOf(init) {
          var k :| 0 <= k < |init| && init[k].tag.id == id;
          assert d[k].tag.id == id;
        } else {
          assert d[|d| - 1].tag.id == id;
        }
      }
    }
  }

  lemma {:induction false} IndexedExact(tags: seq<uint32>, sectionOf: map<uint32, string>, sections: seq<string>)
    requires Placed(tags, sectionOf, sections)
    ensures var m := Indexed(tags, sectionOf, sections);
            && (forall id :: id in m <==> id in tags)
            && (forall id :: id in m ==> id in sectionOf && m[id] < |sections| && sections[m[id]] == sectionOf[id])
  {
    if tags != [] {
      IndexedExact(tags[..|tags| - 1], sectionOf, sections);
      assert tags == tags[..|tags| - 1] + [tags[|tags| - 1]];
    }
  }

  /** What the reverse map answers. */
  function Lookup(reverse: map<string, map<string, uint32>>, section: string, name: string): Option<uint32> {
    if section in reverse && name in reverse[section] then Some(reverse[section][name]) else None
  }

  /** The reverse map answers with a tag of that section and name, and with one whenever there is one. */
  lemma {:induction false} ReversedExact(tags: seq<uint32>, sectionOf: map<uint32, string>,
      nameOf: map<uint32, string>, section: string, name: string)
    requires Mapped(tags, sectionOf, nameOf)
    ensures match Lookup(Reversed(tags, sectionOf, nameOf), section, name)
            case None => forall i :: 0 <= i < |tags| ==> !(sectionOf[tags[i]] == section && nameOf[tags[i]] == name)
            case Some(id) =>
              exists i :: 0 <= i < |tags| && tags[i] == id && sectionOf[id] == section && nameOf[id] == name
  {
    if tags != [] {
      var init, t := tags[..|tags| - 1], tags[|tags| - 1];
      ReversedExact(init, sectionOf, nameOf, section, name);
      var before, after := Lookup(Reversed(init, sectionOf, nameOf), section, name),
          Lookup(Reversed(tags, sectionOf, nameOf), section, name);
      if sectionOf[t] == section && nameOf[t] == name {
        assert after == Some(t) && tags[|tags| - 1] == t;
      } else {
        assert after == before;
        if before.Some? {
          var i :| 0 <= i < |init| && init[i] == before.value && sectionOf[init[i]] == section
              && nameOf[init[i]] == name;
          assert tags[i] == init[i];
        }
      }
    }
  }

  /** The number of all tags. */
  function TotalTags(vts: seq<Section>): nat {
    if vts == [] then 0 else TotalTags(vts[..|vts| - 1]) + |vts[|vts| - 1].tags|
  }

  /** The list of all declarations: each section's tags, section by section. */
  lemma {:induction false} FlatExact(vts: seq<Section>, s: nat, j: nat)
    requires s < |vts| && j < |vts[s].tags|
    ensures var k := TotalTags(vts[..s]) + j;
            |Flat(vts)| == TotalTags(vts) && k < |Flat(vts)| && Flat(vts)[k] == Declared(vts[s].name, vts[s].tags[j])
  {
    FlatLength(vts);
    var init := vts[..|vts| - 1];
    FlatLength(init);
    if s < |init| {
      FlatExact(init, s, j);
      assert init[..s] == vts[..s];
    }
  }

  lemma {:induction false} FlatLength(vts: seq<Section>)
    ensures |Flat(vts)| == TotalTags(vts)
  {
    if vts != [] { FlatLength(vts[..|vts| - 1]); }
  }

  /** Forward: every tag has the name and the section of its last declaration, the section by an
      index into the sorted list of all section names, and the type of its first declaration; no
      other tag has any; and the tags are counted. */
  lemma ForwardExact(vts: seq<Section>, k: nat)
    requires k < |Flat(vts)|
    ensures var x, d := Build(vts), Flat(vts);
            var t := d[k];
            && ((forall j :: k < j < |d| ==> d[j].tag.id != t.tag.id) ==>
                  && t.tag.id in x.tagToName && x.tagToName[t.tag.id] == t.tag.name
                  && t.tag.id in x.tagToSection && x.tagToSection[t.tag.id] < |x.sections|
                  && x.sections[x.tagToSection[t.tag.id]] == t.section)
            && ((forall j :: 0 <= j < k ==> d[j].tag.id != t.tag.id) ==>
                  t.tag.id in x.tagToType && x.tagToType[t.tag.id] == t.tag.tagType)
    ensures var x := Build(vts);
            && Sorted(x.sections) && x.tagCount == TotalTags(vts)
            && (forall n :: n in x.sections <==> HasSection(vts, n))
            && (forall id :: id in x.tagToSection <==> id in Ids(Flat(vts)))
            && (forall id :: id in x.tagToName || id in x.tagToType ==> id in Ids(Flat(vts)))
  {
    var d := Flat(vts);
    SecondPassDefined(vts);
    FlatLength(vts);
    MapsExact(d, k);
    hide NamesOf, SectionsOf, TypesOf, SectionList, Indexed, Reversed, Sorted, HasSection;
    IndexedExact(Ids(d), SectionsOf(d), SectionList(vts));
    SectionListSorted(vts);
    assert Ids(d)[k] == d[k].tag.id;
    NamesOnly(d);
    TypesOnly(d);
    hide Flat, Placed, Mapped;
    forall id | id in NamesOf(d) || id in TypesOf(d) ensures id in Ids(d) {
      var j :| 0 <= j < |d| && d[j].tag.id == id;
      assert Ids(d)[j] == id;
    }
  }

  lemma {:induction false} NamesOnly(d: seq<Declared>)
    ensures forall id :: id in NamesOf(d) ==> exists k :: 0 <= k < |d| && d[k].tag.id == id
  {
    if d != [] {
      var init := d[..|d| - 1];
      NamesOnly(init);
      forall id | id in NamesOf(d) ensures exists k :: 0 <= k < |d| && d[k].tag.id == id {
        if id in NamesOf(init) {
          var k :| 0 <= k < |init| && init[k].tag.id == id;
          assert d[k].tag.id == id;
        } else {
          assert d[|d| - 1].tag.id == id;
        }
      }
    }
  }

  /** Backward, for distinct tag ids: looking up the section and name of every declared tag gives
      that tag exactly when no two declarations share both; and what a lookup gives is always
      declared with that section and name. */
  lemma BackwardExact(vts: seq<Section>)
    requires DistinctIds(Flat(vts))
    ensures var x, d := Build(vts), Flat(vts);
            (forall k :: 0 <= k < |d| ==> Lookup(x.reverse, d[k].section, d[k].tag.name) == Some(d[k].tag.id))
                <==> DistinctNames(d)
    ensures forall section, name ::
              var found := Lookup(Build(vts).reverse, section, name);
              found.Some? ==> exists k :: 0 <= k < |Flat(vts)| && Flat(vts)[k].tag.id == found.value
                                          && Flat(vts)[k].section == section && Flat(vts)[k].tag.name == name
  {
    var d, reverse := Flat(vts), Build(vts).reverse;
    forall section, name
      ensures match Lookup(reverse, section, name)
              case None => forall k :: 0 <= k < |d| ==> !(d[k].section == section && d[k].tag.name == name)
              case Some(id) =>
                exists k :: 0 <= k < |d| && d[k].tag.id == id && d[k].section == section && d[k].tag.name == name
    {
      LookupExact(vts, section, name);
    }
    hide Build, Flat, Lookup;
    if DistinctNames(d) {
      forall k | 0 <= k < |d| ensures Lookup(reverse, d[k].section, d[k].tag.name) == Some(d[k].tag.id) {
        var found := Lookup(reverse, d[k].section, d[k].tag.name);
        var j :| 0 <= j < |d| && d[j].tag.id == found.value && d[j].section == d[k].section
            && d[j].tag.name == d[k].tag.name;
        assert j == k;
      }
    }
  }

  lemma LookupExact(vts: seq<Section>, section: string, name: string)
    requires DistinctIds(Flat(vts))
    ensures var d := Flat(vts);
            match Lookup(Build(vts).reverse, section, name)
            case None => forall k :: 0 <= k < |d| ==> !(d[k].section == section && d[k].tag.name == name)
            case Some(id) =>
              exists k :: 0 <= k < |d| && d[k].tag.id == id && d[k].section == section && d[k].tag.name == name
  {
    var d := Flat(vts);
    SecondPassDefined(vts);
    ReversedExact(Ids(d), SectionsOf(d), NamesOf(d), section, name);
    hide Flat, SectionList, Indexed, Reversed, TypesOf;
    forall k | 0 <= k < |d|
      ensures SectionsOf(d)[d[k].tag.id] == d[k].section && NamesOf(d)[d[k].tag.id] == d[k].tag.name
    {
      MapsExact(d, k);
    }
    hide NamesOf, SectionsOf;
    assert forall i :: 0 <= i < |d| ==> Ids(d)[i] == d[i].tag.id;
  }

  // ----- the two passes

  lemma PassSnoc(d: seq<Declared>, x: Declared)
    ensures NamesOf(d + [x]) == NamesOf(d)[x.tag.id := x.tag.name]
    ensures SectionsOf(d + [x]) == SectionsOf(d)[x.tag.id := x.section]
    ensures TypesOf(d + [x]) == if x.tag.id in TypesOf(d) then TypesOf(d) else TypesOf(d)[x.tag.id := x.tag.tagType]
    ensures Ids(d + [x]) == Ids(d) + [x.tag.id]
  {
    assert (d + [x])[..|d|] == d;
  }

  lemma {:induction false} FlatPrefix(vts: seq<Section>, s: nat)
    requires s < |vts|
    ensures Flat(vts[..s + 1]) == Flat(vts[..s]) + DeclaredIn(vts[s])
    ensures SectionList(vts[..s + 1]) == Add(SectionList(vts[..s]), vts[s].name)
    ensures Flat(vts[..s + 1]) <= Flat(vts)
    decreases |vts| - s
  {
    assert vts[..s + 1][..s] == vts[..s];
    if s + 1 < |vts| { FlatPrefix(vts, s + 1); } else { assert vts[..s + 1] == vts; }
  }

  /** Every declaration is good exactly if every tag of every section is. */
  lemma GoodExactly(vts: seq<Section>)
    ensures AllGood(Flat(vts)) <==>
              forall s, j :: 0 <= s < |vts| && 0 <= j < |vts[s].tags| ==>
                vts[s].tags[j].id >= 0x8000_0000 && vts[s].tags[j].tagType >= 0
  {
    hide Flat;
    if AllGood(Flat(vts)) {
      forall s, j | 0 <= s < |vts| && 0 <= j < |vts[s].tags|
        ensures vts[s].tags[j].id >= 0x8000_0000 && vts[s].tags[j].tagType >= 0
      {
        FlatExact(vts, s, j);
        assert Good(Flat(vts)[TotalTags(vts[..s]) + j].tag);
      }
    } else {
      var k :| 0 <= k < |Flat(vts)| && !Good(Flat(vts)[k].tag);
      var s, j := FlatFrom(vts, k);
      assert !Good(vts[s].tags[j]);
    }
  }

  lemma {:induction false} FlatFrom(vts: seq<Section>, k: nat) returns (s: nat, j: nat)
    requires k < |Flat(vts)|
    ensures s < |vts| && j < |vts[s].tags| && Flat(vts)[k] == Declared(vts[s].name, vts[s].tags[j])
  {
    var init := vts[..|vts| - 1];
    if k < |Flat(init)| { s, j := FlatFrom(init, k); } else { s, j := |init|, k - |Flat(init)|; }
  }

  method CountTags(vts: seq<Section>) returns (tagCount: nat)
    ensures tagCount == |Flat(vts)|
  {
    tagCount := 0;
    for s := 0 to |vts|
      invariant tagCount == |Flat(vts[..s])|
    {
      FlatPrefix(vts, s);
      tagCount := tagCount + |vts[s].tags|;
    }
    assert vts[..|vts|] == vts;
  }

  /** What the first pass fills. */
  class Pass {
    var tagArray: array<uint32>
    var idx: nat
    var tagToName: map<uint32, string>
    var tagToType: map<uint32, int>
    var sections: seq<string>
    var tagToSection: map<uint32, string>

    /** The pass has seen the declarations `d`. */
    ghost predicate Seen(d: seq<Declared>)
      reads this, tagArray
    {
      && idx == |d| <= tagArray.Length && tagArray[..idx] == Ids(d) && tagToName == NamesOf(d)
         && tagToType == TypesOf(d)
      && tagToSection == SectionsOf(d)
    }

    constructor (tagCount: nat)
      ensures fresh(tagArray) && tagArray.Length == tagCount && Seen([]) && sections == []
    {
      tagArray := new uint32[tagCount];
      idx, tagToName, tagToType, sections, tagToSection := 0, map[], map[], [], map[];
      new;
      assert Ids([]) == [];
    }

    method Declare(section: string, tag: Tag, ghost d: seq<Declared>) returns (ok: bool)
      requires Seen(d) && idx < tagArray.Length
      modifies this`idx, this`tagToName, this`tagToType, this`tagToSection, tagArray
      ensures ok <==> Good(tag)
      ensures ok ==> Seen(d + [Declared(section, tag)])
    {
      PassSnoc(d, Declared(section, tag));
      hide NamesOf, SectionsOf, TypesOf;
      if tag.id < VENDOR_TAG_BOUNDARY {
        return false;
      }
      tagArray[idx] := tag.id;
      idx := idx + 1;
      tagToName := tagToName[tag.id := tag.name];
      tagToSection := tagToSection[tag.id := section];
      if tag.tagType < 0 {
        return false;
      }
      if tag.id !in tagToType {
        tagToType := tagToType[tag.id := tag.tagType];
      }
      assert tagArray[..idx] == Ids(d) + [tag.id];
      return true;
    }

    /** The tags of one section; `d` are the declarations before it. */
    method DeclareAll(section: Section, ghost d: seq<Declared>) returns (ok: bool)
      requires Seen(d) && |d| + |section.tags| <= tagArray.Length
      modifies this`idx, this`tagToName, this`tagToType, this`tagToSection, tagArray
      ensures ok <==> AllGood(DeclaredIn(section))
      ensures ok ==> Seen(d + DeclaredIn(section))
    {
      ghost var mine, e := DeclaredIn(section), d;
      hide Seen, Good;
      for j := 0 to |section.tags|
        modifies this`idx, this`tagToName, this`tagToType, this`tagToSection, tagArray
        invariant Seen(e) && e == d + mine[..j]
        invariant AllGood(mine[..j])
      {
        SeenLength(e);
        ok := Declare(section.name, section.tags[j], e);
        if !ok {
          assert !Good(mine[j].tag);
          return;
        }
        e := e + [mine[j]];
        assert mine[..j + 1] == mine[..j] + [mine[j]];
      }
      assert mine[..|section.tags|] == mine;
      return true;
    }

    method FirstPass(vts: seq<Section>) returns (ok: bool)
      requires Seen([]) && sections == [] && tagArray.Length == |Flat(vts)|
      modifies this`idx, this`tagToName, this`tagToType, this`sections, this`tagToSection, tagArray
      ensures ok <==> AllGood(Flat(vts))
      ensures ok ==> Seen(Flat(vts)) && sections == SectionList(vts)
    {
      for s := 0 to |vts|
        invariant Seen(Flat(vts[..s])) && AllGood(Flat(vts[..s])) && sections == SectionList(vts[..s])
      {
        FlatPrefix(vts, s);
        hide Flat, SectionList, Add, Good, Seen;
        sections := Add(sections, vts[s].name);
        ok := DeclareAll(vts[s], Flat(vts[..s]));
        if !ok {
          BadPrefix(Flat(vts[..s]), DeclaredIn(vts[s]), Flat(vts));
          return;
        }
      }
      assert vts[..|vts|] == vts;
      return true;
    }

    static lemma BadPrefix(d: seq<Declared>, mine: seq<Declared>, all: seq<Declared>)
      requires d + mine <= all && !AllGood(mine)
      ensures !AllGood(all)
    {
      var k :| 0 <= k < |mine| && !Good(mine[k].tag);
      assert all[|d| + k] == mine[k];
    }

    lemma SeenLength(d: seq<Declared>)
      requires Seen(d)
      ensures idx == |d| <= tagArray.Length
    {
    }
  }

  /** The second pass: the section index of each tag, and the reverse map. */
  method SecondPass(tags: seq<uint32>, sectionOf: map<uint32, string>, nameOf: map<uint32, string>,
      sections: seq<string>)
    returns (tagToSection: map<uint32, nat>, reverse: map<string, map<string, uint32>>)
    requires Placed(tags, sectionOf, sections) && Mapped(tags, sectionOf, nameOf)
    ensures tagToSection == Indexed(tags, sectionOf, sections) && reverse == Reversed(tags, sectionOf, nameOf)
  {
    tagToSection, reverse := map[], map[];
    for i := 0 to |tags|
      invariant tagToSection == Indexed(tags[..i], sectionOf, sections)
      invariant reverse == Reversed(tags[..i], sectionOf, nameOf)
    {
      assert tags[..i + 1][..i] == tags[..i];
      var tag := tags[i];
      var section := sectionOf[tag];
      tagToSection := tagToSection[tag := IndexOf(sections, section)];
      if section !in reverse {
        reverse := reverse[section := map[]];
      }
      reverse := reverse[section := reverse[section][nameOf[tag] := tag]];
    }
    assert tags[..|tags|] == tags;
  }

  method CreateDescriptorFromHidl(vts: seq<Section>) returns (r: Result)
    ensures r.Ok? <==>
              && TotalTags(vts) < 0x8000_0000
              && forall s, j :: 0 <= s < |vts| && 0 <= j < |vts[s].tags| ==>
                   vts[s].tags[j].id >= 0x8000_0000 && vts[s].tags[j].tagType >= 0
    ensures r.Ok? ==> r == Ok(Build(vts))
  {
    GoodExactly(vts);
    FlatLength(vts);
    var tagCount := CountTags(vts);
    if tagCount > INT32_MAX {
      return BadValue;
    }
    var pass := new Pass(tagCount);
    var ok := pass.FirstPass(vts);
    if !ok {
      return BadValue;
    }
    SecondPassDefined(vts);
    assert pass.tagArray[..] == pass.tagArray[..pass.idx];
    hide Flat, NamesOf, SectionsOf, TypesOf, SectionList, Indexed, Reversed, Placed, Mapped;
    var tagToSection, reverse := SecondPass(pass.tagArray[..], pass.tagToSection, pass.tagToName, pass.sections);
    return Ok(Descriptor(tagCount, pass.tagToName, pass.tagToType, pass.sections, tagToSection, reverse));
  }
}

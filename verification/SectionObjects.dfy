/** Go's mutable Section objects and Sections.Merge (config/elements.go), on top of the groups and
    fields of module ElementObjects. */
module SectionObjects {
  import opened KeyedMerge
  import opened ElementObjects
  import E = Elements

  class Section {
    var id: string
    var caption: string
    var scopes: nat
    var sortOrder: int
    var resource: nat
    var groups: seq<Group>

    ghost function V(): E.Section
      reads this, groups, FieldsOf(groups)
    {
      E.Section(id, caption, scopes, sortOrder, resource, GroupViews(groups))
    }

    /** new(Section) */
    constructor ()
      ensures V() == E.EMPTY_SECTION && groups == []
    {
      id, caption, scopes, sortOrder, resource, groups := "", "", 0, 0, 0, [];
    }

    /** Every attribute is what `other` had, where that was set. */
    twostate predicate TookAttributes(other: Section)
      reads this
    {
      && id == old(other.id)
      && caption == old(if other.caption != "" then other.caption else caption)
      && scopes == old(if other.scopes > 0 then other.scopes else scopes)
      && sortOrder == old(if other.sortOrder != 0 then other.sortOrder else sortOrder)
      && resource == old(if other.resource > 0 then other.resource else resource)
    }

    method UpdateAttributes(other: Section)
      modifies `id, `caption, `scopes, `sortOrder, `resource
      ensures TookAttributes(other)
    {
      id := other.id;
      if other.caption != "" { caption := other.caption; }
      if other.scopes > 0 { scopes := other.scopes; }
      if other.sortOrder != 0 { sortOrder := other.sortOrder; }
      if other.resource > 0 { resource := other.resource; }
    }

    method UpdateOwn(other: Section)
      modifies `id, `caption, `scopes, `sortOrder, `resource
      ensures TookAttributes(other)
      ensures FieldsOf(groups) == old(FieldsOf(groups)) && FieldsOf(other.groups) == old(FieldsOf(other.groups))
      ensures GroupViews(groups) == old(GroupViews(groups)) && GroupViews(other.groups) == old(GroupViews(other.groups))
      ensures AllApart(groups) == old(AllApart(groups)) && AllApart(other.groups) == old(AllApart(other.groups))
      ensures Across(groups, other.groups) == old(Across(groups, other.groups))
    {
      hide Separate, Apart, Group.V;
      UpdateAttributes(other);
    }

    method UpdateGroups(other: Section)
      requires this != other && AllApart(groups) && AllApart(other.groups) && Across(groups, other.groups)
      modifies `groups, groups, other.groups, FieldsOf(groups), FieldsOf(other.groups)
      ensures GroupViews(groups) == Merge(E.GROUPS, old(GroupViews(groups)), old(GroupViews(other.groups)))
      ensures AllApart(groups) && FieldsOf(groups) <= old(FieldsOf(groups) + FieldsOf(other.groups))
      ensures forall x | x in groups :: x in old(groups) || x in old(other.groups)
    {
      hide Merge, Across, Separate, Apart, Group.V;
      groups := MergeGroups(groups, other.groups);
    }

    /** The part of Sections.merge behind the search. */
    method Update(other: Section)
      requires this != other && AllApart(groups) && AllApart(other.groups) && Across(groups, other.groups)
      modifies this, groups, other.groups, FieldsOf(groups), FieldsOf(other.groups)
      ensures V() == E.UpdateSection(old(V()), old(other.V()))
      ensures AllApart(groups) && FieldsOf(groups) <= old(FieldsOf(groups) + FieldsOf(other.groups))
      ensures forall x | x in groups :: x in old(groups) || x in old(other.groups)
    {
      hide Merge, AllApart, Across, GroupViews, FieldsOf;
      ghost var w := E.UpdateSection(V(), other.V());
      UpdateOwn(other);
      assert caption == w.caption;
      UpdateGroups(other);
    }
  }

  ghost function GroupsOf(ss: seq<Section>): (all: set<Group>)
    reads ss
    ensures forall i, x | 0 <= i < |ss| && x in ss[i].groups :: x in all
  {
    set i, x | 0 <= i < |ss| && x in ss[i].groups :: x
  }

  ghost function FieldsIn(ss: seq<Section>): (all: set<Field>)
    reads ss, GroupsOf(ss)
    ensures forall i, x | 0 <= i < |ss| && x in FieldsOf(ss[i].groups) :: x in all
  {
    set i, x | 0 <= i < |ss| && x in FieldsOf(ss[i].groups) :: x
  }

  ghost function SectionViews(ss: seq<Section>): (vs: seq<E.Section>)
    reads ss, GroupsOf(ss), FieldsIn(ss)
    ensures |vs| == |ss| && forall i | 0 <= i < |ss| :: vs[i] == ss[i].V()
  {
    seq(|ss|, i requires 0 <= i < |ss| reads ss, GroupsOf(ss), FieldsIn(ss) => ss[i].V())
  }

  /** Two sections that share nothing. */
  ghost predicate Clear(s: Section, t: Section)
    reads s, t, s.groups, t.groups
  {
    s != t && Across(s.groups, t.groups)
  }

  ghost predicate AllClear(ss: seq<Section>)
    reads ss, GroupsOf(ss), FieldsIn(ss)
  {
    && (forall i | 0 <= i < |ss| :: AllApart(ss[i].groups))
    && (forall i, j | 0 <= i < j < |ss| :: Clear(ss[i], ss[j]))
  }

  twostate lemma SectionKept(s: Section)
    requires unchanged(s) && (forall x | x in s.groups :: unchanged(x)) &&
             (forall x | x in old(FieldsOf(s.groups)) :: unchanged(x))
    ensures s.V() == old(s.V()) && AllApart(s.groups) == old(AllApart(s.groups)) &&
            FieldsOf(s.groups) == old(FieldsOf(s.groups))
  {
    hide AllApart, FieldsOf, Group.V;
    AllKept(s.groups);
    assert GroupViews(s.groups) == old(GroupViews(s.groups));
  }

  method UpdateSectionAt(ss: seq<Section>, idx: nat, s: Section)
    requires idx < |ss| && AllClear(ss) && AllApart(s.groups) && forall i | 0 <= i < |ss| :: Clear(ss[i], s)
    modifies ss[idx], ss[idx].groups, s.groups, FieldsOf(ss[idx].groups), FieldsOf(s.groups)
    ensures ss[idx].V() == E.UpdateSection(old(ss[idx].V()), old(s.V()))
    ensures forall k | 0 <= k < |ss| && k != idx ::
              ss[k].V() == old(ss[k].V()) && ss[k].groups == old(ss[k].groups) &&
                FieldsOf(ss[k].groups) == old(FieldsOf(ss[k].groups))
    ensures AllClear(ss)
    ensures forall x | x in ss[idx].groups :: x in old(ss[idx].groups) || x in old(s.groups)
    ensures FieldsOf(ss[idx].groups) <= old(FieldsOf(ss[idx].groups) + FieldsOf(s.groups))
  {
    hide E.UpdateSection, AllApart, Section.V;
    ghost var c := ss[idx];
    assert forall k | 0 <= k < |ss| && k != idx :: Clear(ss[k], c) by {
      assert forall k | 0 <= k < idx :: Clear(ss[k], ss[idx]);
      assert forall k | idx < k < |ss| :: Clear(ss[idx], ss[k]);
    }
    ss[idx].Update(s);
    forall k | 0 <= k < |ss| && k != idx
      ensures ss[k].V() == old(ss[k].V()) && AllApart(ss[k].groups) &&
              FieldsOf(ss[k].groups) == old(FieldsOf(ss[k].groups))
    {
      assert old(Clear(ss[k], c)) && old(Clear(ss[k], s));
      SectionKept(ss[k]);
    }
  }

  /** Two lists of sections that share nothing. */
  ghost predicate Unrelated(ss: seq<Section>, more: seq<Section>)
    reads ss, more, GroupsOf(ss), GroupsOf(more)
  {
    (forall x | x in ss :: x !in more) && GroupsOf(ss) !! GroupsOf(more) && FieldsIn(ss) !! FieldsIn(more)
  }

  lemma UnrelatedOne(ss: seq<Section>, s: Section)
    requires Unrelated(ss, [s])
    ensures forall i | 0 <= i < |ss| :: Clear(ss[i], s)
  {
    hide FieldsOf;
    assert [s][0] == s && s in [s];
    assert (forall x | x in s.groups :: x in GroupsOf([s])) && forall x | x in FieldsOf(s.groups) :: x in FieldsIn([s]);
    forall i | 0 <= i < |ss| ensures Clear(ss[i], s) {
      assert ss[i] in ss;
      assert (forall x | x in ss[i].groups :: x in GroupsOf(ss)) &&
             forall x | x in FieldsOf(ss[i].groups) :: x in FieldsIn(ss);
    }
  }

  /** Sections.Find */
  method FindSection(ss: seq<Section>, id: string) returns (index: int)
    ensures index == Index(E.SECTIONS, SectionViews(ss), id)
  {
    for i := 0 to |ss|
      invariant forall k | 0 <= k < i :: ss[k].id != id
    {
      if ss[i].id == id {
        assert E.SECTIONS.id(SectionViews(ss)[i]) == id;
        ghost var j := Index(E.SECTIONS, SectionViews(ss), id);
        assert j <= i && E.SECTIONS.id(SectionViews(ss)[j]) == ss[j].id;
        return i;
      }
    }
    assert forall k | 0 <= k < |ss| :: E.SECTIONS.id(SectionViews(ss)[k]) == ss[k].id;
    return -1;
  }

  method ReplaceSection(ss: seq<Section>, idx: nat, s: Section)
    requires idx < |ss| && AllClear(ss) && AllApart(s.groups) && Unrelated(ss, [s])
    modifies ss, GroupsOf(ss), FieldsIn(ss), s.groups, FieldsOf(s.groups)
    ensures SectionViews(ss) == old(SectionViews(ss))[idx := E.UpdateSection(old(SectionViews(ss)[idx]), old(s.V()))]
    ensures AllClear(ss) && GroupsOf(ss) <= old(GroupsOf(ss) + GroupsOf([s])) &&
            FieldsIn(ss) <= old(FieldsIn(ss) + FieldsIn([s]))
  {
    hide E.UpdateSection, AllClear, Clear, Section.V, Unrelated, AllApart;
    UnrelatedOne(ss, s);
    assert [s][0] == s && (forall x | x in s.groups :: x in GroupsOf([s])) &&
           forall x | x in FieldsOf(s.groups) :: x in FieldsIn([s]);
    UpdateSectionAt(ss, idx, s);
  }

  method CopySection(s: Section) returns (cs: Section)
    requires AllApart(s.groups)
    modifies s.groups, FieldsOf(s.groups)
    ensures fresh(cs) && cs.V() == E.NewSection(old(s.V())) && AllApart(cs.groups)
    ensures (forall x | x in cs.groups :: x in old(s.groups)) && FieldsOf(cs.groups) <= old(FieldsOf(s.groups))
  {
    hide E.UpdateSection, AllApart;
    cs := new Section();
    SectionKept(s);
    NoGroups();
    cs.Update(s);
  }

  lemma NoGroups()
    ensures FieldsOf([]) == {} && AllApart([])
  {
  }

  method CopyBeside(ss: seq<Section>, s: Section) returns (cs: Section)
    requires AllClear(ss) && AllApart(s.groups) && forall i | 0 <= i < |ss| :: Clear(ss[i], s)
    modifies s.groups, FieldsOf(s.groups)
    ensures fresh(cs) && cs.V() == E.NewSection(old(s.V()))
    ensures (forall x | x in cs.groups :: x in old(s.groups)) && FieldsOf(cs.groups) <= old(FieldsOf(s.groups))
    ensures forall k | 0 <= k < |ss| ::
              ss[k].V() == old(ss[k].V()) && ss[k].groups == old(ss[k].groups) &&
                FieldsOf(ss[k].groups) == old(FieldsOf(ss[k].groups))
    ensures AllClear(ss + [cs])
  {
    hide E.UpdateSection, AllApart, Section.V;
    cs := CopySection(s);
    forall k | 0 <= k < |ss|
      ensures ss[k].V() == old(ss[k].V()) && AllApart(ss[k].groups) &&
              FieldsOf(ss[k].groups) == old(FieldsOf(ss[k].groups))
    {
      assert old(Clear(ss[k], s));
      SectionKept(ss[k]);
    }
  }

  method AddSection(ss: seq<Section>, s: Section) returns (r: seq<Section>)
    requires AllClear(ss) && AllApart(s.groups) && Unrelated(ss, [s])
    modifies s.groups, FieldsOf(s.groups)
    ensures |r| == |ss| + 1 && r[..|ss|] == ss && fresh(r[|ss|])
    ensures SectionViews(r) == old(SectionViews(ss)) + [E.NewSection(old(s.V()))]
    ensures AllClear(r) && GroupsOf(r) <= old(GroupsOf(ss) + GroupsOf([s])) &&
            FieldsIn(r) <= old(FieldsIn(ss) + FieldsIn([s]))
  {
    hide E.NewSection, AllClear, Clear, Section.V, Unrelated, AllApart;
    UnrelatedOne(ss, s);
    assert [s][0] == s && (forall x | x in s.groups :: x in GroupsOf([s])) &&
           forall x | x in FieldsOf(s.groups) :: x in FieldsIn([s]);
    var cs := CopyBeside(ss, s);
    r := ss + [cs];
  }

  twostate lemma SectionsKept(ss: seq<Section>)
    requires (forall x | x in ss :: unchanged(x)) && (forall x | x in old(GroupsOf(ss)) :: unchanged(x)) &&
             (forall x | x in old(FieldsIn(ss)) :: unchanged(x))
    ensures GroupsOf(ss) == old(GroupsOf(ss)) && FieldsIn(ss) == old(FieldsIn(ss))
    ensures AllClear(ss) == old(AllClear(ss)) && SectionViews(ss) == old(SectionViews(ss))
  {
    hide AllApart, Section.V;
    forall k | 0 <= k < |ss|
      ensures ss[k].groups == old(ss[k].groups) && ss[k].V() == old(ss[k].V()) &&
              FieldsOf(ss[k].groups) == old(FieldsOf(ss[k].groups))
      ensures AllApart(ss[k].groups) == old(AllApart(ss[k].groups))
    {
      assert ss[k] in ss && unchanged(ss[k]);
      assert forall x | x in ss[k].groups :: x in old(GroupsOf(ss));
      assert forall x | x in old(FieldsOf(ss[k].groups)) :: x in old(FieldsIn(ss));
      SectionKept(ss[k]);
    }
  }

  lemma IDKept(s: Section)
    ensures E.SECTIONS.id(s.V()) == s.id
  {
  }

  method StoreSection(ss: seq<Section>, s: Section, idx: int) returns (r: seq<Section>)
    requires AllClear(ss) && AllApart(s.groups) && Unrelated(ss, [s]) &&
             idx == Index(E.SECTIONS, SectionViews(ss), s.id)
    modifies ss, GroupsOf(ss), FieldsIn(ss), s.groups, FieldsOf(s.groups)
    ensures SectionViews(r) == MergeOne(E.SECTIONS, old(SectionViews(ss)), old(s.V()))
    ensures AllClear(r) && GroupsOf(r) <= old(GroupsOf(ss) + GroupsOf([s])) &&
            FieldsIn(r) <= old(FieldsIn(ss) + FieldsIn([s]))
    ensures forall x | x in r :: x in ss || fresh(x)
  {
    hide E.UpdateSection, E.NewSection, AllClear, Unrelated, SectionViews, AllApart, Section.V, GroupsOf, FieldsIn;
    IDKept(s);
    if idx < 0 {
      r := AddSection(ss, s);
      assert forall x | x in r :: x in r[..|ss|] || x == r[|ss|];
    } else {
      ReplaceSection(ss, idx, s);
      r := ss;
    }
  }

  /** Sections.merge */
  method MergeSection(ss: seq<Section>, s: Section) returns (r: seq<Section>)
    requires AllClear(ss) && AllApart(s.groups) && Unrelated(ss, [s])
    modifies ss, GroupsOf(ss), FieldsIn(ss), s.groups, FieldsOf(s.groups)
    ensures SectionViews(r) == MergeOne(E.SECTIONS, old(SectionViews(ss)), old(s.V()))
    ensures AllClear(r) && GroupsOf(r) <= old(GroupsOf(ss) + GroupsOf([s])) &&
            FieldsIn(r) <= old(FieldsIn(ss) + FieldsIn([s]))
    ensures forall x | x in r :: x in ss || fresh(x)
  {
    hide MergeOne, AllClear, SectionViews, AllApart, Section.V;
    var idx := FindSection(ss, s.id);
    SectionsKept(ss);
    SectionsKept([s]);
    SectionKept(s);
    r := StoreSection(ss, s, idx);
  }

  lemma FirstSection(ss: seq<Section>, more: seq<Section>)
    requires more != [] && AllClear(more) && Unrelated(ss, more)
    ensures AllApart(more[0].groups) && AllClear(more[1..])
    ensures Unrelated(ss, [more[0]]) && Unrelated(ss, more[1..]) && Unrelated([more[0]], more[1..])
    ensures GroupsOf([more[0]]) + GroupsOf(more[1..]) <= GroupsOf(more)
    ensures FieldsIn([more[0]]) + FieldsIn(more[1..]) <= FieldsIn(more)
    ensures SectionViews(more) == [more[0].V()] + SectionViews(more[1..])
  {
    hide AllApart, Section.V, FieldsOf;
    var s, rest := more[0], more[1..];
    assert [s][0] == s && forall i | 0 <= i < |rest| :: rest[i] == more[i + 1];
    forall x | x in GroupsOf([s]) ensures x in GroupsOf(more) { assert x in more[0].groups; }
    forall x | x in FieldsIn([s]) ensures x in FieldsIn(more) { assert x in FieldsOf(more[0].groups); }
    forall x | x in GroupsOf(rest) ensures x in GroupsOf(more) && x !in GroupsOf([s]) {
      var i :| 0 <= i < |rest| && x in rest[i].groups;
      assert x in more[i + 1].groups && Clear(more[0], more[i + 1]);
    }
    forall x | x in FieldsIn(rest) ensures x in FieldsIn(more) && x !in FieldsIn([s]) {
      var i :| 0 <= i < |rest| && x in FieldsOf(rest[i].groups);
      assert x in FieldsOf(more[i + 1].groups) && Clear(more[0], more[i + 1]);
    }
    forall i | 0 <= i < |rest| ensures rest[i] != s { assert Clear(more[0], more[i + 1]); }
  }

  /** Merging one section leaves alone the sections that follow. */
  method MergeSectionBefore(ss: seq<Section>, s: Section, ghost rest: seq<Section>, ghost objs: set<Section>,
                            ghost groups: set<Group>, ghost fields: set<Field>)
    returns (r: seq<Section>)
    requires AllClear(ss) && AllApart(s.groups) && Unrelated(ss, [s])
    requires AllClear(rest) && Unrelated(ss, rest) && Unrelated([s], rest)
    requires GroupsOf(ss) + GroupsOf([s]) <= groups && FieldsIn(ss) + FieldsIn([s]) <= fields
    requires forall x | x in ss :: x in objs
    modifies objs, groups, fields
    ensures SectionViews(r) == MergeOne(E.SECTIONS, old(SectionViews(ss)), old(s.V()))
    ensures AllClear(r) && GroupsOf(r) <= groups && FieldsIn(r) <= fields
    ensures forall x | x in r :: x in ss || fresh(x)
    ensures AllClear(rest) && Unrelated(r, rest)
    ensures GroupsOf(rest) == old(GroupsOf(rest)) && FieldsIn(rest) == old(FieldsIn(rest)) &&
            SectionViews(rest) == old(SectionViews(rest))
  {
    hide MergeOne, SectionViews, AllClear, AllApart, Section.V, Clear;
    assert [s][0] == s && (forall x | x in s.groups :: x in GroupsOf([s])) &&
           forall x | x in FieldsOf(s.groups) :: x in FieldsIn([s]);
    r := MergeSection(ss, s);
    SectionsKept(rest);
  }

  /** Sections.Merge: sections in place, on objects that share nothing. */
  method MergeSections(ss: seq<Section>, more: seq<Section>) returns (r: seq<Section>)
    requires AllClear(ss) && AllClear(more) && Unrelated(ss, more)
    modifies ss, GroupsOf(ss), FieldsIn(ss), GroupsOf(more), FieldsIn(more)
    ensures SectionViews(r) == Merge(E.SECTIONS, old(SectionViews(ss)), old(SectionViews(more)))
    ensures AllClear(r) && forall x | x in r :: x in ss || fresh(x)
  {
    hide MergeOne, SectionViews, AllClear, Unrelated, AllApart, Section.V, FieldsIn, GroupsOf;
    r := ss;
    ghost var news, own, added := SectionViews(more), set x | x in ss, {};
    ghost var groups, fields := GroupsOf(ss) + GroupsOf(more), FieldsIn(ss) + FieldsIn(more);
    assert news[..0] == [] && more[0..] == more;
    for i := 0 to |more|
      invariant SectionViews(r) == Merge(E.SECTIONS, old(SectionViews(ss)), news[..i])
      invariant AllClear(r) && AllClear(more[i..]) && Unrelated(r, more[i..])
      invariant fresh(added) && forall x | x in r :: x in own + added
      invariant GroupsOf(r) <= groups && FieldsIn(r) <= fields
      invariant GroupsOf(more[i..]) <= groups && FieldsIn(more[i..]) <= fields && SectionViews(more[i..]) == news[i..]
    {
      assert news[..i + 1][..i] == news[..i] && news[i + 1..] == news[i..][1..];
      FirstSection(r, more[i..]);
      assert more[i..][0] == more[i] && more[i..][1..] == more[i + 1..];
      ghost var before := r;
      r := MergeSectionBefore(r, more[i], more[i + 1..], own + added, groups, fields);
      added := added + set x | x in r && x !in before;
    }
    assert news[..|more|] == news;
  }
}

/** Go's mutable Section, Group and Field objects: merging overwrites them in place and appends
    to slices of pointers (config/elements.go). Each method is proved against the functions of
    modules KeyedMerge and Elements on the values the objects hold. */
module ElementObjects {
  import opened KeyedMerge
  import E = Elements

  class Field {
    var id: string
    var configRoute: string
    var typ: nat
    var caption: string
    var comment: string
    var tooltip: string
    var sortOrder: int
    var visible: bool
    var canBeEmpty: bool
    var scopes: nat
    var default: string

    ghost function V(): E.Field
      reads this
    {
      E.Field(id, configRoute, typ, caption, comment, tooltip, sortOrder, visible, canBeEmpty, scopes, default)
    }

    method UpdateNumbers(other: Field)
      modifies `typ, `scopes, `sortOrder, `visible, `canBeEmpty
      ensures typ == old(if other.typ > 0 then other.typ else typ)
      ensures scopes == old(if other.scopes > 0 then other.scopes else scopes)
      ensures sortOrder == old(if other.sortOrder != 0 then other.sortOrder else sortOrder)
      ensures visible == old(other.visible) && canBeEmpty == old(other.canBeEmpty)
    {
      if other.typ > 0 { typ := other.typ; }
      if other.scopes > 0 { scopes := other.scopes; }
      if other.sortOrder != 0 { sortOrder := other.sortOrder; }
      visible := other.visible;
      canBeEmpty := other.canBeEmpty;
    }

    method UpdateTexts(other: Field)
      modifies `caption, `comment, `tooltip, `default
      ensures caption == old(if other.caption != "" then other.caption else caption)
      ensures comment == old(if other.comment != "" then other.comment else comment)
      ensures tooltip == old(if other.tooltip != "" then other.tooltip else tooltip)
      ensures default == old(if other.default != "" then other.default else default)
    {
      if other.caption != "" { caption := other.caption; }
      if other.comment != "" { comment := other.comment; }
      if other.tooltip != "" { tooltip := other.tooltip; }
      if other.default != "" { default := other.default; }
    }

    /** Field.Update; `other` may be this very field. */
    method Update(other: Field)
      modifies this
      ensures V() == E.Update(old(V()), old(other.V()))
    {
      UpdateNumbers(other);
      UpdateTexts(other);
      ghost var w := E.Update(old(V()), old(other.V()));
      assert caption == w.caption && comment == w.comment && tooltip == w.tooltip && default == w.default;
    }
  }

  ghost function Views(fs: seq<Field>): (vs: seq<E.Field>)
    reads fs
    ensures |vs| == |fs| && forall i | 0 <= i < |fs| :: vs[i] == fs[i].V()
  {
    seq(|fs|, i requires 0 <= i < |fs| reads fs => fs[i].V())
  }

  /** Only a field without id may be listed twice: it is never found, hence never written. */
  ghost predicate Separate(fs: seq<Field>)
    reads fs
  {
    forall i, j | 0 <= i < j < |fs| && fs[i] == fs[j] :: fs[i].id == ""
  }

  ghost predicate Disjoint(fs: seq<Field>, more: seq<Field>) {
    forall x | x in fs :: x !in more
  }

  /** Fields.Find */
  method FindField(fs: seq<Field>, id: string) returns (index: int)
    ensures index == var i := Index(E.FIELDS, Views(fs), id); if i == -1 then -3 else i
  {
    for i := 0 to |fs|
      invariant forall k | 0 <= k < i :: id == "" || fs[k].id != id
    {
      if fs[i].id != "" && fs[i].id == id {
        assert E.FIELDS.id(Views(fs)[i]) == id;
        ghost var j := Index(E.FIELDS, Views(fs), id);
        assert j <= i && E.FIELDS.id(Views(fs)[j]) == fs[j].id;
        return i;
      }
    }
    assert forall k | 0 <= k < |fs| :: E.FIELDS.id(Views(fs)[k]) == fs[k].id;
    return -3;
  }

  /** Fields.merge: at most the field found is changed. */
  method MergeField(fs: seq<Field>, f: Field) returns (r: seq<Field>)
    requires Separate(fs)
    modifies fs, f
    ensures Views(r) == MergeOne(E.FIELDS, old(Views(fs)), old(f.V()))
    ensures r == if Index(E.FIELDS, old(Views(fs)), old(f.id)) == -1 then fs + [f] else fs
    ensures forall x | x in fs || x == f :: x.id == old(x.id)
    ensures forall x | x in fs || x == f ::
              x.V() == old(x.V()) || (var i := Index(E.FIELDS, old(Views(fs)), old(f.id)); i != -1 && x == fs[i])
  {
    var idx := FindField(fs, f.id);
    if idx < 0 {
      f.Update(f);
      r := fs + [f];
    } else {
      fs[idx].Update(f);
      r := fs;
    }
  }

  /** The list r while fields more[i..] are still to be merged into what was fs. */
  ghost predicate Merging(fs: seq<Field>, more: seq<Field>, r: seq<Field>, i: nat)
    reads r, more
  {
    && i <= |more|
    && Separate(r) && Separate(more) && fs <= r && (fs == more || Disjoint(fs, more))
    && (forall p | |fs| <= p < |r| :: r[p] in more[..i])
  }

  /** The field found for more[i] is not one that is still to be merged. */
  lemma NotAhead(fs: seq<Field>, more: seq<Field>, r: seq<Field>, i: nat, j: int)
    requires Merging(fs, more, r, i) && i < |more| && j == Index(E.FIELDS, Views(r), more[i].id) && j != -1
    ensures forall k | i < k < |more| :: more[k] != r[j]
  {
    assert E.FIELDS.id(Views(r)[j]) == r[j].id == more[i].id;
    if fs == more {
      assert r[i] == more[i] && E.FIELDS.id(Views(r)[i]) == more[i].id;
      assert forall k | i < k < |more| :: more[k] == r[k];
    } else {
      assert j < |fs| ==> r[j] == fs[j] && r[j] in fs;
      assert forall k | 0 <= k < |more| :: more[k] in more;
    }
  }

  /** A field that is not found was not in the list, unless it has no id. */
  lemma NotListed(r: seq<Field>, f: Field)
    requires Index(E.FIELDS, Views(r), f.id) == -1
    ensures f !in r || f.id == ""
  {
    assert forall k | 0 <= k < |r| :: E.FIELDS.id(Views(r)[k]) == r[k].id;
  }

  method MergeNext(fs: seq<Field>, more: seq<Field>, r: seq<Field>, i: nat) returns (r': seq<Field>)
    requires Merging(fs, more, r, i) && i < |more|
    modifies r, more[i]
    ensures Merging(fs, more, r', i + 1)
    ensures Views(r') == MergeOne(E.FIELDS, old(Views(r)), old(more[i].V()))
    ensures forall k | i < k < |more| :: more[k].V() == old(more[k].V())
  {
    hide MergeOne, Views, Index;
    ghost var j := Index(E.FIELDS, Views(r), more[i].id);
    if j != -1 { NotAhead(fs, more, r, i, j); } else { NotListed(r, more[i]); }
    r' := MergeField(r, more[i]);
  }

  /** Fields.Merge, also of a list into itself. */
  method MergeFields(fs: seq<Field>, more: seq<Field>) returns (r: seq<Field>)
    requires Separate(fs) && Separate(more) && (fs == more || Disjoint(fs, more))
    modifies fs, more
    ensures Views(r) == Merge(E.FIELDS, old(Views(fs)), old(Views(more)))
    ensures Separate(r) && forall x | x in r :: x in fs || x in more
  {
    hide MergeOne, Views, Field.V;
    r := fs;
    ghost var news := Views(more);
    assert news[..0] == [];
    for i := 0 to |more|
      invariant Merging(fs, more, r, i)
      invariant Views(r) == Merge(E.FIELDS, old(Views(fs)), news[..i])
      invariant forall k | i <= k < |more| :: more[k].V() == news[k]
    {
      assert news[..i + 1][..i] == news[..i];
      r := MergeNext(fs, more, r, i);
    }
    assert news[..|more|] == news;
  }

  class Group {
    var id: string
    var caption: string
    var comment: string
    var scopes: nat
    var sortOrder: int
    var helpURL: string
    var moreURL: string
    var demoLink: string
    var fields: seq<Field>

    ghost function V(): E.Group
      reads this, fields
    {
      E.Group(id, caption, comment, scopes, sortOrder, helpURL, moreURL, demoLink, Views(fields))
    }

    /** Every attribute is what `other` had, where that was set. */
    twostate predicate TookAttributes(other: Group)
      reads this
    {
      && caption == old(if other.caption != "" then other.caption else caption)
      && comment == old(if other.comment != "" then other.comment else comment)
      && scopes == old(if other.scopes > 0 then other.scopes else scopes)
      && sortOrder == old(if other.sortOrder != 0 then other.sortOrder else sortOrder)
    }

    method UpdateAttributes(other: Group)
      modifies `caption, `comment, `scopes, `sortOrder
      ensures TookAttributes(other)
    {
      if other.caption != "" { caption := other.caption; }
      if other.comment != "" { comment := other.comment; }
      if other.scopes > 0 { scopes := other.scopes; }
      if other.sortOrder != 0 { sortOrder := other.sortOrder; }
    }

    method UpdateOwn(other: Group)
      modifies `caption, `comment, `scopes, `sortOrder
      ensures TookAttributes(other)
      ensures Views(fields) == old(Views(fields)) && Views(other.fields) == old(Views(other.fields))
      ensures Separate(fields) == old(Separate(fields)) && Separate(other.fields) == old(Separate(other.fields))
    {
      UpdateAttributes(other);
    }

    method UpdateFields(other: Group)
      requires Separate(fields) && Separate(other.fields) && (this == other || Disjoint(fields, other.fields))
      modifies `fields, fields, other.fields
      ensures Views(fields) == Merge(E.FIELDS, old(Views(fields)), old(Views(other.fields)))
      ensures Separate(fields) && forall x | x in fields :: x in old(fields) || x in old(other.fields)
    {
      hide Merge, Disjoint;
      fields := MergeFields(fields, other.fields);
    }

    /** The part of Groups.merge behind the search; `other` may be this very group. */
    method Update(other: Group)
      requires Separate(fields) && Separate(other.fields) && (this == other || Disjoint(fields, other.fields))
      modifies this, fields, other.fields
      ensures V() == E.UpdateGroup(old(V()), old(other.V()))
      ensures id == old(id) && Separate(fields)
      ensures forall x | x in fields :: x in old(fields) || x in old(other.fields)
    {
      hide Merge, Separate, Disjoint, Views;
      ghost var w := E.UpdateGroup(V(), other.V());
      UpdateOwn(other);
      assert caption == w.caption && comment == w.comment;
      UpdateFields(other);
    }
  }

  ghost function FieldsOf(gs: seq<Group>): (all: set<Field>)
    reads gs
    ensures forall i, x | 0 <= i < |gs| && x in gs[i].fields :: x in all
  {
    set i, x | 0 <= i < |gs| && x in gs[i].fields :: x
  }

  ghost function GroupViews(gs: seq<Group>): (vs: seq<E.Group>)
    reads gs, FieldsOf(gs)
    ensures |vs| == |gs| && forall i | 0 <= i < |gs| :: vs[i] == gs[i].V()
  {
    seq(|gs|, i requires 0 <= i < |gs| reads gs, FieldsOf(gs) => gs[i].V())
  }

  /** Two groups that share nothing. */
  ghost predicate Apart(g: Group, h: Group)
    reads g, h
  {
    g != h && Disjoint(g.fields, h.fields)
  }

  ghost predicate AllApart(gs: seq<Group>)
    reads gs, FieldsOf(gs)
  {
    && (forall i | 0 <= i < |gs| :: Separate(gs[i].fields))
    && (forall i, j | 0 <= i < j < |gs| :: Apart(gs[i], gs[j]))
  }

  twostate lemma ViewsKept(fs: seq<Field>)
    requires forall x | x in fs :: unchanged(x)
    ensures Views(fs) == old(Views(fs))
  {
    forall i | 0 <= i < |fs| ensures Views(fs)[i] == old(Views(fs))[i] {
      assert fs[i] in fs && unchanged(fs[i]);
      assert fs[i].V() == old(fs[i].V());
    }
  }

  twostate lemma GroupKept(g: Group)
    requires unchanged(g) && forall x | x in g.fields :: unchanged(x)
    ensures g.V() == old(g.V())
  {
    ViewsKept(g.fields);
  }

  /** Groups.Find */
  method FindGroup(gs: seq<Group>, id: string) returns (index: int)
    ensures index == var i := Index(E.GROUPS, GroupViews(gs), id); if i == -1 then -2 else i
  {
    for i := 0 to |gs|
      invariant forall k | 0 <= k < i :: id == "" || gs[k].id != id
    {
      if gs[i].id != "" && gs[i].id == id {
        assert E.GROUPS.id(GroupViews(gs)[i]) == id;
        ghost var j := Index(E.GROUPS, GroupViews(gs), id);
        assert j <= i && E.GROUPS.id(GroupViews(gs)[j]) == gs[j].id;
        return i;
      }
    }
    assert forall k | 0 <= k < |gs| :: E.GROUPS.id(GroupViews(gs)[k]) == gs[k].id;
    return -2;
  }

  method UpdateAt(gs: seq<Group>, idx: nat, g: Group)
    requires idx < |gs| && AllApart(gs) && Separate(g.fields) && forall i | 0 <= i < |gs| :: Apart(gs[i], g)
    modifies gs[idx], gs[idx].fields, g.fields
    ensures gs[idx].V() == E.UpdateGroup(old(gs[idx].V()), old(g.V()))
    ensures forall k | 0 <= k < |gs| && k != idx :: gs[k].V() == old(gs[k].V()) && gs[k].fields == old(gs[k].fields)
    ensures AllApart(gs) && forall x | x in gs[idx].fields :: x in old(gs[idx].fields) || x in g.fields
    ensures g.fields == old(g.fields)
  {
    hide E.UpdateGroup;
    ghost var c := gs[idx];
    assert forall k | 0 <= k < |gs| && k != idx :: Apart(gs[k], c) by {
      assert forall k | 0 <= k < idx :: Apart(gs[k], gs[idx]);
      assert forall k | idx < k < |gs| :: Apart(gs[idx], gs[k]);
    }
    gs[idx].Update(g);
    forall k | 0 <= k < |gs| && k != idx ensures gs[k].V() == old(gs[k].V()) {
      assert Apart(gs[k], g);
      GroupKept(gs[k]);
    }
  }

  method UpdateSelf(gs: seq<Group>, g: Group)
    requires AllApart(gs) && Separate(g.fields) && forall i | 0 <= i < |gs| :: Apart(gs[i], g)
    modifies g, g.fields
    ensures g.V() == E.UpdateGroup(old(g.V()), old(g.V()))
    ensures forall k | 0 <= k < |gs| :: gs[k].V() == old(gs[k].V()) && gs[k].fields == old(gs[k].fields)
    ensures AllApart(gs + [g]) && forall x | x in g.fields :: x in old(g.fields)
  {
    hide E.UpdateGroup;
    g.Update(g);
    forall k | 0 <= k < |gs| ensures gs[k].V() == old(gs[k].V()) {
      assert old(Apart(gs[k], g));
      GroupKept(gs[k]);
    }
  }

  method AppendGroup(gs: seq<Group>, g: Group) returns (r: seq<Group>)
    requires AllApart(gs) && Separate(g.fields) && forall i | 0 <= i < |gs| :: Apart(gs[i], g)
    modifies g, g.fields
    ensures r == gs + [g] && GroupViews(r) == old(GroupViews(gs)) + [E.NewGroup(old(g.V()))]
    ensures AllApart(r) && FieldsOf(r) <= old(FieldsOf(gs) + FieldsOf([g]))
  {
    hide E.UpdateGroup, AllApart, Apart, Separate;
    ghost var fields := FieldsOf([g]);
    assert forall x | x in g.fields :: x in [g][0].fields;
    UpdateSelf(gs, g);
    r := gs + [g];
    assert forall k | 0 <= k < |gs| :: r[k] == gs[k];
  }

  method ReplaceGroup(gs: seq<Group>, idx: nat, g: Group)
    requires idx < |gs| && AllApart(gs) && Separate(g.fields) && forall i | 0 <= i < |gs| :: Apart(gs[i], g)
    modifies gs, FieldsOf(gs), g.fields
    ensures GroupViews(gs) == old(GroupViews(gs))[idx := E.UpdateGroup(old(GroupViews(gs)[idx]), old(g.V()))]
    ensures AllApart(gs) && FieldsOf(gs) <= old(FieldsOf(gs) + FieldsOf([g]))
  {
    hide E.UpdateGroup, AllApart, Apart, Separate;
    ghost var fields := FieldsOf([g]);
    assert forall x | x in g.fields :: x in [g][0].fields;
    UpdateAt(gs, idx, g);
  }

  /** Two lists of groups that share nothing. */
  ghost predicate Across(gs: seq<Group>, more: seq<Group>)
    reads gs, more
  {
    (forall x | x in gs :: x !in more) && FieldsOf(gs) !! FieldsOf(more)
  }

  lemma AcrossOne(gs: seq<Group>, g: Group)
    requires Across(gs, [g])
    ensures forall i | 0 <= i < |gs| :: Apart(gs[i], g)
  {
    assert g in [g] && forall x | x in g.fields :: x in [g][0].fields && x in FieldsOf([g]);
    forall i | 0 <= i < |gs| ensures Apart(gs[i], g) {
      assert gs[i] in gs && forall x | x in gs[i].fields :: x in FieldsOf(gs);
    }
  }

  twostate lemma AllKept(gs: seq<Group>)
    requires (forall x | x in gs :: unchanged(x)) && (forall x | x in old(FieldsOf(gs)) :: unchanged(x))
    ensures FieldsOf(gs) == old(FieldsOf(gs)) && AllApart(gs) == old(AllApart(gs))
    ensures forall k | 0 <= k < |gs| :: gs[k].V() == old(gs[k].V()) && gs[k].fields == old(gs[k].fields)
  {
    forall k | 0 <= k < |gs| ensures gs[k].fields == old(gs[k].fields) && gs[k].V() == old(gs[k].V()) {
      assert gs[k] in gs && unchanged(gs[k]);
      assert forall x | x in gs[k].fields :: x in old(FieldsOf(gs));
      GroupKept(gs[k]);
    }
  }

  lemma IDKept(g: Group)
    ensures E.GROUPS.id(g.V()) == g.id
  {
  }

  method StoreGroup(gs: seq<Group>, g: Group, idx: int) returns (r: seq<Group>)
    requires AllApart(gs) && Separate(g.fields) && Across(gs, [g])
    requires idx == var i := Index(E.GROUPS, GroupViews(gs), g.id); if i == -1 then -2 else i
    modifies gs, g, FieldsOf(gs), g.fields
    ensures GroupViews(r) == MergeOne(E.GROUPS, old(GroupViews(gs)), old(g.V()))
    ensures r == gs || r == gs + [g]
    ensures AllApart(r) && FieldsOf(r) <= old(FieldsOf(gs) + FieldsOf([g]))
  {
    hide E.UpdateGroup, E.NewGroup, AllApart, Apart, Separate, GroupViews, Across, FieldsOf, Group.V;
    AcrossOne(gs, g);
    IDKept(g);
    if idx < 0 {
      r := AppendGroup(gs, g);
    } else {
      ReplaceGroup(gs, idx, g);
      r := gs;
    }
  }

  /** Groups.merge */
  method MergeGroup(gs: seq<Group>, g: Group) returns (r: seq<Group>)
    requires AllApart(gs) && Separate(g.fields) && Across(gs, [g])
    modifies gs, g, FieldsOf(gs), g.fields
    ensures GroupViews(r) == MergeOne(E.GROUPS, old(GroupViews(gs)), old(g.V()))
    ensures r == gs || r == gs + [g]
    ensures AllApart(r) && FieldsOf(r) <= old(FieldsOf(gs) + FieldsOf([g]))
  {
    hide MergeOne, AllApart, GroupViews, Group.V;
    var idx := FindGroup(gs, g.id);
    AllKept(gs);
    GroupKept(g);
    r := StoreGroup(gs, g, idx);
  }

  /** Merging one group leaves alone the groups that follow. */
  method MergeGroupBefore(gs: seq<Group>, g: Group, ghost rest: seq<Group>, ghost objs: set<Group>,
      ghost all: set<Field>)
    returns (r: seq<Group>)
    requires AllApart(gs) && Separate(g.fields) && Across(gs, [g])
    requires AllApart(rest) && Across(gs, rest) && Across([g], rest)
    requires (forall x | x in gs + [g] :: x in objs) && FieldsOf(gs) + FieldsOf([g]) <= all
    modifies objs, all
    ensures GroupViews(r) == MergeOne(E.GROUPS, old(GroupViews(gs)), old(g.V()))
    ensures AllApart(r) && (forall x | x in r :: x in objs) && FieldsOf(r) <= all
    ensures AllApart(rest) && Across(r, rest) && FieldsOf(rest) == old(FieldsOf(rest)) &&
            GroupViews(rest) == old(GroupViews(rest))
  {
    hide MergeOne, GroupViews, E.UpdateGroup, Separate, AllApart;
    assert g in [g] && forall x | x in g.fields :: x in [g][0].fields && x in FieldsOf([g]);
    r := MergeGroup(gs, g);
    AllKept(rest);
  }

  lemma Head(gs: seq<Group>, more: seq<Group>)
    requires more != [] && AllApart(more) && Across(gs, more)
    ensures Separate(more[0].fields) && AllApart(more[1..])
    ensures Across(gs, [more[0]]) && Across(gs, more[1..]) && Across([more[0]], more[1..])
    ensures FieldsOf([more[0]]) + FieldsOf(more[1..]) <= FieldsOf(more) &&
            GroupViews(more) == [more[0].V()] + GroupViews(more[1..])
  {
    var g, rest := more[0], more[1..];
    assert forall i | 0 <= i < |rest| :: rest[i] == more[i + 1];
    assert FieldsOf([g]) <= FieldsOf(more) by {
      forall x | x in FieldsOf([g]) ensures x in FieldsOf(more) { assert x in more[0].fields; }
    }
    assert FieldsOf(rest) <= FieldsOf(more) by {
      forall x | x in FieldsOf(rest) ensures x in FieldsOf(more) {
        var i :| 0 <= i < |rest| && x in rest[i].fields;
        assert x in more[i + 1].fields;
      }
    }
    forall i | 0 <= i < |rest| ensures Apart(g, rest[i]) { assert Apart(more[0], more[i + 1]); }
    hide AllApart;
    assert FieldsOf([g]) !! FieldsOf(rest) by {
      forall x | x in FieldsOf(rest) ensures x !in FieldsOf([g]) {
        var i :| 0 <= i < |rest| && x in rest[i].fields;
        assert Apart(g, rest[i]);
      }
    }
  }

  /** Groups.Merge */
  method MergeGroups(gs: seq<Group>, more: seq<Group>) returns (r: seq<Group>)
    requires AllApart(gs) && AllApart(more) && Across(gs, more)
    modifies gs, more, FieldsOf(gs), FieldsOf(more)
    ensures GroupViews(r) == Merge(E.GROUPS, old(GroupViews(gs)), old(GroupViews(more)))
    ensures AllApart(r) && FieldsOf(r) <= old(FieldsOf(gs) + FieldsOf(more))
    ensures forall x | x in r :: x in gs || x in more
  {
    hide MergeOne, GroupViews, AllApart, Across, Separate, Group.V, Views, FieldsOf;
    r := gs;
    ghost var news := GroupViews(more);
    ghost var objs, all := (set x | x in gs || x in more), FieldsOf(gs) + FieldsOf(more);
    assert news[..0] == [] && more[0..] == more;
    for i := 0 to |more|
      invariant GroupViews(r) == Merge(E.GROUPS, old(GroupViews(gs)), news[..i])
      invariant AllApart(r) && AllApart(more[i..]) && Across(r, more[i..])
      invariant (forall x | x in r :: x in objs) && FieldsOf(r) <= all
      invariant FieldsOf(more[i..]) <= all && GroupViews(more[i..]) == news[i..]
    {
      assert news[..i + 1][..i] == news[..i] && news[i + 1..] == news[i..][1..];
      Head(r, more[i..]);
      assert more[i..][0] == more[i] && more[i..][1..] == more[i + 1..];
      r := MergeGroupBefore(r, more[i], more[i + 1..], objs, all);
    }
    assert news[..|more|] == news;
  }
}

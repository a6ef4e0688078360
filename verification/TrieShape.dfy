/** The trie as a value: which keys have a node, what each node holds and which segments lead
    on from it. The pruning invariant and its consequences are proved here; module RouteTrie
    connects them to the objects on the heap. */
module TrieShape {
  import opened RouteKey
  import M = RouteMap

  datatype Cell = Cell(fm: M.FieldMeta, kids: set<string>)

  type Shape = map<Key, Cell>

  ghost function Front(k: Key): Key
    requires k != []
  {
    k[..|k| - 1]
  }

  ghost function Last(k: Key): string
    requires k != []
  {
    k[|k| - 1]
  }

  /** Keys and child segments agree in both directions. */
  ghost predicate TreeLike(t: Shape) {
    && [] in t
    && (forall k {:trigger Front(k)} | k in t && k != [] :: Front(k) in t && Last(k) in t[Front(k)].kids)
    && (forall k, s {:trigger k + [s]} | k in t && s in t[k].kids :: k + [s] in t)
  }

  /** Nodes without an entry hold the zero FieldMeta, and so does the root. */
  ghost predicate Clean(t: Shape) {
    forall k | k in t :: (!t[k].fm.valid ==> t[k].fm == M.ZERO_META) && (k == [] ==> !t[k].fm.valid)
  }

  /** Every leaf other than the root and `hole` carries an entry. */
  ghost predicate PrunedBut(t: Shape, hole: Key) {
    forall k | k in t && k != [] && k != hole :: t[k].kids == {} ==> t[k].fm.valid
  }

  /** Every key is a list of proper segments, so that keys and strings correspond one to one. */
  ghost predicate Named(t: Shape) {
    forall k | k in t :: WellFormed(k)
  }

  /** The invariant of every reachable trie; hole == [] means fully pruned. */
  ghost predicate WellShaped(t: Shape, hole: Key) {
    TreeLike(t) && Named(t) && Clean(t) && PrunedBut(t, hole)
  }

  /** The finite map a trie stands for. */
  ghost function Entries(t: Shape): M.Meta {
    map k | k in t && t[k].fm.valid :: t[k].fm
  }

  // ---- what the operations do to the shape ----

  ghost function AddLeaf(t: Shape, k: Key, s: string): Shape
    requires k in t
  {
    t[k + [s] := Cell(M.ZERO_META, {})][k := Cell(t[k].fm, t[k].kids + {s})]
  }

  ghost function CutLeaf(t: Shape, k: Key, s: string): Shape
    requires k in t
  {
    t[k := Cell(t[k].fm, t[k].kids - {s})] - {k + [s]}
  }

  ghost function SetMeta(t: Shape, k: Key, fm: M.FieldMeta): Shape
    requires k in t
  {
    t[k := t[k].(fm := fm)]
  }

  lemma SnocFrontLast(k: Key, s: string)
    ensures Front(k + [s]) == k && Last(k + [s]) == s
  {
  }

  lemma FrontLastSnoc(k: Key)
    requires k != []
    ensures Front(k) + [Last(k)] == k
  {
  }

  lemma ChildIffNode(t: Shape, k: Key, s: string)
    requires TreeLike(t) && k in t
    ensures s in t[k].kids <==> k + [s] in t
  {
    SnocFrontLast(k, s);
  }

  lemma AddLeafTree(t: Shape, k: Key, s: string)
    requires TreeLike(t) && k in t && s !in t[k].kids
    ensures TreeLike(AddLeaf(t, k, s)) && k + [s] !in t
  {
    var t' := AddLeaf(t, k, s);
    SnocFrontLast(k, s);
    ChildIffNode(t, k, s);
    forall q, c | q in t' && c in t'[q].kids
      ensures q + [c] in t'
    {
      if q in t && c in t[q].kids { assert q + [c] in t; }
    }
  }

  lemma AddLeafKeeps(t: Shape, k: Key, s: string)
    requires WellShaped(t, k) && k in t && s !in t[k].kids && IsSegment(s)
    ensures WellShaped(AddLeaf(t, k, s), k + [s])
    ensures Entries(AddLeaf(t, k, s)) == Entries(t)
  {
    AddLeafTree(t, k, s);
  }

  lemma CutLeafTree(t: Shape, k: Key, s: string)
    requires TreeLike(t) && k in t && k + [s] in t && t[k + [s]].kids == {}
    ensures TreeLike(CutLeaf(t, k, s))
  {
    var t' := CutLeaf(t, k, s);
    SnocFrontLast(k, s);
    forall q | q in t' && q != []
      ensures Front(q) in t' && Last(q) in t'[Front(q)].kids
    {
      FrontLastSnoc(q);
    }
    forall q, c | q in t' && c in t'[q].kids
      ensures q + [c] in t'
    {
      SnocFrontLast(q, c);
    }
  }

  lemma CutLeafKeeps(t: Shape, k: Key, s: string)
    requires WellShaped(t, k + [s]) && k in t && k + [s] in t
    requires t[k + [s]].kids == {} && !t[k + [s]].fm.valid
    ensures WellShaped(CutLeaf(t, k, s), k)
    ensures Entries(CutLeaf(t, k, s)) == Entries(t)
  {
    CutLeafTree(t, k, s);
  }

  /** Writing an entry fills a hole. */
  lemma SetMetaKeeps(t: Shape, k: Key, fm: M.FieldMeta)
    requires WellShaped(t, k) && k in t && k != [] && fm.valid
    ensures WellShaped(SetMeta(t, k, fm), [])
    ensures Entries(SetMeta(t, k, fm)) == Entries(t)[k := fm]
  {
  }

  /** Clearing an entry may leave a hole. */
  lemma ClearMetaKeeps(t: Shape, k: Key)
    requires WellShaped(t, []) && k in t && k != []
    ensures WellShaped(SetMeta(t, k, M.ZERO_META), k)
    ensures Entries(SetMeta(t, k, M.ZERO_META)) == M.Delete(Entries(t), k)
  {
  }

  /** Dropping the observers of an event changes at most an entry: the zero FieldMeta has none. */
  lemma DropEventsKeeps(t: Shape, k: Key, e: M.Event)
    requires WellShaped(t, []) && k in t && k != []
    ensures var t' := SetMeta(t, k, t[k].fm.(events := t[k].fm.events.With(e, [])));
            WellShaped(t', []) && Entries(t') == M.DeleteEvent(Entries(t), k, e)
  {
    var fm := t[k].fm.(events := t[k].fm.events.With(e, []));
    if t[k].fm.valid {
      SetMetaKeeps(t, k, fm);
    } else {
      assert fm == t[k].fm;
      assert SetMeta(t, k, fm) == t;
    }
  }

  // ---- what pruning means ----

  lemma {:induction false} KeysAreBounded(keys: set<Key>) returns (bound: nat)
    ensures forall k | k in keys :: |k| <= bound
  {
    if keys == {} {
      bound := 0;
    } else {
      var k :| k in keys;
      var b := KeysAreBounded(keys - {k});
      bound := if b < |k| then |k| else b;
    }
  }

  /** In a pruned trie every node leads down to an entry. */
  lemma {:induction false} EntryBelow(t: Shape, k: Key, bound: nat) returns (q: Key)
    requires WellShaped(t, []) && k in t && k != []
    requires forall q | q in t :: |q| <= bound
    ensures q in Entries(t) && k <= q
    decreases bound - |k|
  {
    if t[k].fm.valid {
      q := k;
    } else {
      var s :| s in t[k].kids;
      assert k + [s] in t;
      q := EntryBelow(t, k + [s], bound);
    }
  }

  /** Prefixes of node keys are node keys. */
  lemma {:induction false} PrefixesAreNodes(t: Shape, q: Key, n: nat)
    requires TreeLike(t) && q in t && n <= |q|
    ensures q[..n] in t
  {
    if n < |q| {
      PrefixesAreNodes(t, Front(q), n);
      assert Front(q)[..n] == q[..n];
    } else {
      assert q[..n] == q;
    }
  }

  /** A non-empty key has a node exactly when it is a prefix of a registered key. */
  lemma NodeIffCovered(t: Shape, k: Key)
    requires WellShaped(t, []) && k != []
    ensures k in t <==> M.Covered(Entries(t), k)
  {
    if k in t {
      var bound := KeysAreBounded(t.Keys);
      var q := EntryBelow(t, k, bound);
    }
    forall q | q in Entries(t) && k <= q
      ensures k in t
    {
      PrefixesAreNodes(t, q, |k|);
      assert q[..|k|] == k;
    }
  }

  /** The "no children" test means that no registered key lies below. */
  lemma LeafIffNoneBelow(t: Shape, k: Key)
    requires WellShaped(t, []) && k in t
    ensures t[k].kids == {} <==> M.NoneBelow(Entries(t), k)
  {
    if t[k].kids != {} {
      var s :| s in t[k].kids;
      NodeIffCovered(t, k + [s]);
      var q :| q in Entries(t) && k + [s] <= q;
      assert k < q;
    }
    forall q | q in Entries(t) && k < q
      ensures t[k].kids != {}
    {
      PrefixesAreNodes(t, q, |k| + 1);
      assert Front(q[..|k| + 1]) == k;
    }
  }
}

/** The mutable route trie (config/route_trie.go). Every operation is proved against the map
    of module RouteMap. */
module RouteTrie {
  import opened Common
  import opened RouteKey
  import opened Path
  import opened TrieShape
  import Scope
  import M = RouteMap

  class TrieNode {
    var fm: M.FieldMeta
    var children: map<string, TrieNode>
    ghost const key: Key  // the segments that lead here

    constructor (ghost key: Key)
      ensures fm == M.ZERO_META && children == map[] && this.key == key
    {
      fm, children := M.ZERO_META, map[];
      this.key := key;
    }
  }

  /** Position n of the loop over the segments of a path: `part` is the segment that starts at
      `start`, `next` where the following one starts. */
  ghost predicate AtSegment(path: string, segs: Key, n: nat, start: nat, part: string, next: int) {
    && segs == Segments(path) && n < |segs| && start < |path|
    && segs[n..] == SegmentsFrom(path, start) && (part, next) == SegmentRoute(path, start)
  }

  lemma FirstSegment(path: string)
    requires Canonical(path)
    ensures var (part, next) := SegmentRoute(path, 0);
            AtSegment(path, Segments(path), 0, 0, part, next)
  {
  }

  lemma NextSegment(path: string, segs: Key, n: nat, start: nat, part: string, next: int)
    requires AtSegment(path, segs, n, start, part, next)
    ensures part == segs[n] && segs[..n] + [part] == segs[..n + 1]
    ensures next == -1 ==> segs[..n + 1] == segs
    ensures next != -1 ==> n + 1 < |segs| && 0 <= next < |path| &&
                           var (part', next') := SegmentRoute(path, next);
                           AtSegment(path, segs, n + 1, next, part', next')
  {
    SegmentStep(path, start, segs, n);
  }

  /** path lists, for each of the first n segments, the node above it and the segment. */
  ghost predicate OnPath(nodes: map<Key, TrieNode>, segs: Key, path: seq<(TrieNode, string)>, n: nat) {
    n <= |path| && n <= |segs| &&
    forall j | 0 <= j < n :: segs[..j] in nodes && path[j].0 == nodes[segs[..j]] && path[j].1 == segs[j]
  }

  lemma OnShorterPath(nodes: map<Key, TrieNode>, segs: Key, path: seq<(TrieNode, string)>, n: nat)
    requires n < |segs| && OnPath(nodes, segs, path, n + 1)
    ensures OnPath(nodes - {segs[..n + 1]}, segs, path, n)
  {
    assert forall j | 0 <= j < n :: |segs[..j]| < |segs[..n + 1]|;
  }

  lemma OnLongerPath(nodes: map<Key, TrieNode>, segs: Key, path: seq<(TrieNode, string)>, n: nat, node: TrieNode)
    requires |path| == n < |segs| && OnPath(nodes, segs, path, n)
    requires segs[..n] in nodes && node == nodes[segs[..n]]
    ensures OnPath(nodes, segs, path + [(node, segs[n])], n + 1)
  {
  }

  class Trie {
    const root: TrieNode
    // all nodes, by key
    ghost var nodes: map<Key, TrieNode>

    /** Each node is registered under its key and its children are the nodes one segment below. */
    ghost predicate Linked()
      reads this, nodes.Values
    {
      && [] in nodes && nodes[[]] == root
      && (forall k | k in nodes :: nodes[k].key == k)
      && (forall k, s {:trigger nodes[k].children[s]} | k in nodes && s in nodes[k].children ::
            k + [s] in nodes && nodes[k].children[s] == nodes[k + [s]])
    }

    ghost function Snapshot(): Shape
      reads this, nodes.Values
    {
      map k | k in nodes :: Cell(nodes[k].fm, nodes[k].children.Keys)
    }

    /** Well formed and pruned, except possibly for an empty leaf under `hole`. */
    ghost predicate ValidBut(hole: Key)
      reads this, nodes.Values
    {
      Linked() && WellShaped(Snapshot(), hole)
    }

    ghost predicate Valid()
      reads this, nodes.Values
    {
      ValidBut([])
    }

    /** The finite map the trie stands for. */
    ghost function Contents(): M.Meta
      reads this, nodes.Values
    {
      Entries(Snapshot())
    }

    constructor ()
      ensures Valid() && Contents() == map[]
      ensures fresh(root) && nodes.Values == {root}
    {
      root := new TrieNode([]);
      new;
      nodes := map[[] := root];
    }

    /** Stepping from the node of segs[..n] to its child, or finding that there is none. */
    lemma Down(segs: Key, n: nat)
      requires Linked() && TreeLike(Snapshot()) && n < |segs| && segs[..n] in nodes
      ensures segs[n] in nodes[segs[..n]].children ==>
                segs[..n + 1] in nodes && nodes[segs[..n]].children[segs[n]] == nodes[segs[..n + 1]]
      ensures segs[n] !in nodes[segs[..n]].children ==> segs[..n + 1] !in nodes && segs !in nodes
    {
      ChildIffNode(Snapshot(), segs[..n], segs[n]);
      assert segs[..n] + [segs[n]] == segs[..n + 1];
      if segs in nodes { PrefixesAreNodes(Snapshot(), segs, n + 1); }
    }

    /** The walk down shared by Get and DeleteEvent. */
    method Descend(key: string) returns (node: TrieNode, found: bool)
      requires Valid() && Canonical(key)
      ensures found == (Segments(key) in nodes)
      ensures found ==> node == nodes[Segments(key)]
    {
      ghost var segs := Segments(key);
      ghost var n: nat, start: nat := 0, 0;
      node := root;
      var (part, i) := SegmentRoute(key, 0);
      FirstSegment(key);
      while true
        invariant AtSegment(key, segs, n, start, part, i)
        invariant segs[..n] in nodes && node == nodes[segs[..n]]
        decreases |segs| - n
      {
        NextSegment(key, segs, n, start, part, i);
        Down(segs, n);
        if part !in node.children { return node, false; }
        node, n := node.children[part], n + 1;
        if i == -1 { return node, true; }
        start := i;
        var next := SegmentRoute(key, i);
        part, i := next.0, next.1;
      }
    }

    /** Get returns the entry under a key, the zero FieldMeta if there is none. */
    method Get(key: string) returns (fm: M.FieldMeta)
      requires Valid()
      ensures fm == M.Lookup(Contents(), Segments(BuildTrieKey(key, 0)))
    {
      var node, found := Descend(BuildTrieKey(key, 0));
      return if found then node.fm else M.ZERO_META;
    }

    /** A new, empty node that nothing leads to yet. */
    method NewNode(ghost k: Key) returns (node: TrieNode)
      requires Linked() && k !in nodes
      modifies this`nodes
      ensures Linked() && Snapshot() == old(Snapshot())[k := Cell(M.ZERO_META, {})]
      ensures fresh(node) && nodes == old(nodes)[k := node]
    {
      node := new TrieNode(k);
      nodes := nodes[k := node];
      assert node.children.Keys == {};
    }

    /** Replaces the children of a node by some of the nodes below it. */
    method SetChildren(ghost k: Key, node: TrieNode, children: map<string, TrieNode>)
      requires Linked() && k in nodes && node == nodes[k]
      requires forall s | s in children :: k + [s] in nodes && children[s] == nodes[k + [s]]
      modifies node`children
      ensures Linked() && Snapshot() == old(Snapshot())[k := Cell(node.fm, children.Keys)]
      ensures node.children == children
    {
      node.children := children;
      assert forall q | q in nodes && q != k :: nodes[q] != node;
    }

    /** Hangs a new, empty node below the node of k. */
    method Link(ghost k: Key, node: TrieNode, part: string) returns (child: TrieNode)
      requires Linked() && k in nodes && node == nodes[k] && k + [part] !in nodes
      modifies this`nodes, node`children
      ensures Linked() && Snapshot() == AddLeaf(old(Snapshot()), k, part)
      ensures fresh(child) && nodes == old(nodes)[k + [part] := child]
    {
      var kids := node.children;
      WiredTo(k);
      child := NewNode(k + [part]);
      SetChildren(k, node, kids[part := child]);
      assert kids[part := child].Keys == kids.Keys + {part};
    }

    lemma WiredTo(k: Key)
      requires Linked() && k in nodes
      ensures forall s | s in nodes[k].children :: k + [s] in nodes && nodes[k].children[s] == nodes[k + [s]]
    {
    }

    method AddEmpty(ghost k: Key, node: TrieNode, part: string) returns (child: TrieNode)
      requires ValidBut(k) && k in nodes && node == nodes[k] && k + [part] !in nodes
      requires IsSegment(part)
      modifies this`nodes, node`children
      ensures ValidBut(k + [part]) && Contents() == old(Contents())
      ensures fresh(child) && nodes == old(nodes)[k + [part] := child]
    {
      ChildIffNode(Snapshot(), k, part);
      AddLeafKeeps(Snapshot(), k, part);
      child := Link(k, node, part);
    }

    /** One step down, creating the child if it is missing. */
    method StepDown(ghost segs: Key, ghost n: nat, node: TrieNode, part: string) returns (child: TrieNode)
      requires n < |segs| && part == segs[n] && IsSegment(part)
      requires ValidBut(segs[..n]) && segs[..n] in nodes && node == nodes[segs[..n]]
      modifies this`nodes, node`children
      ensures ValidBut(segs[..n + 1]) && segs[..n + 1] in nodes && child == nodes[segs[..n + 1]]
      ensures Contents() == old(Contents())
      ensures fresh(nodes.Values - old(nodes.Values))
    {
      Down(segs, n);
      assert segs[..n] + [part] == segs[..n + 1];
      if part in node.children {
        HoleFilledByChild(segs, n);
        child := node.children[part];
      } else {
        child := AddEmpty(segs[..n], node, part);
      }
    }

    /** trieGetNode: the node of a key; missing nodes on the way are created. */
    method GetNode(key: string, scp: Scope.TypeID) returns (node: TrieNode)
      requires Valid()
      modifies this, nodes.Values
      ensures var segs := Segments(BuildTrieKey(key, scp));
              ValidBut(segs) && segs in nodes && node == nodes[segs]
      ensures Contents() == old(Contents())
      ensures fresh(nodes.Values - old(nodes.Values))
    {
      hide AtSegment, SegmentRoute, SegmentsFrom, Trie.ValidBut, Trie.Contents, WellFormed;
      RootIsNode();
      var path := BuildTrieKey(key, scp);
      ghost var segs := Segments(path);
      ghost var n: nat, start: nat := 0, 0;
      node := root;
      var (part, i) := SegmentRoute(path, 0);
      FirstSegment(path);
      SegmentsWellFormed(path, 0);
      while true
        invariant n < |segs| && AtSegment(path, segs, n, start, part, i)
        invariant ValidBut(segs[..n]) && segs[..n] in nodes && node == nodes[segs[..n]]
        invariant Contents() == old(Contents())
        invariant fresh(nodes.Values - old(nodes.Values))
        decreases |segs| - n
      {
        NextSegment(path, segs, n, start, part, i);
        node := StepDown(segs, n, node, part);
        n := n + 1;
        if i == -1 { return; }
        start := i;
        var next := SegmentRoute(path, i);
        part, i := next.0, next.1;
      }
    }

    lemma HoleFilledByChild(segs: Key, n: nat)
      requires n < |segs| && ValidBut(segs[..n]) && segs[..n] in nodes && segs[n] in nodes[segs[..n]].children
      ensures ValidBut(segs[..n + 1])
    {
    }

    /** Overwrites what a node holds. */
    method Store(ghost k: Key, node: TrieNode, fm: M.FieldMeta)
      requires Linked() && k in nodes && node == nodes[k]
      modifies node`fm
      ensures Linked() && Snapshot() == SetMeta(old(Snapshot()), k, fm)
    {
      node.fm := fm;
      assert forall q | q in nodes && q != k :: nodes[q] != node;
    }

    /** Appends an observer; true if the key was not registered before. A nil observer changes
        nothing and returns true. */
    method PutEvent(event: M.Event, key: string, eo: Option<M.Observer>) returns (isNew: bool)
      requires Valid()
      modifies this, nodes.Values
      ensures Valid() && fresh(nodes.Values - old(nodes.Values))
      ensures eo.None? ==> Contents() == old(Contents()) && isNew
      ensures eo.Some? ==>
                var k := Segments(BuildTrieKey(key, 0));
                Contents() == M.PutEvent(old(Contents()), k, event, eo.value) && isNew == (k !in old(Contents()))
    {
      if eo.None? { return true; }
      var node := GetNode(key, 0);
      isNew := !node.fm.valid;
      var fm := node.fm.(events := node.fm.events.With(event, node.fm.events.At(event) + [eo.value]), valid := true);
      SetMetaKeeps(Snapshot(), Segments(BuildTrieKey(key, 0)), fm);
      Store(Segments(BuildTrieKey(key, 0)), node, fm);
    }

    /** Replaces the entry, keeping the old observers in front. The argument is written back
        with the accumulated observers. */
    method PutMeta(key: string, fm: M.FieldMeta) returns (isNew: bool, arg: M.FieldMeta)
      requires Valid()
      modifies this, nodes.Values
      ensures Valid() && fresh(nodes.Values - old(nodes.Values))
      ensures var k := Segments(BuildTrieKey(key, fm.scopeID));
              Contents() == M.PutMeta(old(Contents()), k, fm) && isNew == (k !in old(Contents()))
      ensures arg.valid == fm.valid &&
              arg.(valid := true) == M.Lookup(Contents(), Segments(BuildTrieKey(key, fm.scopeID)))
    {
      var node := GetNode(key, fm.scopeID);
      isNew := !node.fm.valid;
      arg := fm.(events := node.fm.events.Append(fm.events));
      SetMetaKeeps(Snapshot(), Segments(BuildTrieKey(key, fm.scopeID)), arg.(valid := true));
      Store(Segments(BuildTrieKey(key, fm.scopeID)), node, arg.(valid := true));
    }

    /** Drops the observers of one event; true if a node exists for the key. */
    method DeleteEvent(event: M.Event, key: string) returns (existed: bool)
      requires Valid()
      modifies nodes.Values
      ensures Valid()
      ensures var k := Segments(BuildTrieKey(key, 0));
              Contents() == M.DeleteEvent(old(Contents()), k, event) && existed == M.Covered(old(Contents()), k)
    {
      ghost var segs := Segments(BuildTrieKey(key, 0));
      NodeIffCovered(Snapshot(), segs);
      var node, found := Descend(BuildTrieKey(key, 0));
      if !found {
        assert segs !in Contents();
        return false;
      }
      var fm := node.fm.(events := node.fm.events.With(event, []));
      DropEventsKeeps(Snapshot(), segs, event);
      Store(segs, node, fm);
      return true;
    }

    /** Forgets a leaf that nothing leads to any more. */
    ghost method Forget(k: Key, part: string)
      requires Linked() && k in nodes && part !in nodes[k].children
      modifies this`nodes
      ensures Linked() && Snapshot() == old(Snapshot()) - {k + [part]}
      ensures nodes == old(nodes) - {k + [part]}
    {
      nodes := nodes - {k + [part]};
      forall q, s | q in nodes && s in nodes[q].children
        ensures q + [s] in nodes && nodes[q].children[s] == nodes[q + [s]]
      {
        SnocFrontLast(q, s);
        SnocFrontLast(k, part);
      }
    }

    /** Removes a leaf from its parent. */
    method Unlink(ghost k: Key, parent: TrieNode, part: string)
      requires Linked() && k in nodes && parent == nodes[k]
      modifies this`nodes, parent`children
      ensures Linked() && Snapshot() == CutLeaf(old(Snapshot()), k, part)
      ensures nodes == old(nodes) - {k + [part]}
    {
      var kids := parent.children;
      WiredTo(k);
      SetChildren(k, parent, kids - {part});
      assert (kids - {part}).Keys == kids.Keys - {part};
      Forget(k, part);
    }

    method CutEmpty(ghost k: Key, parent: TrieNode, part: string)
      requires ValidBut(k + [part]) && k in nodes && parent == nodes[k]
      requires EmptyLeaf(k + [part])
      modifies this`nodes, parent`children
      ensures k in nodes && ValidBut(k) && Contents() == old(Contents())
      ensures nodes == old(nodes) - {k + [part]}
    {
      CutLeafKeeps(Snapshot(), k, part);
      Unlink(k, parent, part);
    }

    /** The walk down of Delete, which also records the ancestors. */
    method Record(key: string) returns (node: TrieNode, found: bool, path: seq<(TrieNode, string)>)
      requires Valid() && Canonical(key)
      ensures found == (Segments(key) in nodes)
      ensures found ==>
              node == nodes[Segments(key)] && |path| == |Segments(key)| && OnPath(nodes, Segments(key), path, |path|)
    {
      ghost var segs := Segments(key);
      ghost var n: nat, start: nat := 0, 0;
      node, path := root, [];
      var (part, i) := SegmentRoute(key, 0);
      FirstSegment(key);
      while true
        invariant AtSegment(key, segs, n, start, part, i)
        invariant segs[..n] in nodes && node == nodes[segs[..n]]
        invariant |path| == n && OnPath(nodes, segs, path, n)
        decreases |segs| - n
      {
        NextSegment(key, segs, n, start, part, i);
        Down(segs, n);
        OnLongerPath(nodes, segs, path, n, node);
        path := path + [(node, part)];
        if part !in node.children { return node, false, path; }
        node, n := node.children[part], n + 1;
        if i == -1 { return node, true, path; }
        start := i;
        var next := SegmentRoute(key, i);
        part, i := next.0, next.1;
      }
    }

    ghost predicate EmptyLeaf(k: Key)
      reads this, nodes.Values
    {
      k in nodes && nodes[k].children == map[] && !nodes[k].fm.valid
    }

    /** The backward loop of Delete. */
    method Prune(ghost segs: Key, path: seq<(TrieNode, string)>)
      requires ValidBut(segs) && EmptyLeaf(segs) && |path| == |segs| && OnPath(nodes, segs, path, |segs|)
      modifies this, nodes.Values
      ensures Valid() && Contents() == old(Contents()) && nodes.Values <= old(nodes.Values)
    {
      var i := |path| - 1;
      assert segs[..i + 1] == segs;
      while i >= 0
        invariant -1 <= i < |path|
        invariant ValidBut(segs[..i + 1]) && EmptyLeaf(segs[..i + 1]) && OnPath(nodes, segs, path, i + 1)
        invariant Contents() == old(Contents()) && nodes.Values <= old(nodes.Values)
      {
        var parent, part := path[i].0, path[i].1;
        assert segs[..i] + [part] == segs[..i + 1];
        OnShorterPath(nodes, segs, path, i);
        CutEmpty(segs[..i], parent, part);
        if parent.fm.valid || |parent.children| != 0 {
          HoleIsHarmless(segs[..i]);
          return;
        }
        i := i - 1;
      }
    }

    lemma HoleIsHarmless(k: Key)
      requires ValidBut(k) && k in nodes && (nodes[k].fm.valid || nodes[k].children != map[])
      ensures Valid()
    {
    }

    /** Removes the entry of a key and every ancestor that becomes an empty leaf; true if a node
        exists for the key. */
    method Delete(key: string) returns (existed: bool)
      requires Valid()
      modifies this, nodes.Values
      ensures Valid() && nodes.Values <= old(nodes.Values)
      ensures var k := Segments(BuildTrieKey(key, 0));
              Contents() == M.Delete(old(Contents()), k) && existed == M.Covered(old(Contents()), k)
    {
      hide WellShaped, M.Covered, SegmentsFrom, OnPath, Trie.Linked;
      var name := BuildTrieKey(key, 0);
      ghost var segs := Segments(name);
      NodeIffCovered(Snapshot(), segs);
      var node, found, path := Record(name);
      if !found {
        assert M.Delete(Contents(), segs) == Contents();
        return false;
      }
      ClearMetaKeeps(Snapshot(), segs);
      Store(segs, node, M.ZERO_META);
      if |node.children| == 0 {
        Prune(segs, path);
      } else {
        HoleIsHarmless(segs);
      }
      return true;
    }

    // ---- the event pipeline ----

    /** What a node holds, in terms of the finite map. */
    lemma HeldAt(k: Key)
      requires Valid() && k in nodes
      ensures nodes[k].fm == M.Lookup(Contents(), k) && (nodes[k].fm.valid <==> k in Contents())
      ensures |nodes[k].children| == 0 <==> M.NoneBelow(Contents(), k)
    {
      hide M.NoneBelow;
      LeafIffNoneBelow(Snapshot(), k);
      assert nodes[k].children.Keys == Snapshot()[k].kids;
      assert |nodes[k].children| == 0 <==> nodes[k].children.Keys == {};
    }

    /** What process does at one node. */
    method VisitNode(ghost k: Key, node: TrieNode, event: M.Event, p: PathValue, d: M.Data)
        returns (r: Result<M.Data>)
      requires Valid() && k != [] && k in nodes && node == nodes[k]
      ensures r == M.Visit(Contents(), k, event, p, d)
    {
      hide Trie.Valid, Trie.Contents, M.NoneBelow;
      HeldAt(k);
      if node.fm.valid && event == M.BeforeSet && node.fm.writeScopePerm != {} && p.scopeID > 0 &&
         Scope.TypeOf(p.scopeID) !in node.fm.writeScopePerm {
        return Err(NotAllowed);
      }
      var v := Dispatch(node.fm.events.At(event), p, d.v, d.found);
      if v.Err? { return Err(v.error); }
      if node.fm.valid && (|node.children| == 0 || p.scopeID == 0 || p.scopeID == Scope.DEFAULT_TYPE_ID) &&
         event == M.AfterGet && !d.found && v.value.None? && node.fm.defaultValid {
        return Ok(M.Data(Some(node.fm.default), true));
      }
      return Ok(M.Data(v.value, d.found));
    }

    lemma RootIsNode()
      requires Valid()
      ensures [] in nodes && nodes[[]] == root
    {
    }

    /** The child on the way to a key, or the end of what is registered. */
    lemma Descends(segs: Key, n: nat)
      requires Valid() && n < |segs| && segs[..n] in nodes
      ensures segs[n] in nodes[segs[..n]].children ==>
                segs[..n + 1] in nodes && nodes[segs[..n]].children[segs[n]] == nodes[segs[..n + 1]]
      ensures segs[n] !in nodes[segs[..n]].children ==> !M.Covered(Contents(), segs[..n + 1])
    {
      hide M.Covered;
      Down(segs, n);
      NodeIffCovered(Snapshot(), segs[..n + 1]);
    }

    /** One round of process: the child for a segment and what happens there, if it exists. */
    method EnterNode(ghost segs: Key, ghost n: nat, node: TrieNode, part: string, event: M.Event, p: PathValue,
        d: M.Data)
        returns (child: Option<TrieNode>, r: Result<M.Data>)
      requires Valid() && n < |segs| && segs[..n] in nodes && node == nodes[segs[..n]] && part == segs[n]
      ensures child.None? ==> r == Ok(d) == M.ProcessFrom(Contents(), segs, n + 1, event, p, d)
      ensures child.Some? ==> segs[..n + 1] in nodes && child.value == nodes[segs[..n + 1]] &&
                              r == M.Visit(Contents(), segs[..n + 1], event, p, d)
    {
      hide Trie.Valid, Trie.Contents, M.Visit, M.Covered, M.ProcessFrom;
      Descends(segs, n);
      if part !in node.children {
        M.ProcessUncovered(Contents(), segs, n + 1, event, p, d);
        return None, Ok(d);
      }
      child := Some(node.children[part]);
      r := VisitNode(segs[..n + 1], child.value, event, p, d);
    }

    /** Runs an event along every prefix of the key and stops where the tree ends; nothing is
        missed by stopping. */
    method Process(key: string, event: M.Event, p: PathValue, d: M.Data) returns (r: Result<M.Data>)
      requires Valid() && Canonical(key)
      ensures r == M.Process(Contents(), key, event, p, d)
    {
      hide Trie.Valid, Trie.Contents, AtSegment, SegmentRoute, SegmentsFrom, Segments, Canonical, M.Visit, M.Covered,
        M.ProcessFrom;
      RootIsNode();
      ghost var segs, m := Segments(key), Contents();
      ghost var n: nat, start: nat := 0, 0;
      var node, data := root, d;
      var (part, i) := SegmentRoute(key, 0);
      FirstSegment(key);
      while true
        invariant n < |segs| && AtSegment(key, segs, n, start, part, i)
        invariant segs[..n] in nodes && node == nodes[segs[..n]]
        invariant M.ProcessFrom(m, segs, 1, event, p, d) == M.ProcessFrom(m, segs, n + 1, event, p, data)
        decreases |segs| - n
      {
        NextSegment(key, segs, n, start, part, i);
        M.ProcessStep(m, segs, n + 1, event, p, data);
        var child, step := EnterNode(segs, n, node, part, event, p, data);
        if child.None? || step.Err? { return step; }
        node, data, n := child.value, step.value, n + 1;
        if i == -1 { return Ok(data); }
        start := i;
        var next := SegmentRoute(key, i);
        part, i := next.0, next.1;
      }
    }

    // ---- walking ----

    /** Calls the walker for every entry at or below a node, children in any order, and stops
        at the first error. The log lists the calls made. */
    method WalkNode(ghost m: M.Meta, ghost k: Key, ghost bound: nat, node: TrieNode, key: string, walker: Walker)
        returns (err: Option<Error>, log: seq<(string, M.FieldMeta)>, ghost visited: seq<Key>)
      requires Valid() && k in nodes && node == nodes[k] && key == Concat(k)
      requires m == Contents() && forall q | q in nodes :: |q| <= bound
      ensures Logged(m, log, visited) && Below(visited, k)
      ensures Stopped(walker, log, err)
      ensures err.None? ==> forall q | q in m && k <= q :: q in visited
      decreases bound - |k|, 1
    {
      log, visited, err := [], [], None;
      if node.fm.valid {
        log, visited := [(key, node.fm)], [k];
        err := walker(key, node.fm);
        OneEntry(m, k, log, visited);
        if err.Some? { return; }
      }
      err, log, visited := WalkChildren(m, k, bound, node, key, walker, log, visited);
      if err.None? { AllBelow(k, visited); }
    }

    /** The loop of walk over the children of a node. */
    method WalkChildren(ghost m: M.Meta, ghost k: Key, ghost bound: nat, node: TrieNode, key: string, walker: Walker,
                        log0: seq<(string, M.FieldMeta)>, ghost visited0: seq<Key>)
        returns (err: Option<Error>, log: seq<(string, M.FieldMeta)>, ghost visited: seq<Key>)
      requires Valid() && k in nodes && node == nodes[k] && key == Concat(k)
      requires m == Contents() && forall q | q in nodes :: |q| <= bound
      requires Stopped(walker, log0, None) && Partial(m, k, {}, log0, visited0) && Complete(m, k, {}, visited0)
      ensures Logged(m, log, visited) && Below(visited, k)
      ensures Stopped(walker, log, err)
      ensures err.None? ==> Complete(m, k, node.children.Keys, visited)
      decreases bound - |k|, 0
    {
      hide WellShaped, Complete, Stopped;
      err, log, visited := None, log0, visited0;
      var todo := node.children.Keys;
      ghost var done := {};
      while todo != {}
        invariant todo == node.children.Keys - done && done <= node.children.Keys
        invariant err == None && Stopped(walker, log, None)
        invariant Partial(m, k, done, log, visited) && Complete(m, k, done, visited)
      {
        var part :| part in todo;
        Named1(k, part);
        assert |k + [part]| <= bound;
        var e, l, v := WalkNode(m, k + [part], bound, node.children[part], key + part, walker);
        AppendLog(m, k, done, part, log, visited, l, v);
        StoppedAfter(walker, log, l, e);
        log := log + l;
        if e.Some? { return e, log, visited + v; }
        CompleteWith(m, k, done, part, visited, v);
        visited := visited + v;
        todo, done := todo - {part}, done + {part};
      }
      assert done == node.children.Keys;
    }

    lemma Named1(k: Key, part: string)
      requires Linked() && k in nodes && part in nodes[k].children
      ensures k + [part] in nodes && nodes[k].children[part] == nodes[k + [part]]
      ensures Concat(k + [part]) == Concat(k) + part
    {
      ConcatOfSum(k, [part]);
      ConcatCons(part, []);
      assert [part] + [] == [part] && part + "" == part;
    }

    lemma AllBelow(k: Key, visited: seq<Key>)
      requires Valid() && k in nodes && Complete(Contents(), k, nodes[k].children.Keys, visited)
      ensures forall q | q in Contents() && k <= q :: q in visited
    {
      forall q | q in Contents() && k <= q
        ensures q in visited
      {
        if q != k {
          PrefixesAreNodes(Snapshot(), q, |k| + 1);
          assert k < q && q[..|k|] == k;
          Down(q, |k|);
        }
      }
    }

    /** Walk reports every registered key with its metadata exactly once, unless the walker
        fails; then it stops with that error, having reported no key twice. */
    method Walk(walker: Walker)
        returns (err: Option<Error>, log: seq<(string, M.FieldMeta)>, ghost visited: seq<Key>)
      requires Valid()
      ensures Logged(Contents(), log, visited)
      ensures forall i, j | 0 <= i < j < |log| :: log[i].0 != log[j].0
      ensures Stopped(walker, log, err)
      ensures err.None? ==> forall k | k in Contents() :: (Concat(k), Contents()[k]) in log
    {
      ghost var bound := KeysAreBounded(nodes.Keys);
      err, log, visited := WalkNode(Contents(), [], bound, root, "", walker);
      LogIsInjective(Snapshot(), log, visited);
      forall k | err.None? && k in Contents()
        ensures (Concat(k), Contents()[k]) in log
      {
        assert [] <= k;
        var i :| 0 <= i < |visited| && visited[i] == k;
        assert log[i] == (Concat(k), Contents()[k]);
      }
    }
  }

  type Walker = (string, M.FieldMeta) -> Option<Error>

  /** The log reports the visited entries, each key once. */
  ghost predicate Logged(m: M.Meta, log: seq<(string, M.FieldMeta)>, visited: seq<Key>) {
    && |log| == |visited|
    && (forall i | 0 <= i < |log| :: visited[i] in m && log[i] == (Concat(visited[i]), m[visited[i]]))
    && (forall i, j | 0 <= i < j < |visited| :: visited[i] != visited[j])
  }

  ghost predicate Below(visited: seq<Key>, k: Key) {
    forall q | q in visited :: k <= q
  }

  /** The walker accepted every call but, if the walk ended with an error, the last. */
  ghost predicate Stopped(walker: Walker, log: seq<(string, M.FieldMeta)>, err: Option<Error>) {
    && (err.Some? ==> |log| > 0)
    && forall i | 0 <= i < |log| :: walker(log[i].0, log[i].1) == if i == |log| - 1 then err else None
  }

  /** A walk below k that has visited nothing outside k itself and the subtrees `done`. */
  ghost predicate Partial(m: M.Meta, k: Key, done: set<string>, log: seq<(string, M.FieldMeta)>, visited: seq<Key>) {
    Logged(m, log, visited) && Below(visited, k) && forall q | q in visited :: q == k || q[|k|] in done
  }

  /** It has visited all entries there. */
  ghost predicate Complete(m: M.Meta, k: Key, done: set<string>, visited: seq<Key>) {
    (k in m ==> k in visited) && forall q | q in m && k < q && q[|k|] in done :: q in visited
  }

  lemma OneEntry(m: M.Meta, k: Key, log: seq<(string, M.FieldMeta)>, visited: seq<Key>)
    requires k in m && log == [(Concat(k), m[k])] && visited == [k]
    ensures Partial(m, k, {}, log, visited)
  {
  }

  lemma AppendLog(m: M.Meta, k: Key, done: set<string>, part: string, log: seq<(string, M.FieldMeta)>,
      visited: seq<Key>,
                  l: seq<(string, M.FieldMeta)>, v: seq<Key>)
    requires Partial(m, k, done, log, visited) && part !in done
    requires Logged(m, l, v) && Below(v, k + [part])
    ensures Partial(m, k, done + {part}, log + l, visited + v)
  {
    forall q | q in v
      ensures k <= q && q != k && q[|k|] == part
    {
      assert k + [part] <= q;
      assert q[|k|] == (k + [part])[|k|];
    }
    forall i, j | 0 <= i < |visited| && 0 <= j < |v|
      ensures visited[i] != v[j]
    {
      assert visited[i] in visited && v[j] in v;
    }
  }

  lemma CompleteWith(m: M.Meta, k: Key, done: set<string>, part: string, visited: seq<Key>, v: seq<Key>)
    requires Complete(m, k, done, visited) && forall q | q in m && k + [part] <= q :: q in v
    ensures Complete(m, k, done + {part}, visited + v)
  {
    forall q | q in m && k < q && q[|k|] == part
      ensures q in v
    {
      assert k + [part] <= q;
    }
  }

  lemma StoppedAfter(walker: Walker, log: seq<(string, M.FieldMeta)>, l: seq<(string, M.FieldMeta)>, err: Option<Error>)
    requires Stopped(walker, log, None) && Stopped(walker, l, err)
    ensures Stopped(walker, log + l, err)
  {
  }

  lemma LogIsInjective(t: Shape, log: seq<(string, M.FieldMeta)>, visited: seq<Key>)
    requires TreeLike(t) && Named(t) && Clean(t) && Logged(Entries(t), log, visited)
    ensures forall i, j | 0 <= i < j < |log| :: log[i].0 != log[j].0
  {
    forall i, j | 0 <= i < j < |log|
      ensures log[i].0 != log[j].0
    {
      var a, b := visited[i], visited[j];
      assert a in t && b in t && a != [] && b != [];
      SegmentsOfConcat(Concat(a), 0, a);
      SegmentsOfConcat(Concat(b), 0, b);
    }
  }

  /** observers.dispatch */
  method Dispatch(fns: seq<M.Observer>, p: PathValue, v: Bytes, found: bool) returns (r: Result<Bytes>)
    ensures r == M.Dispatch(fns, p, v, found)
  {
    var data := v;
    for idx := 0 to |fns|
      invariant M.Dispatch(fns, p, v, found) == M.Dispatch(fns[idx..], p, data, found)
    {
      var step := fns[idx](p, data, found);
      assert fns[idx..][1..] == fns[idx + 1..];
      if step.Err? { return step; }
      data := step.value;
    }
    return Ok(data);
  }

  /** Any run of operations on an empty trie: afterwards the trie stands for the map the run
      builds, it is pruned, and every operation returned what the map says. */
  method Replay(ops: seq<M.Op>) returns (trie: Trie, results: seq<bool>)
    ensures fresh(trie) && trie.Valid()
    ensures trie.Contents() == M.Run(map[], ops)
    ensures results == M.RunResults(map[], ops)
  {
    hide Trie.Valid, Trie.Contents, M.Run, M.RunResults, M.Apply;
    trie := new Trie();
    results := [];
    assert ops[0..] == ops;
    for i := 0 to |ops|
      invariant fresh(trie) && trie.Valid() && fresh(trie.nodes.Values)
      invariant M.Run(map[], ops) == M.Run(trie.Contents(), ops[i..])
      invariant M.RunResults(map[], ops) == results + M.RunResults(trie.Contents(), ops[i..])
    {
      ghost var m := trie.Contents();
      M.RunStep(m, ops, i);
      var r := ApplyTo(trie, ops[i]);
      assert results + ([r] + M.RunResults(trie.Contents(), ops[i + 1..])) ==
             results + [r] + M.RunResults(trie.Contents(), ops[i + 1..]);
      results := results + [r];
    }
    M.RunEnds(trie.Contents());
    assert ops[|ops|..] == [] && results + [] == results;
  }

  method ApplyTo(trie: Trie, op: M.Op) returns (r: bool)
    requires trie.Valid()
    modifies trie, trie.nodes.Values
    ensures trie.Valid() && fresh(trie.nodes.Values - old(trie.nodes.Values))
    ensures (trie.Contents(), r) == M.Apply(old(trie.Contents()), op)
  {
    match op {
      case PutEventOp(e, key, eo) => r := trie.PutEvent(e, key, eo);
      case PutMetaOp(key, fm) => var arg; r, arg := trie.PutMeta(key, fm);
      case DeleteEventOp(e, key) => r := trie.DeleteEvent(e, key);
      case DeleteOp(key) => r := trie.Delete(key);
    }
  }
}

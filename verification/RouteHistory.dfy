/** What a run of operations leaves under a key of the route trie (config/route_trie.go), read off
    the operations themselves: which observers in which order, which metadata, and whether there
    is an entry at all. */
module RouteHistory {
  import opened Common
  import opened RouteKey
  import opened RouteMap
  import Scope

  lemma {:induction false} RunNext(m: Meta, ops: seq<Op>, op: Op)
    ensures Run(m, ops + [op]) == Apply(Run(m, ops), op).0
    decreases |ops|
  {
    hide Apply;
    if ops == [] {
      assert [op][1..] == [];
    } else {
      assert (ops + [op])[1..] == ops[1..] + [op];
      RunNext(Apply(m, ops[0]).0, ops[1..], op);
    }
  }

  lemma {:induction false} TargetsOf(ops: seq<Op>, k: Key)
    ensures forall op | op in OpsAt(ops, k) :: Target(op) == k
  {
    hide Target;
    if ops == [] {
    } else {
      TargetsOf(ops[1..], k);
    }
  }

  // ---- observers ----

  /** The operation drops the observers of the event. */
  predicate Drops(op: Op, e: Event) { op.DeleteOp? || (op.DeleteEventOp? && op.event == e) }

  /** The observers an operation brings for the event. */
  function Brings(op: Op, e: Event): seq<Observer> {
    match op
    case PutEventOp(e', _, Some(eo)) => if e' == e then [eo] else []
    case PutMetaOp(_, fm) =>
      (match e
       case BeforeSet => fm.events.beforeSet
       case AfterSet => fm.events.afterSet
       case BeforeGet => fm.events.beforeGet
       case AfterGet => fm.events.afterGet)
    case _ => []
  }

  function AllBrought(ops: seq<Op>, e: Event): seq<Observer> {
    if ops == [] then [] else AllBrought(ops[..|ops| - 1], e) + Brings(ops[|ops| - 1], e)
  }

  ghost predicate HasList(m: Meta, k: Key, e: Event, fns: seq<Observer>) {
    if k !in m then fns == []
    else match e
      case BeforeSet => m[k].events.beforeSet == fns
      case AfterSet => m[k].events.afterSet == fns
      case BeforeGet => m[k].events.beforeGet == fns
      case AfterGet => m[k].events.afterGet == fns
  }

  lemma DropsList(m: Meta, op: Op, e: Event)
    requires Drops(op, e)
    ensures HasList(Apply(m, op).0, Target(op), e, [])
  {
  }

  lemma BringsTo(m: Meta, op: Op, e: Event, fns: seq<Observer>)
    requires !Drops(op, e) && HasList(m, Target(op), e, fns)
    ensures HasList(Apply(m, op).0, Target(op), e, fns + Brings(op, e))
  {
    hide Target;
    assert fns + [] == fns;
  }

  /** The operations on one key: `kept` are those since the observers were last dropped. */
  lemma {:induction false} ListAfter(before: seq<Op>, kept: seq<Op>, k: Key, e: Event)
    requires forall op | op in before + kept :: Target(op) == k
    requires before == [] || Drops(before[|before| - 1], e)
    requires forall op | op in kept :: !Drops(op, e)
    ensures HasList(Run(map[], before + kept), k, e, AllBrought(kept, e))
    decreases |kept|
  {
    hide Target, Apply, HasList;
    if kept == [] {
      assert before + kept == before;
      if before == [] {
        NoList(k, e);
      } else {
        var front, last := before[..|before| - 1], before[|before| - 1];
        assert before == front + [last] && last in before + kept;
        RunNext(map[], front, last);
        DropsList(Run(map[], front), last, e);
      }
    } else {
      var front, last := kept[..|kept| - 1], kept[|kept| - 1];
      assert before + kept == before + front + [last] && last in before + kept;
      ListAfter(before, front, k, e);
      RunNext(map[], before + front, last);
      BringsTo(Run(map[], before + front), last, e, AllBrought(front, e));
    }
  }

  lemma NoList(k: Key, e: Event)
    ensures HasList(Run(map[], []), k, e, [])
  {
  }

  lemma SameList(a: Meta, b: Meta, k: Key, e: Event, fns: seq<Observer>)
    requires SameAt(a, b, k) && HasList(b, k, e, fns)
    ensures HasList(a, k, e, fns)
  {
  }

  /** After any run, the observers of an event under a key are all that the operations on the key
      brought since one of them last dropped that event's observers, in the order they came:
      registered observers are appended, never replaced, and no operation on another key or event
      interferes. */
  lemma ObserversAfter(ops: seq<Op>, k: Key, e: Event, before: seq<Op>, kept: seq<Op>)
    requires OpsAt(ops, k) == before + kept
    requires before == [] || Drops(before[|before| - 1], e)
    requires forall op | op in kept :: !Drops(op, e)
    ensures var m := Run(map[], ops);
            if k !in m then AllBrought(kept, e) == []
            else match e
              case BeforeSet => m[k].events.beforeSet == AllBrought(kept, e)
              case AfterSet => m[k].events.afterSet == AllBrought(kept, e)
              case BeforeGet => m[k].events.beforeGet == AllBrought(kept, e)
              case AfterGet => m[k].events.afterGet == AllBrought(kept, e)
  {
    hide Target, Apply, Run, SameAt;
    TargetsOf(ops, k);
    ListAfter(before, kept, k, e);
    assert SameAt(map[], map[], k) by { SameEmpty(k); }
    RunIsLocal(map[], map[], ops, k);
    SameList(Run(map[], ops), Run(map[], before + kept), k, e, AllBrought(kept, e));
  }

  lemma SameEmpty(k: Key)
    ensures SameAt(map[], map[], k)
  {
  }

  // ---- entries and metadata ----

  /** The operation makes an entry. */
  predicate Registers(op: Op) { op.PutMetaOp? || (op.PutEventOp? && op.observer.Some?) }

  /** What the entry is, observers aside: the metadata that came last, else all zero. */
  ghost predicate HasEntry(m: Meta, k: Key, entry: Option<FieldMeta>) {
    match entry
    case None => k !in m
    case Some(fm) =>
      k in m && m[k].valid && m[k].route == fm.route && m[k].writeScopePerm == fm.writeScopePerm &&
      m[k].scopeID == fm.scopeID && m[k].default == fm.default && m[k].defaultValid == fm.defaultValid
  }

  const NO_META := FieldMeta(Events([], [], [], []), "", {}, 0, "", false, false)

  function EntryNext(entry: Option<FieldMeta>, op: Op): Option<FieldMeta> {
    if op.DeleteOp? then None
    else if op.PutMetaOp? then Some(op.fm)
    else if Registers(op) && entry.None? then Some(NO_META)
    else entry
  }

  lemma EntryOn(m: Meta, op: Op, entry: Option<FieldMeta>)
    requires HasEntry(m, Target(op), entry)
    ensures HasEntry(Apply(m, op).0, Target(op), EntryNext(entry, op))
  {
    hide Target;
  }

  function EntryOf(ops: seq<Op>): Option<FieldMeta> {
    if ops == [] then None else EntryNext(EntryOf(ops[..|ops| - 1]), ops[|ops| - 1])
  }

  lemma {:induction false} EntryAt(ops: seq<Op>, k: Key)
    requires forall op | op in ops :: Target(op) == k
    ensures HasEntry(Run(map[], ops), k, EntryOf(ops))
  {
    hide Target, Apply;
    if ops == [] {
    } else {
      var front, last := ops[..|ops| - 1], ops[|ops| - 1];
      assert ops == front + [last] && last in ops;
      EntryAt(front, k);
      RunNext(map[], front, last);
      EntryOn(Run(map[], front), last, EntryOf(front));
    }
  }

  lemma EntryStep(before: seq<Op>, kept: seq<Op>)
    requires kept != []
    ensures EntryOf(before + kept) == EntryNext(EntryOf(before + kept[..|kept| - 1]), kept[|kept| - 1])
  {
    assert (before + kept)[..|before + kept| - 1] == before + kept[..|kept| - 1];
  }

  lemma EntryNone(before: seq<Op>)
    requires before == [] || before[|before| - 1].DeleteOp?
    ensures EntryOf(before + []) == None
  {
    assert before + [] == before;
  }

  /** Whether there is an entry, by the operations since the last Delete. */
  lemma {:induction false} EntryExists(before: seq<Op>, kept: seq<Op>)
    requires before == [] || before[|before| - 1].DeleteOp?
    requires forall op | op in kept :: !op.DeleteOp?
    ensures EntryOf(before + kept).Some? <==> exists op | op in kept :: Registers(op)
    decreases |kept|
  {
    hide EntryOf;
    if kept == [] {
      EntryNone(before);
    } else {
      var front, last := kept[..|kept| - 1], kept[|kept| - 1];
      assert kept == front + [last] && last in kept;
      EntryStep(before, kept);
      EntryExists(before, front);
      if op :| op in front && Registers(op) { assert op in kept; }
    }
  }

  /** And what it is. */
  lemma {:induction false} EntryMeta(before: seq<Op>, kept: seq<Op>, i: nat)
    requires i < |kept| && kept[i].PutMetaOp? && forall j | i < j < |kept| :: !kept[j].PutMetaOp? && !kept[j].DeleteOp?
    ensures EntryOf(before + kept) == Some(kept[i].fm)
    decreases |kept|
  {
    hide EntryOf;
    EntryStep(before, kept);
    if i == |kept| - 1 {
    } else {
      EntryMeta(before, kept[..|kept| - 1], i);
    }
  }

  lemma {:induction false} EntryZero(before: seq<Op>, kept: seq<Op>)
    requires before == [] || before[|before| - 1].DeleteOp?
    requires forall op | op in kept :: !op.DeleteOp? && !op.PutMetaOp?
    ensures EntryOf(before + kept) in {None, Some(NO_META)}
    decreases |kept|
  {
    hide EntryOf;
    if kept == [] {
      EntryNone(before);
    } else {
      EntryStep(before, kept);
      assert kept[|kept| - 1] in kept;
      EntryZero(before, kept[..|kept| - 1]);
    }
  }

  lemma SameEntry(a: Meta, b: Meta, k: Key, entry: Option<FieldMeta>)
    requires SameAt(a, b, k) && HasEntry(b, k, entry)
    ensures HasEntry(a, k, entry)
  {
  }

  lemma EntryAfterRun(ops: seq<Op>, k: Key)
    ensures HasEntry(Run(map[], ops), k, EntryOf(OpsAt(ops, k)))
  {
    hide Target, Apply, Run, SameAt, HasEntry, EntryOf;
    TargetsOf(ops, k);
    EntryAt(OpsAt(ops, k), k);
    assert SameAt(map[], map[], k) by { SameEmpty(k); }
    RunIsLocal(map[], map[], ops, k);
    SameEntry(Run(map[], ops), Run(map[], OpsAt(ops, k)), k, EntryOf(OpsAt(ops, k)));
  }

  /** After any run there is an entry under a key exactly if some operation registered something
      there since the last Delete; and its metadata are those put last since then, observers and
      the valid flag aside, or all zero if none were put. */
  lemma EntryAfter(ops: seq<Op>, k: Key, before: seq<Op>, kept: seq<Op>)
    requires OpsAt(ops, k) == before + kept
    requires before == [] || before[|before| - 1].DeleteOp?
    requires forall op | op in kept :: !op.DeleteOp?
    ensures var m := Run(map[], ops);
            && (k in m <==> exists op | op in kept :: Registers(op))
            && (k in m ==> m[k].valid)
            && (forall i | 0 <= i < |kept| && kept[i].PutMetaOp? &&
                           (forall j | i < j < |kept| :: !kept[j].PutMetaOp?) ::
                  k in m && m[k] == kept[i].fm.(events := m[k].events, valid := true))
            && (k in m && (forall op | op in kept :: !op.PutMetaOp?) ==>
                  m[k] == NO_META.(events := m[k].events, valid := true))
  {
    hide Target, Apply, Run, EntryOf;
    EntryAfterRun(ops, k);
    EntryExists(before, kept);
    forall i | 0 <= i < |kept| && kept[i].PutMetaOp? && (forall j | i < j < |kept| :: !kept[j].PutMetaOp?)
      ensures EntryOf(before + kept) == Some(kept[i].fm)
    {
      assert forall j | i < j < |kept| :: kept[j] in kept;
      EntryMeta(before, kept, i);
    }
    if forall op | op in kept :: !op.PutMetaOp? { EntryZero(before, kept); }
  }

  /** What an operation tells: a Put whether the entry is new, a Delete or DeleteEvent whether the
      key is, or leads to, an entry. */
  ghost predicate Tells(m: Meta, op: Op) {
    if op.PutMetaOp? then Target(op) !in m
    else if op.PutEventOp? then op.observer.None? || Target(op) !in m
    else exists q | q in m :: Target(op) <= q
  }

  lemma AppliedTells(m: Meta, op: Op)
    ensures Apply(m, op).1 == Tells(m, op)
  {
    hide Target;
  }

  lemma {:induction false} ResultsMean(m: Meta, ops: seq<Op>, i: nat)
    requires i < |ops|
    ensures |RunResults(m, ops)| == |ops| && RunResults(m, ops)[i] == Tells(Run(m, ops[..i]), ops[i])
    decreases |ops|
  {
    hide Target, Apply, Tells;
    var m' := Apply(m, ops[0]).0;
    if i == 0 {
      assert ops[..0] == [];
      AppliedTells(m, ops[0]);
      if ops[1..] != [] { ResultsMean(m', ops[1..], 0); }
    } else {
      ResultsMean(m', ops[1..], i - 1);
      assert ops[..i][1..] == ops[1..][..i - 1] && ops[..i][0] == ops[0] && ops[1..][i - 1] == ops[i];
    }
  }

  /** The key of an operation: the slash segments of its route, and the scope behind them for
      metadata of a website or store. */
  lemma TargetMeans(op: Op)
    requires op.key != "" && op.key[0] != '/' && (op.PutMetaOp? ==> Scope.ValidTypeID(op.fm.scopeID))
    ensures Target(op) == Segments("/" + op.key) + if op.PutMetaOp? then ScopeSegments(op.fm.scopeID) else []
  {
    hide Segments;
    if op.PutMetaOp? { ScopedKeySegments(op.key, op.fm.scopeID); }
  }
}

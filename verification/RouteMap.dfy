/** The route configuration as a finite map from keys to field metadata: what every operation
    of the trie means (config/route_trie.go), stated without the tree. */
module RouteMap {
  import opened Common
  import opened RouteKey
  import opened Path
  import Scope

  datatype Event = BeforeSet | AfterSet | BeforeGet | AfterGet

  const EVENT_MAX_COUNT := 4

  /** The event with a number, in the order of the source's constants. */
  function EventOf(n: nat): Event
    requires n < EVENT_MAX_COUNT
  {
    if n == 0 then BeforeSet else if n == 1 then AfterSet else if n == 2 then BeforeGet else AfterGet
  }

  // An observer may change the raw data or fail.
  type Observer = (PathValue, Bytes, bool) -> Result<Bytes>

  /** The four observer lists of a route. */
  datatype Events = Events(
    beforeSet: seq<Observer>,
    afterSet: seq<Observer>,
    beforeGet: seq<Observer>,
    afterGet: seq<Observer>)
  {
    function At(e: Event): seq<Observer> {
      match e
      case BeforeSet => beforeSet
      case AfterSet => afterSet
      case BeforeGet => beforeGet
      case AfterGet => afterGet
    }

    function With(e: Event, fns: seq<Observer>): Events {
      match e
      case BeforeSet => this.(beforeSet := fns)
      case AfterSet => this.(afterSet := fns)
      case BeforeGet => this.(beforeGet := fns)
      case AfterGet => this.(afterGet := fns)
    }

    function Append(other: Events): Events {
      Events(beforeSet + other.beforeSet, afterSet + other.afterSet,
             beforeGet + other.beforeGet, afterGet + other.afterGet)
    }
  }

  datatype FieldMeta = FieldMeta(
    events: Events,
    route: string,
    writeScopePerm: Scope.Perm,
    scopeID: Scope.TypeID,
    default: string,
    defaultValid: bool,
    valid: bool)

  const ZERO_META := FieldMeta(Events([], [], [], []), "", {}, 0, "", false, false)

  type Meta = map<Key, FieldMeta>

  /** Get: map lookup with the zero FieldMeta as default. */
  ghost function Lookup(m: Meta, k: Key): FieldMeta {
    if k in m then m[k] else ZERO_META
  }

  /** Some registered key is k or lies below k. */
  ghost predicate Covered(m: Meta, k: Key) {
    exists q | q in m :: k <= q
  }

  /** No registered key lies properly below k. */
  ghost predicate NoneBelow(m: Meta, k: Key) {
    forall q | q in m :: !(k < q)
  }

  // ---- updates ----

  ghost function PutEvent(m: Meta, k: Key, e: Event, eo: Observer): Meta {
    var fm := Lookup(m, k);
    m[k := fm.(events := fm.events.With(e, fm.events.At(e) + [eo]), valid := true)]
  }

  /** Everything is replaced, except that the new observers go behind the old ones. */
  ghost function PutMeta(m: Meta, k: Key, fm: FieldMeta): Meta {
    m[k := fm.(events := Lookup(m, k).events.Append(fm.events), valid := true)]
  }

  ghost function DeleteEvent(m: Meta, k: Key, e: Event): Meta {
    if k in m then m[k := m[k].(events := m[k].events.With(e, []))] else m
  }

  ghost function Delete(m: Meta, k: Key): Meta { m - {k} }

  datatype Op =
    | PutEventOp(event: Event, key: string, observer: Option<Observer>)
    | PutMetaOp(key: string, fm: FieldMeta)
    | DeleteEventOp(event: Event, key: string)
    | DeleteOp(key: string)

  /** The key an operation addresses; only PutMeta takes a scope into account. */
  function Target(op: Op): Key {
    Segments(BuildTrieKey(op.key, if op.PutMetaOp? then op.fm.scopeID else 0))
  }

  /** The map after an operation and the boolean it returns. */
  ghost function Apply(m: Meta, op: Op): (Meta, bool) {
    var k := Target(op);
    match op
    case PutEventOp(e, _, None) => (m, true)
    case PutEventOp(e, _, Some(eo)) => (PutEvent(m, k, e, eo), k !in m)
    case PutMetaOp(_, fm) => (PutMeta(m, k, fm), k !in m)
    case DeleteEventOp(e, _) => (DeleteEvent(m, k, e), Covered(m, k))
    case DeleteOp(_) => (Delete(m, k), Covered(m, k))
  }

  ghost function Run(m: Meta, ops: seq<Op>): Meta
    decreases |ops|
  {
    if ops == [] then m else Run(Apply(m, ops[0]).0, ops[1..])
  }

  /** The boolean results of a run, one per operation. */
  ghost function RunResults(m: Meta, ops: seq<Op>): seq<bool>
    decreases |ops|
  {
    if ops == [] then [] else
    var (m', r) := Apply(m, ops[0]);
    [r] + RunResults(m', ops[1..])
  }

  lemma RunStep(m: Meta, ops: seq<Op>, i: nat)
    requires i < |ops|
    ensures var (m', r) := Apply(m, ops[i]);
            Run(m, ops[i..]) == Run(m', ops[i + 1..]) && RunResults(m, ops[i..]) == [r] + RunResults(m', ops[i + 1..])
  {
    hide Apply;
    assert ops[i..][0] == ops[i] && ops[i..][1..] == ops[i + 1..];
  }

  lemma RunEnds(m: Meta)
    ensures Run(m, []) == m && RunResults(m, []) == []
  {
  }

  /** The operations of a run that address key k. */
  ghost function OpsAt(ops: seq<Op>, k: Key): seq<Op> {
    if ops == [] then []
    else (if Target(ops[0]) == k then [ops[0]] else []) + OpsAt(ops[1..], k)
  }

  ghost predicate SameAt(a: Meta, b: Meta, k: Key) {
    (k in a <==> k in b) && (k in a ==> a[k] == b[k])
  }

  lemma ApplyIsLocal(a: Meta, b: Meta, op: Op, k: Key)
    requires SameAt(a, b, k)
    ensures Target(op) == k ==> SameAt(Apply(a, op).0, Apply(b, op).0, k)
    ensures Target(op) != k ==> SameAt(Apply(a, op).0, b, k)
  {
  }

  /** Keys do not influence each other: what a run leaves under k is what the operations that
      address k leave there, whatever the rest of the run and of the start map is. */
  lemma {:induction false} RunIsLocal(a: Meta, b: Meta, ops: seq<Op>, k: Key)
    requires SameAt(a, b, k)
    ensures SameAt(Run(a, ops), Run(b, OpsAt(ops, k)), k)
    decreases |ops|
  {
    if ops == [] {
    } else {
      ApplyIsLocal(a, b, ops[0], k);
      var a' := Apply(a, ops[0]).0;
      var rest := OpsAt(ops[1..], k);
      if Target(ops[0]) == k {
        assert ([ops[0]] + rest)[1..] == rest;
        RunIsLocal(a', Apply(b, ops[0]).0, ops[1..], k);
      } else {
        assert [] + rest == rest;
        RunIsLocal(a', b, ops[1..], k);
      }
    }
  }

  /** Registration order between different keys is irrelevant: runs that perform the same
      operations in the same order on every single key build the same map. */
  lemma RunOrderIrrelevant(ops: seq<Op>, ops': seq<Op>)
    requires forall k: Key :: OpsAt(ops, k) == OpsAt(ops', k)
    ensures Run(map[], ops) == Run(map[], ops')
  {
    var a, b := Run(map[], ops), Run(map[], ops');
    forall k: Key
      ensures SameAt(a, b, k)
    {
      assert OpsAt(ops, k) == OpsAt(ops', k);
      RunIsLocal(map[], map[], ops, k);
      RunIsLocal(map[], map[], ops', k);
    }
    assert forall k :: k in a <==> k in b by {
      forall k: Key ensures k in a <==> k in b { assert SameAt(a, b, k); }
    }
    assert forall k | k in a :: a[k] == b[k] by {
      forall k | k in a ensures a[k] == b[k] { assert SameAt(a, b, k); }
    }
  }

  // ---- the event pipeline ----

  datatype Data = Data(v: Bytes, found: bool)

  /** observers.dispatch: each observer gets the previous one's data. */
  function Dispatch(fns: seq<Observer>, p: PathValue, v: Bytes, found: bool): Result<Bytes> {
    if fns == [] then Ok(v) else
    match fns[0](p, v, found)
    case Err(e) => Err(e)
    case Ok(v') => Dispatch(fns[1..], p, v', found)
  }

  predicate Forbids(fm: FieldMeta, e: Event, p: PathValue) {
    e == BeforeSet && fm.writeScopePerm != {} && p.scopeID > 0 &&
    Scope.TypeOf(p.scopeID) !in fm.writeScopePerm
  }

  /** What the entry of one prefix does to the data: permission check, observers in
      registration order, default value. */
  ghost function Visit(m: Meta, k: Key, e: Event, p: PathValue, d: Data): Result<Data> {
    if k !in m then Ok(d)
    else if Forbids(m[k], e, p) then Err(NotAllowed)
    else
      match Dispatch(m[k].events.At(e), p, d.v, d.found)
      case Err(err) => Err(err)
      case Ok(v) =>
        if e == AfterGet && !d.found && v == None && m[k].defaultValid &&
           (NoneBelow(m, k) || p.scopeID == 0 || p.scopeID == Scope.DEFAULT_TYPE_ID)
        then Ok(Data(Some(m[k].default), true))
        else Ok(Data(v, d.found))
  }

  /** The fold over the prefixes of `segs` that are at least n segments long, shortest first. */
  ghost function ProcessFrom(m: Meta, segs: Key, n: nat, e: Event, p: PathValue, d: Data): Result<Data>
    decreases |segs| - n
  {
    if n > |segs| then Ok(d) else
    match Visit(m, segs[..n], e, p, d)
    case Err(err) => Err(err)
    case Ok(d') => ProcessFrom(m, segs, n + 1, e, p, d')
  }

  ghost function Process(m: Meta, key: string, e: Event, p: PathValue, d: Data): Result<Data> {
    ProcessFrom(m, Segments(key), 1, e, p, d)
  }

  lemma ProcessStep(m: Meta, segs: Key, n: nat, e: Event, p: PathValue, d: Data)
    requires n <= |segs|
    ensures ProcessFrom(m, segs, n, e, p, d) ==
              match Visit(m, segs[..n], e, p, d)
              case Err(err) => Err(err)
              case Ok(d') => ProcessFrom(m, segs, n + 1, e, p, d')
    ensures n == |segs| ==> forall d' :: ProcessFrom(m, segs, n + 1, e, p, d') == Ok(d')
  {
  }

  /** From a prefix on that no registered key reaches, nothing happens any more. */
  lemma {:induction false} ProcessUncovered(m: Meta, segs: Key, n: nat, e: Event, p: PathValue, d: Data)
    requires n <= |segs| && !Covered(m, segs[..n])
    ensures ProcessFrom(m, segs, n, e, p, d) == Ok(d)
    decreases |segs| - n
  {
    assert segs[..n] <= segs[..n];
    if n >= |segs| {
    } else {
      forall q | q in m ensures !(segs[..n + 1] <= q) { assert !(segs[..n] <= q); }
      ProcessUncovered(m, segs, n + 1, e, p, d);
    }
  }
}

/** What Service.Set, Service.Get and Scoped.Get (config/service.go) do, as functions on the
    state of the service. */
module ServiceSpec {
  import opened Common
  import opened Path
  import opened RouteMap
  import Scope

  // A Storager is a map keyed by scope and suffixed route.
  type StoreKey = (Scope.TypeID, string)
  type Store = map<StoreKey, Bytes>

  datatype PubSub = Disabled | Open | Closed

  datatype State = State(
    level1: Option<Store>,  // the optional cache
    level2: Store,
    meta: Meta,
    envName: string,
    pubSub: PubSub,
    sent: seq<PathValue>)   // messages handed to the publisher

  /** Storage failures of one call; None means the storage works. */
  datatype Faults = Faults(l1Get: Option<Error>, l1Set: Option<Error>, l2Get: Option<Error>, l2Set: Option<Error>)

  const NO_FAULTS := Faults(None, None, None, None)

  datatype Found = NotFound | InLevel2 | InLevel1 | InDefaults

  datatype Value = Value(data: Bytes, lastErr: Option<Error>, found: Found)

  /** The path after the service has stamped its environment on it. */
  function Stamped(env: string, p: PathValue): PathValue {
    if p.useEnvSuffix && p.envSuffix != env then p.(envSuffix := env) else p
  }

  ghost function SetStored(s: State, q: PathValue, v: Bytes): State {
    s.(level2 := s.level2[ScopeRoute(q) := v],
       sent := if s.pubSub == Open then s.sent + [q] else s.sent)
  }

  /** Service.Set: the state afterwards and the error. */
  ghost function Set(rt: Runes, s: State, p: PathValue, v: Bytes, f: Faults): (State, Option<Error>) {
    var q := Stamped(s.envName, p);
    if IsValid(rt, q).Some? then (s, IsValid(rt, q))
    else
      match Process(s.meta, TrieKey(q), BeforeSet, q, Data(v, true))
      case Err(e) => (s, Some(e))
      case Ok(d) =>
        var after := Process(s.meta, TrieKey(q), AfterSet, q, Data(d.v, f.l2Set.None?));
        if f.l2Set.Some? then (s, f.l2Set)
        else (SetStored(s, q, d.v), if after.Err? then Some(after.error) else None)
  }

  /** Reading Level1, then Level2; a value found in Level2 is cached in Level1. */
  function Fetch(s: State, q: PathValue, f: Faults): (State, Value) {
    var k := ScopeRoute(q);
    if s.level1.Some? && f.l1Get.Some? then (s, Value(None, f.l1Get, NotFound))
    else if s.level1.Some? && k in s.level1.value then (s, Value(s.level1.value[k], None, InLevel1))
    else if f.l2Get.Some? then (s, Value(None, f.l2Get, NotFound))
    else if k !in s.level2 then (s, Value(None, None, NotFound))
    else if s.level1.None? then (s, Value(s.level2[k], None, InLevel2))
    else if f.l1Set.Some? then (s, Value(s.level2[k], f.l1Set, InLevel2))
    else (s.(level1 := Some(s.level1.value[k := s.level2[k]])), Value(s.level2[k], None, InLevel2))
  }

  /** What the after-get pipeline makes of a fetched value. */
  function Finish(raw: Value, after: Result<Data>): Value {
    match after
    case Err(e) => Value(None, if raw.lastErr.None? then Some(e) else raw.lastErr, raw.found)
    case Ok(d) => Value(d.v, raw.lastErr, if d.found && raw.found == NotFound then InDefaults else raw.found)
  }

  /** Service.Get: the state afterwards and the value. */
  ghost function Get(s: State, p: PathValue, f: Faults): (State, Value) {
    var q := Stamped(s.envName, p);
    match Process(s.meta, TrieKey(q), BeforeGet, q, Data(None, false))
    case Err(e) => (s, Value(None, Some(e), NotFound))
    case Ok(_) =>
      var (s', raw) := Fetch(s, q, f);
      (s', Finish(raw, Process(s.meta, TrieKey(q), AfterGet, q, Data(raw.data, raw.found != NotFound))))
  }

  // ---- the scoped reader ----

  type Int64 = i: int | -0x8000_0000_0000_0000 <= i < 0x8000_0000_0000_0000

  datatype Scoped = Scoped(websiteID: Int64, storeID: Int64)
  {
    function ScopeID(): Scope.TypeID {
      if storeID > 0 then Scope.MakeTypeID(Scope.STORE, storeID)
      else if websiteID > 0 then Scope.MakeTypeID(Scope.WEBSITE, websiteID)
      else Scope.DEFAULT_TYPE_ID
    }

    function Restriction(restrictUpTo: Scope.Type): Scope.Type {
      if restrictUpTo > Scope.ABSENT then restrictUpTo else Scope.TypeOf(ScopeID())
    }

    predicate AllowsStore(restrictUpTo: Scope.Type) {
      storeID > 0 && Restriction(restrictUpTo) in Scope.PERM_STORE_REVERSE
    }

    predicate AllowsWebsite(restrictUpTo: Scope.Type) {
      websiteID > 0 && Restriction(restrictUpTo) in Scope.PERM_WEBSITE_REVERSE
    }

    /** The scopes that are asked, in order. */
    function Scopes(restrictUpTo: Scope.Type): (r: seq<Scope.TypeID>)
      ensures |r| > 0
    {
      (if AllowsStore(restrictUpTo) then [Scope.MakeTypeID(Scope.STORE, storeID)] else []) +
      (if AllowsWebsite(restrictUpTo) then [Scope.MakeTypeID(Scope.WEBSITE, websiteID)] else []) +
      [Scope.DEFAULT_TYPE_ID]
    }
  }

  function PlainPath(route: string, scope: Scope.TypeID): PathValue {
    PathValue(route, scope, false, false, "")
  }

  predicate Hit(v: Value) { v.found != NotFound || v.lastErr.Some? }

  /** The first found-or-error result of Get along the scopes; the last scope's result if there
      is none. */
  ghost function FirstHit(s: State, route: string, scopes: seq<Scope.TypeID>, fs: Scope.TypeID -> Faults)
      : (State, Value)
    requires |scopes| > 0
  {
    var (s', v) := Get(s, PlainPath(route, scopes[0]), fs(scopes[0]));
    if Hit(v) || |scopes| == 1 then (s', v) else FirstHit(s', route, scopes[1..], fs)
  }
}

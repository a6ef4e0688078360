/** Laws of the configuration service over single calls, whole runs and the scope hierarchy. */
module ServiceProps {
  import opened Common
  import opened RouteKey
  import opened Path
  import opened RouteMap
  import opened ServiceSpec
  import opened Pipeline
  import Scope

  ghost function PathSegs(q: PathValue): Key { Segments(TrieKey(q)) }

  /** All observers a path meets for an event, in the order they run. */
  ghost function ObserversOf(m: Meta, q: PathValue, e: Event): seq<Observer> {
    Chain(m, PathSegs(q), 1, e)
  }

  lemma NeverForbidden(m: Meta, segs: Key, n: nat, e: Event, p: PathValue)
    requires e != BeforeSet
    ensures !Forbidden(m, segs, n, e, p)
  {
  }

  // ---- Set ----

  /** The value Set stores, or why it stores nothing. */
  ghost function Accepted(rt: Runes, s: State, q: PathValue, v: Bytes): Result<Bytes> {
    if IsValid(rt, q).Some? then Err(IsValid(rt, q).value)
    else if Forbidden(s.meta, PathSegs(q), 1, BeforeSet, q) then Err(NotAllowed)
    else Dispatch(ObserversOf(s.meta, q, BeforeSet), q, v, true)
  }

  /** Set is all or nothing on storage. If the path is invalid, a prefix forbids its scope, a
      before-set observer fails or the Level2 write fails, the whole state stays as it was and
      that error is returned. Otherwise Level2 changes at this path only, to the value the
      observers folded, and one message is sent exactly if pub/sub is open; Level1 is never
      touched, and the only error can be that of an after-set observer. */
  lemma SetAllOrNothing(rt: Runes, s: State, p: PathValue, v: Bytes, f: Faults)
    ensures var q := Stamped(s.envName, p);
            var (s', err) := Set(rt, s, p, v, f);
            if Accepted(rt, s, q, v).Ok? && f.l2Set.None? then
              && s'.level2 == s.level2[ScopeRoute(q) := Accepted(rt, s, q, v).value]
              && s'.sent == (if s.pubSub == Open then s.sent + [q] else s.sent)
              && s' == s.(level2 := s'.level2, sent := s'.sent)
              && err == ErrorOf(Dispatch(ObserversOf(s.meta, q, AfterSet), q, Accepted(rt, s, q, v).value, true))
            else
              && s' == s && err.Some?
              && (IsValid(rt, q).Some? ==> err == IsValid(rt, q))
              && (Accepted(rt, s, q, v).Ok? ==> err == f.l2Set)
              && (!Forbidden(s.meta, PathSegs(q), 1, BeforeSet, q) && Accepted(rt, s, q, v).Err? ==>
                    err == Some(Accepted(rt, s, q, v).error))
  {
    var q := Stamped(s.envName, p);
    PipelineIsDispatch(s.meta, PathSegs(q), 1, BeforeSet, q, Data(v, true));
    if Accepted(rt, s, q, v).Ok? {
      NeverForbidden(s.meta, PathSegs(q), 1, AfterSet, q);
      PipelineIsDispatch(s.meta, PathSegs(q), 1, AfterSet, q, Data(Accepted(rt, s, q, v).value, f.l2Set.None?));
    }
  }

  function ErrorOf(r: Result<Bytes>): Option<Error> { if r.Err? then Some(r.error) else None }

  // ---- Get ----

  /** The raw value the storage levels hold for a path, Level1 first. */
  function Held(s: State, k: StoreKey): Option<Bytes> {
    if s.level1.Some? && k in s.level1.value then Some(s.level1.value[k])
    else if k in s.level2 then Some(s.level2[k])
    else None
  }

  /** Get without storage failures, wherever no default value can step in: the before-get
      observers may refuse, otherwise the held value passes through the after-get observers and
      is in Level1, as it was held, if that cache is enabled. */
  lemma GetIsHeld(s: State, p: PathValue, f: Faults)
    requires f.l1Get.None? && f.l2Get.None? && f.l1Set.None?
    requires var q := Stamped(s.envName, p);
             Held(s, ScopeRoute(q)).Some? || NoDefaults(s.meta, PathSegs(q), 1)
    ensures var q := Stamped(s.envName, p);
            var held := Held(s, ScopeRoute(q));
            var raw := if held.Some? then held.value else None;
            var before := Dispatch(ObserversOf(s.meta, q, BeforeGet), q, None, false);
            var after := Dispatch(ObserversOf(s.meta, q, AfterGet), q, raw, held.Some?);
            var (s', v) := Get(s, p, f);
            if before.Err?
            then s' == s && v == Value(None, Some(before.error), NotFound)
            else && (v.found == NotFound <==> held.None?)
                 && v.lastErr == ErrorOf(after)
                 && v.data == (if after.Ok? then after.value else None)
                 && (held.None? ==> s' == s)
                 && (held.Some? ==>
                   v.found == if s.level1.Some? && ScopeRoute(q) in s.level1.value then InLevel1 else InLevel2)
                 && (held.Some? && s.level1.Some? ==>
                   s' == s.(level1 := Some(s.level1.value[ScopeRoute(q) := held.value])))
  {
    var q := Stamped(s.envName, p);
    NeverForbidden(s.meta, PathSegs(q), 1, BeforeGet, q);
    NeverForbidden(s.meta, PathSegs(q), 1, AfterGet, q);
    PipelineIsDispatch(s.meta, PathSegs(q), 1, BeforeGet, q, Data(None, false));
    var raw, k := Fetch(s, q, f).1, ScopeRoute(q);
    if s.level1.Some? && k in s.level1.value { assert s.level1.value[k := s.level1.value[k]] == s.level1.value; }
    PipelineIsDispatch(s.meta, PathSegs(q), 1, AfterGet, q, Data(raw.data, raw.found != NotFound));
  }

  // ---- Scoped.Get ----

  /** No default value and no failing observer is met when the path is read. */
  ghost predicate Quiet(s: State, q: PathValue) {
    var held := Held(s, ScopeRoute(q));
    && NoDefaults(s.meta, PathSegs(q), 1)
    && Dispatch(ObserversOf(s.meta, q, BeforeGet), q, None, false).Ok?
    && Dispatch(ObserversOf(s.meta, q, AfterGet), q, if held.Some? then held.value else None, held.Some?).Ok?
  }

  /** The first scope that holds a value for the route. */
  ghost function FirstHeld(s: State, route: string, scopes: seq<Scope.TypeID>): Option<Scope.TypeID> {
    if scopes == [] then None
    else if Held(s, ScopeRoute(PlainPath(route, scopes[0]))).Some? then Some(scopes[0])
    else FirstHeld(s, route, scopes[1..])
  }

  /** Without defaults and failures, reading along the scopes delivers the value of the most
      specific scope that holds one, and nothing if none does. */
  lemma {:induction false} FirstHitIsMostSpecific(s: State, route: string, scopes: seq<Scope.TypeID>,
      fs: Scope.TypeID -> Faults)
    requires |scopes| > 0
    requires forall t | t in scopes :: fs(t) == NO_FAULTS && Quiet(s, PlainPath(route, t))
    ensures var v := FirstHit(s, route, scopes, fs).1;
            v.lastErr == None &&
            match FirstHeld(s, route, scopes)
            case None => v.found == NotFound
            case Some(t) =>
              var q := PlainPath(route, t);
              v.found != NotFound && t in scopes && Held(s, ScopeRoute(q)).Some? &&
              Ok(v.data) == Dispatch(ObserversOf(s.meta, q, AfterGet), q, Held(s, ScopeRoute(q)).value, true)
    decreases |scopes|
  {
    var q := PlainPath(route, scopes[0]);
    assert fs(scopes[0]) == NO_FAULTS && Quiet(s, q);
    assert Stamped(s.envName, q) == q;
    GetIsHeld(s, q, NO_FAULTS);
    if Held(s, ScopeRoute(q)).Some? {
    } else if |scopes| == 1 {
      assert FirstHeld(s, route, scopes[1..]) == None;
    } else {
      FirstHitIsMostSpecific(s, route, scopes[1..], fs);
    }
  }

  /** The scopes an unrestricted reader asks, by the hierarchy; a restriction to the website
      scope skips the store, one to the default scope skips both. */
  lemma ScopeOrder(ss: ServiceSpec.Scoped)
    requires 0 <= ss.storeID <= Scope.MAX_ID && 0 <= ss.websiteID <= Scope.MAX_ID
    ensures var store := if ss.storeID > 0 then [Scope.MakeTypeID(Scope.STORE, ss.storeID)] else [];
            var website := if ss.websiteID > 0 then [Scope.MakeTypeID(Scope.WEBSITE, ss.websiteID)] else [];
            && ss.Scopes(Scope.ABSENT) == store + website + [Scope.DEFAULT_TYPE_ID]
            && ss.Scopes(Scope.STORE) == store + website + [Scope.DEFAULT_TYPE_ID]
            && ss.Scopes(Scope.WEBSITE) == website + [Scope.DEFAULT_TYPE_ID]
            && ss.Scopes(Scope.DEFAULT) == [Scope.DEFAULT_TYPE_ID]
  {
    if ss.storeID > 0 { assert Scope.TypeOf(Scope.MakeTypeID(Scope.STORE, ss.storeID)) == Scope.STORE; }
    if ss.websiteID > 0 { assert Scope.TypeOf(Scope.MakeTypeID(Scope.WEBSITE, ss.websiteID)) == Scope.WEBSITE; }
  }

  // ---- runs and the Level1 cache ----

  datatype Call =
    | SetCall(p: PathValue, v: Bytes, f: Faults)
    | GetCall(p: PathValue, f: Faults)

  ghost function Step(rt: Runes, s: State, c: Call): State {
    match c
    case SetCall(p, v, f) => Set(rt, s, p, v, f).0
    case GetCall(p, f) => Get(s, p, f).0
  }

  ghost function Run(rt: Runes, s: State, calls: seq<Call>): State
    decreases |calls|
  {
    if calls == [] then s else Run(rt, Step(rt, s, calls[0]), calls[1..])
  }

  /** The storage key a call addresses. */
  function CallKey(s: State, c: Call): StoreKey { ScopeRoute(Stamped(s.envName, c.p)) }

  /** s' is s with at most the Level2 entry of k changed. */
  ghost predicate WritesOnly(s: State, s': State, k: StoreKey) {
    && s' == s.(level2 := s'.level2, sent := s'.sent)
    && (s'.level2 == s.level2 || (k in s'.level2 && s'.level2 == s.level2[k := s'.level2[k]]))
  }

  /** s' is s with at most the Level2 value of k newly copied into Level1. */
  ghost predicate CachesOnly(s: State, s': State, k: StoreKey) {
    || s' == s
    || (&& s.level1.Some? && k !in s.level1.value && k in s.level2
        && s' == s.(level1 := Some(s.level1.value[k := s.level2[k]])))
  }

  lemma SetEffect(rt: Runes, s: State, p: PathValue, v: Bytes, f: Faults)
    ensures WritesOnly(s, Set(rt, s, p, v, f).0, ScopeRoute(Stamped(s.envName, p)))
  {
  }

  lemma GetEffect(s: State, p: PathValue, f: Faults)
    ensures CachesOnly(s, Get(s, p, f).0, ScopeRoute(Stamped(s.envName, p)))
  {
  }

  lemma StepEffect(rt: Runes, s: State, c: Call)
    ensures if c.SetCall? then WritesOnly(s, Step(rt, s, c), CallKey(s, c))
            else CachesOnly(s, Step(rt, s, c), CallKey(s, c))
  {
    match c {
      case SetCall(p, v, f) => SetEffect(rt, s, p, v, f);
      case GetCall(p, f) => GetEffect(s, p, f);
    }
  }

  /** Over any run a Level1 entry never changes once it is present. */
  lemma {:induction false} Level1OnlyGrows(rt: Runes, s: State, calls: seq<Call>)
    ensures var s' := Run(rt, s, calls);
            (s'.level1.Some? <==> s.level1.Some?) &&
            (s.level1.Some? ==>
              forall k | k in s.level1.value :: k in s'.level1.value && s'.level1.value[k] == s.level1.value[k])
    decreases |calls|
  {
    if calls == [] {
    } else {
      StepEffect(rt, s, calls[0]);
      Level1OnlyGrows(rt, Step(rt, s, calls[0]), calls[1..]);
    }
  }

  /** Over any run, every Level1 entry that was not there before is a value that Level2 held
      for the same path at some earlier moment of the run. */
  lemma {:induction false} Level1ComesFromLevel2(rt: Runes, s: State, calls: seq<Call>, k: StoreKey)
    requires s.level1.Some? && k !in s.level1.value
    requires Run(rt, s, calls).level1.Some? && k in Run(rt, s, calls).level1.value
    ensures exists i | 0 <= i < |calls| ::
              var past := Run(rt, s, calls[..i]);
              k in past.level2 && past.level2[k] == Run(rt, s, calls).level1.value[k]
    decreases |calls|
  {
    var s' := Step(rt, s, calls[0]);
    StepEffect(rt, s, calls[0]);
    if k in s'.level1.value {
      Level1OnlyGrows(rt, s', calls[1..]);
      assert calls[..0] == [];
      assert Run(rt, s, calls[..0]) == s;
    } else {
      Level1ComesFromLevel2(rt, s', calls[1..], k);
      var i :| 0 <= i < |calls[1..]| && (var past := Run(rt, s', calls[1..][..i]);
                                       k in past.level2 && past.level2[k] == Run(rt, s', calls[1..]).level1.value[k]);
      assert calls[..i + 1][0] == calls[0] && calls[..i + 1][1..] == calls[1..][..i];
      assert Run(rt, s, calls[..i + 1]) == Run(rt, s', calls[1..][..i]);
    }
  }

  ghost predicate NoSetOn(s: State, calls: seq<Call>, k: StoreKey) {
    forall i | 0 <= i < |calls| :: calls[i].SetCall? ==> CallKey(s, calls[i]) != k
  }

  lemma {:induction false} HeldIsStable(rt: Runes, s: State, calls: seq<Call>, k: StoreKey)
    requires NoSetOn(s, calls, k)
    ensures var s' := Run(rt, s, calls);
            Held(s', k) == Held(s, k) && s'.meta == s.meta && s'.envName == s.envName
    decreases |calls|
  {
    if calls == [] {
    } else {
      StepEffect(rt, s, calls[0]);
      var s' := Step(rt, s, calls[0]);
      assert Held(s', k) == Held(s, k);
      forall i | 0 <= i < |calls[1..]| && calls[1..][i].SetCall?
        ensures CallKey(s', calls[1..][i]) != k
      {
        assert calls[1..][i] == calls[i + 1];
      }
      HeldIsStable(rt, s', calls[1..], k);
    }
  }

  /** The data Get delivers depends on the configuration and the held value alone. */
  lemma GetDependsOnHeld(a: State, b: State, p: PathValue, f: Faults, g: Faults)
    requires f.l1Get.None? && f.l2Get.None? && g.l1Get.None? && g.l2Get.None?
    requires a.meta == b.meta && a.envName == b.envName
    requires var k := ScopeRoute(Stamped(a.envName, p)); Held(a, k) == Held(b, k)
    ensures Get(a, p, f).1.data == Get(b, p, g).1.data
    ensures Get(a, p, f).1.found == NotFound <==> Get(b, p, g).1.found == NotFound
  {
  }

  /** Two Gets of a path without a Set on it in between deliver the same data, although the
      first may have been answered by Level2 and the second by Level1: what is cached is the
      raw value, before the after-get observers. */
  lemma GetIsRepeatable(rt: Runes, s: State, p: PathValue, f: Faults, calls: seq<Call>, g: Faults)
    requires f.l1Get.None? && f.l2Get.None? && g.l1Get.None? && g.l2Get.None?
    requires NoSetOn(s, calls, ScopeRoute(Stamped(s.envName, p)))
    ensures var (s1, v1) := Get(s, p, f);
            var v2 := Get(Run(rt, s1, calls), p, g).1;
            v2.data == v1.data && (v2.found == NotFound <==> v1.found == NotFound)
  {
    var k := ScopeRoute(Stamped(s.envName, p));
    var s1 := Get(s, p, f).0;
    StepEffect(rt, s, GetCall(p, f));
    assert s1 == Step(rt, s, GetCall(p, f));
    HeldIsStable(rt, s1, calls, k);
    assert Held(s1, k) == Held(s, k);
    GetDependsOnHeld(s, Run(rt, s1, calls), p, f, g);
  }

  /** What the after-get observers make of a stored value; nothing if they fail. */
  ghost function Seen(s: State, q: PathValue, v: Bytes): Bytes {
    match Dispatch(ObserversOf(s.meta, q, AfterGet), q, v, true)
    case Ok(w) => w
    case Err(_) => None
  }

  /** Set does not flush the cache. After a successful Set, Get delivers what the after-get
      observers make of the new value exactly if Level1 is absent, has not cached the path, or
      has cached a value that looks the same through these observers. */
  lemma SetIsVisibleIff(rt: Runes, s: State, p: PathValue, v: Bytes, f: Faults, g: Faults)
    requires var q := Stamped(s.envName, p);
             && Accepted(rt, s, q, v).Ok? && f.l2Set.None?
             && Dispatch(ObserversOf(s.meta, q, BeforeGet), q, None, false).Ok?
    requires g.l1Get.None? && g.l2Get.None? && g.l1Set.None?
    ensures var q := Stamped(s.envName, p);
            var stored := Accepted(rt, s, q, v).value;
            var k := ScopeRoute(q);
            Get(Set(rt, s, p, v, f).0, p, g).1.data == Seen(s, q, stored) <==>
              (s.level1.Some? && k in s.level1.value ==> Seen(s, q, s.level1.value[k]) == Seen(s, q, stored))
  {
    hide Set, Get, ScopeRoute, Accepted, ObserversOf;
    SetAllOrNothing(rt, s, p, v, f);
    GetIsHeld(Set(rt, s, p, v, f).0, p, g);
  }

  /** The storage levels themselves hold the new value exactly if no other one is cached. */
  lemma SetIsHeldIff(rt: Runes, s: State, p: PathValue, v: Bytes, f: Faults)
    requires var q := Stamped(s.envName, p); Accepted(rt, s, q, v).Ok? && f.l2Set.None?
    ensures var q := Stamped(s.envName, p);
            var k := ScopeRoute(q);
            Held(Set(rt, s, p, v, f).0, k) == Some(Accepted(rt, s, q, v).value) <==>
              (s.level1.Some? && k in s.level1.value ==> s.level1.value[k] == Accepted(rt, s, q, v).value)
  {
    SetAllOrNothing(rt, s, p, v, f);
  }

  /** Without observers, values look the same exactly if they are. */
  lemma SeenUnobserved(s: State, q: PathValue, v: Bytes)
    requires ObserversOf(s.meta, q, AfterGet) == []
    ensures Seen(s, q, v) == v
  {
  }

  const NEW_SERVICE := State(Some(map[]), map[], map[], "", Disabled, [])

  lemma {:induction false} NothingRegistered(segs: Key, n: nat, e: Event, p: PathValue)
    ensures Chain(map[], segs, n, e) == [] && !Forbidden(map[], segs, n, e, p)
    decreases |segs| - n
  {
    if n > |segs| {
    } else {
      NothingRegistered(segs, n + 1, e, p);
    }
  }

  /** Set and Get on a service without metadata. */
  lemma PlainCalls(rt: Runes, s: State, p: PathValue, v: Bytes)
    requires s.meta == map[] && Valid(rt, p) && !p.useEnvSuffix
    ensures s.pubSub == Disabled ==> Set(rt, s, p, v, NO_FAULTS).0 == s.(level2 := s.level2[ScopeRoute(p) := v])
    ensures var held := Held(s, ScopeRoute(p));
            var (s', w) := Get(s, p, NO_FAULTS);
            held.Some? && s.level1.Some? ==>
              w.data == held.value && s' == s.(level1 := Some(s.level1.value[ScopeRoute(p) := held.value]))
  {
    hide Set, Get, ScopeRoute, IsValid, PathSegs;
    forall e ensures Chain(s.meta, PathSegs(p), 1, e) == [] && !Forbidden(s.meta, PathSegs(p), 1, e, p) {
      NothingRegistered(PathSegs(p), 1, e, p);
    }
    SetAllOrNothing(rt, s, p, v, NO_FAULTS);
    GetIsHeld(s, p, NO_FAULTS);
  }

  /** A stale read: Set a, Get, Set b, Get on a new service with an empty cache delivers a. */
  lemma StaleRead(rt: Runes, p: PathValue, a: Bytes, b: Bytes)
    requires Valid(rt, p) && !p.useEnvSuffix
    ensures var calls := [SetCall(p, a, NO_FAULTS), GetCall(p, NO_FAULTS), SetCall(p, b, NO_FAULTS)];
            var s := Run(rt, NEW_SERVICE, calls);
            s.level2 == map[ScopeRoute(p) := b] && Get(s, p, NO_FAULTS).1.data == a
  {
    hide Set, Get, ScopeRoute, IsValid;
    var setA, get, setB := SetCall(p, a, NO_FAULTS), GetCall(p, NO_FAULTS), SetCall(p, b, NO_FAULTS);
    var s1 := Step(rt, NEW_SERVICE, setA);
    var s2 := Step(rt, s1, get);
    var s3 := Step(rt, s2, setB);
    PlainCalls(rt, NEW_SERVICE, p, a);
    PlainCalls(rt, s1, p, a);
    PlainCalls(rt, s2, p, b);
    PlainCalls(rt, s3, p, b);
    assert [setA, get, setB][1..] == [get, setB] && [get, setB][1..] == [setB] && [setB][1..] == [];
    assert Run(rt, s1, [get, setB]) == Run(rt, s2, [setB]) == Run(rt, s3, []) == s3;
  }
}

/** What callers of the service (config/service.go) can rely on, in terms of the paths, permissions
    and observers they handed in. */
module ServiceLaws {
  import opened Common
  import opened RouteKey
  import opened Path
  import opened RouteMap
  import opened ServiceSpec
  import opened Pipeline
  import opened ServiceProps
  import opened ScopedDefaults
  import Scope

  // ---- permissions ----

  lemma NoneRuns(m: Meta, q: PathValue, e: Event)
    requires NoObservers(m)
    ensures ObserversOf(m, q, e) == []
  {
    ChainIsEmpty(m, PathSegs(q), 1, e);
  }

  /** Without observers, Set of a valid path is refused exactly if the metadata of the route, of a
      prefix of it, or of its scope name permitted scopes and the path's scope is not among them;
      otherwise the value is stored. */
  lemma SetPermission(rt: Runes, s: State, p: PathValue, v: Bytes)
    requires Valid(rt, Stamped(s.envName, p)) && NoObservers(s.meta)
    ensures var q := Stamped(s.envName, p);
            var (s', err) := Set(rt, s, p, v, NO_FAULTS);
            var segs := PathSegs(q);
            && (err == Some(NotAllowed) <==>
                  exists i | 1 <= i <= |segs| :: segs[..i] in s.meta && s.meta[segs[..i]].writeScopePerm != {} &&
                    q.scopeID > 0 && Scope.TypeOf(q.scopeID) !in s.meta[segs[..i]].writeScopePerm)
            && (err != Some(NotAllowed) ==> err == None && s'.level2 == s.level2[StoredUnder(s.envName, p) := v])
            && (err == Some(NotAllowed) ==> s' == s)
  {
    hide Set, ScopeRoute, IsValid, PathSegs, NoObservers;
    var q := Stamped(s.envName, p);
    KeyMeans(s.envName, p);
    NoneRuns(s.meta, q, BeforeSet);
    NoneRuns(s.meta, q, AfterSet);
    SetAllOrNothing(rt, s, p, v, NO_FAULTS);
    if Forbidden(s.meta, PathSegs(q), 1, BeforeSet, q) { SetForbidden(rt, s, p, v); }
  }

  lemma SetForbidden(rt: Runes, s: State, p: PathValue, v: Bytes)
    requires var q := Stamped(s.envName, p);
             Valid(rt, q) && NoObservers(s.meta) && Forbidden(s.meta, PathSegs(q), 1, BeforeSet, q)
    ensures Set(rt, s, p, v, NO_FAULTS).1 == Some(NotAllowed)
  {
    hide ScopeRoute, IsValid, PathSegs, NoObservers;
    var q := Stamped(s.envName, p);
    var segs := PathSegs(q);
    var i := FirstOf(s.meta, segs, 1, q);
    FirstForbidding(s.meta, segs, 1, q, Data(v, true), i);
    ChainIsEmpty(s.meta, segs[..i - 1], 1, BeforeSet);
    assert Process(s.meta, TrieKey(q), BeforeSet, q, Data(v, true)) == Err(NotAllowed) by { Unfold(s.meta, q, v); }
  }

  lemma Unfold(m: Meta, q: PathValue, v: Bytes)
    ensures Process(m, TrieKey(q), BeforeSet, q, Data(v, true)) ==
              ProcessFrom(m, PathSegs(q), 1, BeforeSet, q, Data(v, true))
  {
  }

  lemma {:induction false} FirstOf(m: Meta, segs: Key, n: nat, q: PathValue) returns (i: nat)
    requires n > 0 && Forbidden(m, segs, n, BeforeSet, q)
    ensures n <= i <= |segs| && segs[..i] in m && Forbids(m[segs[..i]], BeforeSet, q)
    ensures forall j | n <= j < i && segs[..j] in m :: !Forbids(m[segs[..j]], BeforeSet, q)
    decreases |segs| - n
  {
    if n <= |segs| && segs[..n] in m && Forbids(m[segs[..n]], BeforeSet, q) {
      i := n;
    } else {
      i := FirstOf(m, segs, n + 1, q);
    }
  }

  // ---- keys ----

  /** The segments under which the trie is asked about a path: those of its route, its environment
      if the path wants one, and its scope. */
  lemma PathSegments(q: PathValue)
    requires Scope.ValidTypeID(q.scopeID)
    ensures PathSegs(q) ==
              Segments("/" + q.route) +
              (if q.useEnvSuffix && q.envSuffix != "" then Segments("/" + q.envSuffix) else []) +
              ScopeSegments(q.scopeID)
  {
    hide Segments, ScopeSegments;
    var key := "/" + q.route + PrintedSuffix(q);
    ScopedKeySegments(key, q.scopeID);
    if PrintedSuffix(q) == "" {
      assert key == "/" + q.route;
    } else {
      SegmentsOfJoin("/" + q.route, "/" + q.envSuffix);
    }
  }

  /** The storage key of a path, in a service with the given environment. */
  function StoredUnder(env: string, p: PathValue): StoreKey {
    (p.scopeID, if p.useEnvSuffix && env != "" then p.route + "/" + env else p.route)
  }

  /** Every storage key the service uses is that one. */
  lemma KeyMeans(env: string, p: PathValue)
    ensures ScopeRoute(Stamped(env, p)) == StoredUnder(env, p)
  {
    assert p.route + "" == p.route;
    assert p.route + ("/" + env) == p.route + "/" + env;
  }

  lemma NothingMet(q: PathValue, e: Event)
    ensures ObserversOf(map[], q, e) == [] && !Forbidden(map[], PathSegs(q), 1, e, q)
    ensures NoDefaults(map[], PathSegs(q), 1)
  {
    hide PathSegs;
    NothingRegistered(PathSegs(q), 1, e, q);
  }

  /** Set without metadata: the value is stored under the path's scope and its route, with the
      service's environment behind the route if the path wants one, and nothing else changes. */
  lemma SetStores(rt: Runes, s: State, p: PathValue, v: Bytes)
    requires s.meta == map[] && Valid(rt, p)
    ensures var (s', err) := Set(rt, s, p, v, NO_FAULTS);
            && err == None && s' == s.(level2 := s'.level2, sent := s'.sent)
            && (p.useEnvSuffix && s.envName != "" ==>
                  s'.level2 == s.level2[(p.scopeID, p.route + "/" + s.envName) := v])
            && (!p.useEnvSuffix || s.envName == "" ==> s'.level2 == s.level2[(p.scopeID, p.route) := v])
  {
    hide Set, ScopeRoute, PathSegs, ObserversOf;
    var q := Stamped(s.envName, p);
    KeyMeans(s.envName, p);
    NothingMet(q, BeforeSet);
    NothingMet(q, AfterSet);
    SetAllOrNothing(rt, s, p, v, NO_FAULTS);
  }

  /** Get without metadata delivers what is held under that key. */
  lemma GetReads(s: State, p: PathValue)
    requires s.meta == map[]
    ensures var held := Held(s, StoredUnder(s.envName, p));
            var v := Get(s, p, NO_FAULTS).1;
            v.data == (if held.Some? then held.value else None) && v.lastErr == None &&
            (v.found == NotFound <==> held.None?)
  {
    hide Get, ScopeRoute, PathSegs, ObserversOf, Held, NoDefaults, StoredUnder;
    var q := Stamped(s.envName, p);
    KeyMeans(s.envName, p);
    NothingMet(q, BeforeGet);
    NothingMet(q, AfterGet);
    GetIsHeld(s, p, NO_FAULTS);
  }

  /** Environments do not see each other: what is set for one environment is delivered to paths
      that want this environment, and changes nothing for plain paths and for services with
      another environment on the same storage. */
  lemma EnvironmentsApart(rt: Runes, s: State, p: PathValue, v: Bytes, env: string)
    requires s.meta == map[] && Valid(rt, p) && p.useEnvSuffix && s.envName != "" && s.level1 in {None, Some(map[])}
    requires env != s.envName
    ensures var s' := Set(rt, s, p, v, NO_FAULTS).0;
            var plain := PlainPath(p.route, p.scopeID);
            && Get(s', p, NO_FAULTS).1.data == v
            && Get(s', plain, NO_FAULTS).1.data == Get(s, plain, NO_FAULTS).1.data
            && Get(s'.(envName := env), p, NO_FAULTS).1.data == Get(s.(envName := env), p, NO_FAULTS).1.data
  {
    hide Set, Get;
    var s', plain := Set(rt, s, p, v, NO_FAULTS).0, PlainPath(p.route, p.scopeID);
    SetStores(rt, s, p, v);
    GetReads(s', p);
    GetReads(s, plain);
    GetReads(s', plain);
    GetReads(s.(envName := env), p);
    GetReads(s'.(envName := env), p);
    assert |p.route + "/" + s.envName| > |p.route|;
    assert (p.route + "/" + s.envName)[|p.route| + 1..] == s.envName;
    assert env != "" ==> (p.route + "/" + env)[|p.route| + 1..] == env;
  }

  // ---- observers ----

  /** A single entry is met once, at the prefix of its own length. */
  lemma {:induction false} MetOnce(m: Meta, k: Key, segs: Key, n: nat, e: Event)
    requires m.Keys == {k} && k <= segs && n > 0
    ensures Chain(m, segs, n, e) == if n <= |k| then m[k].events.At(e) else []
    decreases |segs| - n
  {
    if n > |segs| {
    } else {
      assert segs[..n] == k <==> n == |k|;
      MetOnce(m, k, segs, n + 1, e);
    }
  }

  ghost predicate AtOrAbove(route: string, p: PathValue) {
    p.route == route || route + "/" <= p.route
  }

  lemma PrefixSegments(route: string, q: PathValue)
    requires AtOrAbove(route, q) && Scope.ValidTypeID(q.scopeID)
    ensures Segments("/" + route) <= PathSegs(q)
  {
    hide Segments, ScopeSegments, PathSegs;
    PathSegments(q);
    if route != q.route {
      var rest := q.route[|route| + 1..];
      assert q.route == route + ("/" + rest);
      assert "/" + q.route == ("/" + route) + ("/" + rest);
      SegmentsOfJoin("/" + route, "/" + rest);
    }
  }

  /** The metadata after registering one observer for an event number at a route. */
  ghost function OneObserver(n: nat, route: string, o: Observer): Meta
    requires n < EVENT_MAX_COUNT
  {
    PutEvent(map[], Segments(BuildTrieKey(route, 0)), EventOf(n), o)
  }

  lemma OneRuns(n: nat, route: string, o: Observer, q: PathValue)
    requires n < EVENT_MAX_COUNT && route != "" && route[0] != '/'
    requires AtOrAbove(route, q) && Scope.ValidTypeID(q.scopeID)
    ensures var m := OneObserver(n, route, o);
            && ObserversOf(m, q, BeforeSet) == (if n == 0 then [o] else [])
            && ObserversOf(m, q, AfterSet) == (if n == 1 then [o] else [])
            && ObserversOf(m, q, BeforeGet) == (if n == 2 then [o] else [])
            && ObserversOf(m, q, AfterGet) == (if n == 3 then [o] else [])
            && !Forbidden(m, PathSegs(q), 1, BeforeSet, q) && NoDefaults(m, PathSegs(q), 1)
  {
    hide Segments, PathSegs, OneObserver, Chain, Forbidden, NoDefaults;
    var m, k := OneObserver(n, route, o), Segments("/" + route);
    PrefixSegments(route, q);
    OneEntry(n, route, o);
    MetOnce(m, k, PathSegs(q), 1, BeforeSet);
    MetOnce(m, k, PathSegs(q), 1, AfterSet);
    MetOnce(m, k, PathSegs(q), 1, BeforeGet);
    MetOnce(m, k, PathSegs(q), 1, AfterGet);
    OneIsOpen(m, k, PathSegs(q), q);
  }

  lemma OneEntry(n: nat, route: string, o: Observer)
    requires n < EVENT_MAX_COUNT && route != "" && route[0] != '/'
    ensures var m, k := OneObserver(n, route, o), Segments("/" + route);
            && m.Keys == {k} && m[k].writeScopePerm == {} && !m[k].defaultValid
            && m[k].events == Events(if n == 0 then [o] else [], if n == 1 then [o] else [],
                                     if n == 2 then [o] else [], if n == 3 then [o] else [])
  {
    hide Segments;
    assert [] + [o] == [o];
  }

  lemma OneIsOpen(m: Meta, k: Key, segs: Key, q: PathValue)
    requires m.Keys == {k} && m[k].writeScopePerm == {} && !m[k].defaultValid
    ensures !Forbidden(m, segs, 1, BeforeSet, q) && NoDefaults(m, segs, 1)
  {
  }

  lemma One(o: Observer, p: PathValue, v: Bytes, found: bool)
    ensures Dispatch([o], p, v, found) == o(p, v, found) && Dispatch([], p, v, found) == Ok(v)
  {
    assert [o][1..] == [];
  }

  /** What an observer sees and decides when a path at or below its route is set: number 0 comes
      before the write and may change or refuse the value, number 1 comes after it and can only
      report, numbers 2 and 3 have no part in it. */
  lemma SetObserved(rt: Runes, s: State, p: PathValue, v: Bytes, n: nat, route: string, o: Observer)
    requires n < EVENT_MAX_COUNT && route != "" && route[0] != '/' && AtOrAbove(route, p)
    requires s.meta == OneObserver(n, route, o) && Valid(rt, p) && Scope.ValidTypeID(p.scopeID)
    ensures var q := Stamped(s.envName, p);
            var k := StoredUnder(s.envName, p);
            var (s', err) := Set(rt, s, p, v, NO_FAULTS);
            if n == 0 then
              match o(q, v, true)
              case Err(e) => s' == s && err == Some(e)
              case Ok(w) => s'.level2 == s.level2[k := w] && err == None
            else s'.level2 == s.level2[k := v] && err == if n == 1 then ErrorOf(o(q, v, true)) else None
  {
    hide Set, ScopeRoute, PathSegs, ObserversOf, Forbidden, StoredUnder, OneObserver, NoDefaults;
    var q := Stamped(s.envName, p);
    KeyMeans(s.envName, p);
    OneRuns(n, route, o, q);
    forall w ensures Dispatch([o], q, w, true) == o(q, w, true) && Dispatch([], q, w, true) == Ok(w) {
      One(o, q, w, true);
    }
    SetAllOrNothing(rt, s, p, v, NO_FAULTS);
  }

  /** And when it is read: number 2 comes before the storage is asked and may only refuse, number 3
      makes the result from what was found, numbers 0 and 1 have no part in it. */
  lemma GetObserved(s: State, p: PathValue, n: nat, route: string, o: Observer)
    requires n < EVENT_MAX_COUNT && route != "" && route[0] != '/' && AtOrAbove(route, p)
    requires s.meta == OneObserver(n, route, o) && Scope.ValidTypeID(p.scopeID)
    ensures var q := Stamped(s.envName, p);
            var held := Held(s, StoredUnder(s.envName, p));
            var raw := if held.Some? then held.value else None;
            var v := Get(s, p, NO_FAULTS).1;
            if n == 2 && o(q, None, false).Err? then v == Value(None, Some(o(q, None, false).error), NotFound)
            else
              && (v.found == NotFound <==> held.None?)
              && (n == 3 ==> match o(q, raw, held.Some?)
                             case Err(e) => v.data == None && v.lastErr == Some(e)
                             case Ok(w) => v.data == w && v.lastErr == None)
              && (n != 3 ==> v.data == raw && v.lastErr == None)
  {
    hide Get, ScopeRoute, PathSegs, ObserversOf, Forbidden, StoredUnder, OneObserver, NoDefaults, Held;
    var q := Stamped(s.envName, p);
    KeyMeans(s.envName, p);
    OneRuns(n, route, o, q);
    forall w, b ensures Dispatch([o], q, w, b) == o(q, w, b) && Dispatch([], q, w, b) == Ok(w) { One(o, q, w, b); }
    GetIsHeld(s, p, NO_FAULTS);
  }

  /** The metadata of one route with an after-get observer and a default value. */
  ghost function OneDefault(route: string, o: Observer, default: string): Meta {
    var fm := ZERO_META.(default := default, defaultValid := true);
    PutEvent(PutMeta(map[], Segments(BuildTrieKey(route, 0)), fm), Segments(BuildTrieKey(route, 0)), EventOf(3), o)
  }

  /** Where nothing is stored, the route's default steps in only if the observer leaves the result
      empty; a value the observer supplies is delivered as not found. */
  lemma ObserverBeforeDefault(s: State, route: string, o: Observer, default: string)
    requires route != "" && route[0] != '/' && s.meta == OneDefault(route, o, default)
    requires Held(s, (Scope.DEFAULT_TYPE_ID, route)) == None
    ensures var q := PlainPath(route, Scope.DEFAULT_TYPE_ID);
            var v := Get(s, q, NO_FAULTS).1;
            match o(q, None, false)
            case Err(e) => v == Value(None, Some(e), NotFound)
            case Ok(Some(w)) => v == Value(Some(w), None, NotFound)
            case Ok(None) => v == Value(Some(default), None, InDefaults)
  {
    hide ScopeRoute, Segments, PathSegs, ProcessFrom;
    var q, k := PlainPath(route, Scope.DEFAULT_TYPE_ID), Segments("/" + route);
    KeyMeans(s.envName, q);
    PathSegments(q);
    assert PathSegs(q) == k by { assert ScopeSegments(Scope.DEFAULT_TYPE_ID) == []; assert k + [] + [] == k; }
    OneDefaultEntry(route, o, default);
    One(o, q, None, false);
    OnlyLast(s.meta, k, 1, BeforeGet, q, Data(None, false));
    OnlyLast(s.meta, k, 1, AfterGet, q, Data(None, false));
    Unfolded(s.meta, q, BeforeGet);
    Unfolded(s.meta, q, AfterGet);
  }

  lemma Unfolded(m: Meta, q: PathValue, e: Event)
    ensures Process(m, TrieKey(q), e, q, Data(None, false)) == ProcessFrom(m, PathSegs(q), 1, e, q, Data(None, false))
  {
  }

  lemma OneDefaultEntry(route: string, o: Observer, default: string)
    requires route != "" && route[0] != '/'
    ensures var m, k := OneDefault(route, o, default), Segments("/" + route);
            && m.Keys == {k} && m[k].events == Events([], [], [], [o]) && m[k].defaultValid && m[k].default == default
  {
    hide Segments;
    assert [] + [o] == [o];
  }

  /** With one entry, the pipeline is what happens there. */
  lemma {:induction false} OnlyLast(m: Meta, k: Key, n: nat, e: Event, q: PathValue, d: Data)
    requires m.Keys == {k} && 0 < n <= |k|
    ensures ProcessFrom(m, k, n, e, q, d) == Visit(m, k, e, q, d)
    decreases |k| - n
  {
    ProcessStep(m, k, n, e, q, d);
    if n == |k| {
      assert k[..n] == k;
    } else {
      OnlyLast(m, k, n + 1, e, q, d);
    }
  }

  // ---- failing storage ----

  /** Get without metadata under storage failures: which failure is reported, what is still
      delivered, and that a failure leaves the state as it was. */
  lemma GetFails(s: State, p: PathValue, f: Faults)
    requires s.meta == map[]
    ensures var k := StoredUnder(s.envName, p);
            var (s', v) := Get(s, p, f);
            var cached := s.level1.Some? && k in s.level1.value;
            && (s.level1.Some? && f.l1Get.Some? ==> s' == s && v == Value(None, f.l1Get, NotFound))
            && (!(s.level1.Some? && f.l1Get.Some?) && !cached && f.l2Get.Some? ==>
                  s' == s && v == Value(None, f.l2Get, NotFound))
            && (s.level1.Some? && f.l1Get.None? && !cached && f.l2Get.None? && k in s.level2 && f.l1Set.Some? ==>
                  s' == s && v == Value(s.level2[k], f.l1Set, InLevel2))
            && (f.l1Get.None? && f.l2Get.None? && f.l1Set.None? ==> v.lastErr == None)
  {
    hide ScopeRoute, PathSegs, StoredUnder;
    var q := Stamped(s.envName, p);
    KeyMeans(s.envName, p);
    forall e, d ensures Process(map[], TrieKey(q), e, q, d) == Ok(d) { NothingProcessed(q, e, d); }
  }

  lemma NothingProcessed(q: PathValue, e: Event, d: Data)
    ensures Process(map[], TrieKey(q), e, q, d) == Ok(d)
  {
    ProcessUncovered(map[], PathSegs(q), 1, e, q, d);
  }

  /** With any metadata: where the storage fails, its error is reported, even if an after-get observer
      fails too. */
  lemma StorageErrorWins(s: State, p: PathValue, f: Faults)
    requires s.level1 == None && f.l2Get.Some?
    requires Dispatch(ObserversOf(s.meta, Stamped(s.envName, p), BeforeGet), Stamped(s.envName, p), None, false).Ok?
    ensures Get(s, p, f).0 == s && Get(s, p, f).1.lastErr == f.l2Get
  {
    hide ScopeRoute, ProcessFrom;
    var q := Stamped(s.envName, p);
    NeverForbidden(s.meta, PathSegs(q), 1, BeforeGet, q);
    PipelineIsDispatch(s.meta, PathSegs(q), 1, BeforeGet, q, Data(None, false));
    Unfolded(s.meta, q, BeforeGet);
  }

  /** The scoped reader stops at the first scope that holds the route or whose storage fails, and
      reports that failure instead of falling back. */
  lemma {:induction false} FallbackStops(s: State, route: string, scopes: seq<Scope.TypeID>,
      fs: Scope.TypeID -> Faults, i: nat)
    requires s.meta == map[] && s.level1 == None && i < |scopes|
    requires forall j | 0 <= j < i :: fs(scopes[j]).l2Get == None && (scopes[j], route) !in s.level2
    requires fs(scopes[i]).l2Get.Some? || (scopes[i], route) in s.level2
    ensures FirstHit(s, route, scopes, fs) ==
              (s, if fs(scopes[i]).l2Get.Some? then Value(None, fs(scopes[i]).l2Get, NotFound)
                  else Value(s.level2[(scopes[i], route)], None, InLevel2))
    decreases i
  {
    hide Get;
    PlainGet(s, route, scopes[0], fs(scopes[0]));
    if i == 0 {
    } else {
      FallbackStops(s, route, scopes[1..], fs, i - 1);
    }
  }

  lemma PlainGet(s: State, route: string, t: Scope.TypeID, f: Faults)
    requires s.meta == map[] && s.level1 == None
    ensures Get(s, PlainPath(route, t), f) ==
              (s, if f.l2Get.Some? then Value(None, f.l2Get, NotFound)
                  else if (t, route) in s.level2 then Value(s.level2[(t, route)], None, InLevel2)
                  else Value(None, None, NotFound))
  {
    hide ScopeRoute;
    var q := PlainPath(route, t);
    KeyMeans(s.envName, q);
    forall e, d ensures Process(map[], TrieKey(q), e, q, d) == Ok(d) { NothingProcessed(q, e, d); }
  }
}

/** How the scoped reader resolves default values: the store's, else the website's, else the
    route's own, although the tree hands out the route's own default early when no scoped
    default lies below it. */
module ScopedDefaults {
  import opened Common
  import opened RouteKey
  import opened Path
  import opened RouteMap
  import opened ServiceSpec
  import opened Pipeline
  import opened ServiceProps
  import Scope

  /** No route is a segment-prefix of another one. */
  ghost predicate Antichain(routes: set<Key>) {
    forall a, b | a in routes && b in routes && a <= b :: a == b
  }

  /** Metadata is registered at routes and at their scopes, two segments further down. */
  ghost predicate RegisteredAt(m: Meta, routes: set<Key>) {
    forall k | k in m :: exists r | r in routes :: r <= k && (|k| == |r| || |k| == |r| + 2)
  }

  ghost predicate NoObservers(m: Meta) {
    forall k | k in m :: m[k].events == ZERO_META.events
  }

  ghost function DefaultAt(m: Meta, k: Key): Option<string> {
    if k in m && m[k].defaultValid then Some(m[k].default) else None
  }

  /** The first default value along the scopes. */
  ghost function Resolved(m: Meta, r: Key, scopes: seq<Scope.TypeID>): Option<string>
    requires forall t | t in scopes :: Scope.ValidTypeID(t)
  {
    if scopes == [] then None
    else
      var d := DefaultAt(m, r + ScopeSegments(scopes[0]));
      if d.Some? then d else Resolved(m, r, scopes[1..])
  }

  lemma ComparablePrefixes(a: Key, b: Key, k: Key)
    requires a <= k && b <= k
    ensures a <= b || b <= a
  {
  }

  /** A registered key that is comparable with a route is that route or one of its scopes. */
  lemma OnlyRouteAndScope(m: Meta, routes: set<Key>, r: Key, k: Key)
    requires Antichain(routes) && RegisteredAt(m, routes) && r in routes && k in m
    requires r <= k || k <= r
    ensures r <= k && (|k| == |r| || |k| == |r| + 2)
  {
    var r' :| r' in routes && r' <= k && (|k| == |r'| || |k| == |r'| + 2);
    if k <= r {
      assert r' <= r;
    } else {
      ComparablePrefixes(r, r', k);
    }
  }

  lemma {:induction false} ChainIsEmpty(m: Meta, segs: Key, n: nat, e: Event)
    requires NoObservers(m)
    ensures Chain(m, segs, n, e) == []
    decreases |segs| - n
  {
    if n > |segs| {
    } else {
      ChainIsEmpty(m, segs, n + 1, e);
    }
  }

  /** Without observers a found value, or any event but after-get, passes unchanged. */
  lemma PassesThrough(m: Meta, segs: Key, n: nat, e: Event, p: PathValue, d: Data)
    requires NoObservers(m) && e != BeforeSet && (e == AfterGet ==> d.found)
    ensures ProcessFrom(m, segs, n, e, p, d) == Ok(d)
  {
    PipelineIsDispatch(m, segs, n, e, p, d);
    ChainIsEmpty(m, segs, n, e);
  }

  /** Prefixes without an entry are skipped. */
  lemma {:induction false} SkipTo(m: Meta, segs: Key, n: nat, n': nat, e: Event, p: PathValue, d: Data)
    requires n <= n' <= |segs| + 1
    requires forall i | n <= i < n' :: segs[..i] !in m
    ensures ProcessFrom(m, segs, n, e, p, d) == ProcessFrom(m, segs, n', e, p, d)
    decreases n' - n
  {
    if n >= n' {
    } else {
      SkipTo(m, segs, n + 1, n', e, p, d);
    }
  }

  /** The entry hands out its default to a path of this scope: nothing is registered below it, or
      the scope is the default one. */
  ghost predicate FilledAt(m: Meta, r: Key, t: Scope.TypeID) {
    DefaultAt(m, r).Some? && (NoneBelow(m, r) || t == 0 || t == Scope.DEFAULT_TYPE_ID)
  }

  ghost function Answer(d: Option<string>): Data {
    if d.Some? then Data(Some(d.value), true) else Data(None, false)
  }

  /** The after-get pipeline on a value that was not found, for one scope of a route. */
  lemma ProcessFindsDefault(m: Meta, routes: set<Key>, r: Key, tail: Key, p: PathValue)
    requires Antichain(routes) && RegisteredAt(m, routes) && NoObservers(m) && r in routes && r != []
    requires |tail| == 2 || (tail == [] && p.scopeID == Scope.DEFAULT_TYPE_ID)
    ensures ProcessFrom(m, r + tail, 1, AfterGet, p, Data(None, false)) ==
              Ok(Answer(if FilledAt(m, r, p.scopeID) then DefaultAt(m, r) else DefaultAt(m, r + tail)))
  {
    hide Antichain, RegisteredAt, NoObservers;
    var segs, n, none := r + tail, |r|, Data(None, false);
    assert segs[..n] == r;
    forall i | 1 <= i < n
      ensures segs[..i] !in m
    {
      if segs[..i] in m { OnlyRouteAndScope(m, routes, r, segs[..i]); }
    }
    SkipTo(m, segs, 1, n, AfterGet, p, none);
    VisitWithoutObservers(m, r, p);
    if FilledAt(m, r, p.scopeID) {
      PassesThrough(m, segs, n + 1, AfterGet, p, Data(Some(m[r].default), true));
    } else {
      if tail == [] {
        assert r + tail == r;
      } else {
        if segs[..n + 1] in m { OnlyRouteAndScope(m, routes, r, segs[..n + 1]); }
        SkipTo(m, segs, n + 1, n + 2, AfterGet, p, none);
        assert segs[..n + 2] == segs;
        NothingBelowScope(m, routes, r, segs);
        VisitWithoutObservers(m, segs, p);
      }
    }
  }

  lemma VisitWithoutObservers(m: Meta, k: Key, p: PathValue)
    requires NoObservers(m)
    ensures Visit(m, k, AfterGet, p, Data(None, false)) ==
              Ok(if FilledAt(m, k, p.scopeID) then Answer(DefaultAt(m, k)) else Data(None, false))
  {
  }

  lemma NothingBelowScope(m: Meta, routes: set<Key>, r: Key, k: Key)
    requires Antichain(routes) && RegisteredAt(m, routes) && r in routes
    requires r <= k && |k| == |r| + 2
    ensures NoneBelow(m, k)
  {
    forall q | q in m
      ensures !(k < q)
    {
      if k < q { OnlyRouteAndScope(m, routes, r, q); }
    }
  }

  predicate StorageEmpty(s: State) {
    s.level2 == map[] && (s.level1.Some? ==> s.level1.value == map[])
  }

  ghost function RouteKeyOf(route: string): Key { Segments("/" + route) }

  lemma PlainPathSegments(route: string, t: Scope.TypeID)
    requires Scope.ValidTypeID(t)
    ensures Segments(TrieKey(PlainPath(route, t))) == RouteKeyOf(route) + ScopeSegments(t)
    ensures RouteKeyOf(route) != []
  {
    ScopedKeySegments("/" + route, t);
    assert "/" + route + "" == "/" + route;
  }

  /** The default value handed out when a scope of a route is read and nothing is stored. */
  ghost function HandedOut(m: Meta, r: Key, t: Scope.TypeID): Option<string>
    requires Scope.ValidTypeID(t)
  {
    if FilledAt(m, r, t) then DefaultAt(m, r) else DefaultAt(m, r + ScopeSegments(t))
  }

  /** Reading one scope of a route without observers: the stored value, else the default handed
      out for that scope. */
  lemma GetFindsDefault(s: State, routes: set<Key>, route: string, t: Scope.TypeID)
    requires NoObservers(s.meta) && Antichain(routes) && RegisteredAt(s.meta, routes)
    requires RouteKeyOf(route) in routes && Scope.ValidTypeID(t)
    requires t == Scope.DEFAULT_TYPE_ID || Scope.IsWebsiteOrStore(Scope.TypeOf(t))
    ensures var q := PlainPath(route, t);
            var d := HandedOut(s.meta, RouteKeyOf(route), t);
            var (s', v) := Get(s, q, NO_FAULTS);
            match Held(s, ScopeRoute(q))
            case Some(b) => v.data == b && v.lastErr == None && (v.found == InLevel1 || v.found == InLevel2)
            case None => s' == s && v == Value(Answer(d).v, None, if d.Some? then InDefaults else NotFound)
  {
    hide Antichain, RegisteredAt, NoObservers, RouteKeyOf, Segments, ProcessFrom, NoneBelow;
    var q := PlainPath(route, t);
    assert Stamped(s.envName, q) == q;
    PlainPathSegments(route, t);
    PassesThrough(s.meta, Segments(TrieKey(q)), 1, BeforeGet, q, Data(None, false));
    var held := Held(s, ScopeRoute(q));
    if held.Some? {
      PassesThrough(s.meta, Segments(TrieKey(q)), 1, AfterGet, q, Data(held.value, true));
    } else {
      ProcessFindsDefault(s.meta, routes, RouteKeyOf(route), ScopeSegments(t), q);
    }
  }

  /** If nothing is registered below the route, only its own default can be resolved. */
  lemma {:induction false} NothingScoped(m: Meta, r: Key, scopes: seq<Scope.TypeID>)
    requires forall t | t in scopes :: Scope.ValidTypeID(t)
    requires |scopes| > 0 && scopes[|scopes| - 1] == Scope.DEFAULT_TYPE_ID && NoneBelow(m, r)
    ensures Resolved(m, r, scopes) == DefaultAt(m, r)
    decreases |scopes|
  {
    var tail := ScopeSegments(scopes[0]);
    if tail == [] {
      assert r + tail == r;
    } else {
      assert r < r + tail;
    }
    if |scopes| > 1 {
      NothingScoped(m, r, scopes[1..]);
    } else {
      assert r + [] == r;
      assert Resolved(m, r, scopes[1..]) == None;
    }
  }

  /** With nothing stored and nothing observed, reading along a list of scopes that ends with
      the default scope delivers the first default value along that list. */
  lemma {:induction false} FirstHitResolves(s: State, routes: set<Key>, route: string, scopes: seq<Scope.TypeID>,
                                            fs: Scope.TypeID -> Faults)
    requires StorageEmpty(s) && NoObservers(s.meta) && Antichain(routes) && RegisteredAt(s.meta, routes)
    requires RouteKeyOf(route) in routes
    requires |scopes| > 0 && scopes[|scopes| - 1] == Scope.DEFAULT_TYPE_ID
    requires forall t | t in scopes :: Scope.ValidTypeID(t) && fs(t) == NO_FAULTS
    requires forall i | 0 <= i < |scopes| - 1 :: Scope.IsWebsiteOrStore(Scope.TypeOf(scopes[i]))
    ensures var d := Resolved(s.meta, RouteKeyOf(route), scopes);
            FirstHit(s, route, scopes, fs).1 == Value(Answer(d).v, None, if d.Some? then InDefaults else NotFound)
    decreases |scopes|
  {
    hide Antichain, RegisteredAt, NoObservers, Get, RouteKeyOf, FilledAt;
    var r, t := RouteKeyOf(route), scopes[0];
    assert t in scopes && Held(s, ScopeRoute(PlainPath(route, t))) == None;
    GetFindsDefault(s, routes, route, t);
    if |scopes| == 1 {
      assert r + ScopeSegments(t) == r;
      assert Resolved(s.meta, r, scopes[1..]) == None;
    } else {
      if FilledAt(s.meta, r, t) {
        FilledMeansNoneBelow(s.meta, r, t);
        NothingScoped(s.meta, r, scopes);
      } else if DefaultAt(s.meta, r + ScopeSegments(t)).None? {
        FirstHitResolves(s, routes, route, scopes[1..], fs);
      }
    }
  }

  lemma FilledMeansNoneBelow(m: Meta, r: Key, t: Scope.TypeID)
    requires FilledAt(m, r, t) && Scope.IsWebsiteOrStore(Scope.TypeOf(t))
    ensures DefaultAt(m, r).Some? && NoneBelow(m, r)
  {
  }

  /** No default is handed out at a scope that is asked before the first one holding a value. */
  ghost predicate NoDefaultBefore(s: State, route: string, scopes: seq<Scope.TypeID>)
    requires forall t | t in scopes :: Scope.ValidTypeID(t)
  {
    scopes == [] || Held(s, ScopeRoute(PlainPath(route, scopes[0]))).Some? ||
    (HandedOut(s.meta, RouteKeyOf(route), scopes[0]).None? && NoDefaultBefore(s, route, scopes[1..]))
  }

  /** A stored value does not always win over a default. It is delivered exactly when no more
      specific scope hands out a default first; a default on a route without scoped metadata is
      handed out at every scope. */
  lemma {:induction false} StoredBeatsDefaultIff(s: State, routes: set<Key>, route: string, scopes: seq<Scope.TypeID>,
                                                 fs: Scope.TypeID -> Faults)
    requires NoObservers(s.meta) && Antichain(routes) && RegisteredAt(s.meta, routes)
    requires RouteKeyOf(route) in routes
    requires forall t | t in scopes :: Scope.ValidTypeID(t) && fs(t) == NO_FAULTS
    requires forall t | t in scopes :: t == Scope.DEFAULT_TYPE_ID || Scope.IsWebsiteOrStore(Scope.TypeOf(t))
    requires FirstHeld(s, route, scopes).Some?
    ensures var t := FirstHeld(s, route, scopes).value;
            var v := FirstHit(s, route, scopes, fs).1;
            var stored := Held(s, ScopeRoute(PlainPath(route, t)));
            if NoDefaultBefore(s, route, scopes)
            then (v.found == InLevel1 || v.found == InLevel2) && stored == Some(v.data)
            else v.found == InDefaults
    decreases |scopes|
  {
    hide Antichain, RegisteredAt, NoObservers, Get, RouteKeyOf, HandedOut;
    var t := scopes[0];
    assert t in scopes;
    GetFindsDefault(s, routes, route, t);
    if Held(s, ScopeRoute(PlainPath(route, t))).Some? {
    } else {
      StoredBeatsDefaultIff(s, routes, route, scopes[1..], fs);
    }
  }

  /** A value stored for the default scope, and a default registered at the bare route. */
  ghost function StoredAndDefault(route: string, stored: Bytes, d: string): State {
    State(None, map[(Scope.DEFAULT_TYPE_ID, route) := stored],
          map[RouteKeyOf(route) := ZERO_META.(default := d, defaultValid := true, valid := true)], "", Disabled, [])
  }

  /** There a reader bound to a store gets the default, and never sees the stored value. */
  lemma DefaultHidesStored(route: string, stored: Bytes, d: string, storeID: ServiceSpec.Int64,
      fs: Scope.TypeID -> Faults)
    requires 0 < storeID <= Scope.MAX_ID && fs(Scope.MakeTypeID(Scope.STORE, storeID)) == NO_FAULTS
    ensures var s, reader := StoredAndDefault(route, stored, d), ServiceSpec.Scoped(0, storeID);
            && FirstHeld(s, route, reader.Scopes(Scope.ABSENT)) == Some(Scope.DEFAULT_TYPE_ID)
            && FirstHit(s, route, reader.Scopes(Scope.ABSENT), fs).1 == Value(Some(d), None, InDefaults)
  {
    hide Get, RouteKeyOf;
    var s, t, r := StoredAndDefault(route, stored, d), Scope.MakeTypeID(Scope.STORE, storeID), RouteKeyOf(route);
    var scopes := ServiceSpec.Scoped(0, storeID).Scopes(Scope.ABSENT);
    MadeScope(Scope.STORE, storeID);
    assert scopes == [t, Scope.DEFAULT_TYPE_ID] && scopes[1..] == [Scope.DEFAULT_TYPE_ID];
    assert route + "" == route;
    assert ScopeRoute(PlainPath(route, t)) == (t, route) && t != Scope.DEFAULT_TYPE_ID;
    assert ScopeRoute(PlainPath(route, Scope.DEFAULT_TYPE_ID)) == (Scope.DEFAULT_TYPE_ID, route);
    assert NoneBelow(s.meta, r) && FilledAt(s.meta, r, t);
    GetFindsDefault(s, {r}, route, t);
  }

  /** The default registered for one scope of a route, if the reader is bound to that scope. */
  ghost function ScopedDefault(m: Meta, r: Key, scope: string, id: int): Option<string> {
    if id > 0 then DefaultAt(m, r + [scope, "/" + Decimal.Print(id)]) else None
  }

  /** Unrestricted Scoped.Get: the store's default, else the website's, else the route's own. */
  lemma DefaultsResolve(s: State, routes: set<Key>, route: string, ss: ServiceSpec.Scoped, fs: Scope.TypeID -> Faults)
    requires StorageEmpty(s) && NoObservers(s.meta) && Antichain(routes) && RegisteredAt(s.meta, routes)
    requires RouteKeyOf(route) in routes
    requires 0 <= ss.websiteID <= Scope.MAX_ID && 0 <= ss.storeID <= Scope.MAX_ID
    requires forall t | t in ss.Scopes(Scope.ABSENT) :: fs(t) == NO_FAULTS
    ensures var r := RouteKeyOf(route);
            var store := ScopedDefault(s.meta, r, "/stores", ss.storeID);
            var website := ScopedDefault(s.meta, r, "/websites", ss.websiteID);
            var d := if store.Some? then store else if website.Some? then website else DefaultAt(s.meta, r);
            FirstHit(s, route, ss.Scopes(Scope.ABSENT), fs).1 ==
              Value(Answer(d).v, None, if d.Some? then InDefaults else NotFound)
  {
    hide Antichain, RegisteredAt, NoObservers, FirstHit, RouteKeyOf, StorageEmpty, DefaultAt;
    var r, last := RouteKeyOf(route), [Scope.DEFAULT_TYPE_ID];
    var st, ws := Scope.MakeTypeID(Scope.STORE, ss.storeID), Scope.MakeTypeID(Scope.WEBSITE, ss.websiteID);
    MadeScope(Scope.STORE, ss.storeID);
    MadeScope(Scope.WEBSITE, ss.websiteID);
    ResolvedDefault(s.meta, r);
    var lower := if ss.websiteID > 0 then [ws] + last else last;
    ResolvedCons(s.meta, r, ws, last);
    ResolvedCons(s.meta, r, st, lower);
    var scopes := if ss.storeID > 0 then [st] + lower else lower;
    assert ss.Scopes(Scope.ABSENT) == scopes;
    FirstHitResolves(s, routes, route, scopes, fs);
  }

  lemma MadeScope(t: Scope.Type, id: int)
    requires Scope.IsWebsiteOrStore(t) && 0 <= id <= Scope.MAX_ID
    ensures var made := Scope.MakeTypeID(t, id);
            Scope.ValidTypeID(made) && Scope.TypeOf(made) == t && made != Scope.DEFAULT_TYPE_ID &&
            ScopeSegments(made) == [if t == Scope.STORE then "/stores" else "/websites", "/" + Decimal.Print(id)]
  {
    Scope.PackRoundTrip(t, id);
    assert "/" + "stores" == "/stores" && "/" + "websites" == "/websites";
  }

  lemma ResolvedCons(m: Meta, r: Key, t: Scope.TypeID, rest: seq<Scope.TypeID>)
    requires Scope.ValidTypeID(t) && forall u | u in rest :: Scope.ValidTypeID(u)
    ensures var d := DefaultAt(m, r + ScopeSegments(t));
            Resolved(m, r, [t] + rest) == if d.Some? then d else Resolved(m, r, rest)
  {
    assert ([t] + rest)[1..] == rest;
  }

  lemma ResolvedDefault(m: Meta, r: Key)
    ensures Resolved(m, r, [Scope.DEFAULT_TYPE_ID]) == DefaultAt(m, r)
  {
    ResolvedCons(m, r, Scope.DEFAULT_TYPE_ID, []);
    assert [Scope.DEFAULT_TYPE_ID] + [] == [Scope.DEFAULT_TYPE_ID];
    assert r + ScopeSegments(Scope.DEFAULT_TYPE_ID) == r;
  }
}

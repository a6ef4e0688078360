/** The configuration service and its scoped reader (config/service.go) as objects that update
    their storage and paths in place, proved against module ServiceSpec. */
module Service {
  import opened Common
  import opened RouteKey
  import opened Path
  import opened PathObject
  import opened RouteTrie
  import M = RouteMap
  import Spec = ServiceSpec
  import Scope

  class ConfigService {
    const routeConfig: Trie
    var level1: Option<Spec.Store>
    var level2: Spec.Store
    var envName: string
    var pubSub: Spec.PubSub
    var sent: seq<PathValue>

    ghost predicate Valid()
      reads this, routeConfig, routeConfig.nodes.Values
    {
      routeConfig.Valid()
    }

    ghost function State(): Spec.State
      reads this, routeConfig, routeConfig.nodes.Values
    {
      Spec.State(level1, level2, routeConfig.Contents(), envName, pubSub, sent)
    }

    constructor (level1: Option<Spec.Store>, level2: Spec.Store, envName: string, pubSub: Spec.PubSub)
      ensures Valid() && State() == Spec.State(level1, level2, map[], envName, pubSub, [])
      ensures fresh(routeConfig) && fresh(routeConfig.nodes.Values)
    {
      this.level1, this.level2, this.envName, this.pubSub, this.sent := level1, level2, envName, pubSub, [];
      routeConfig := new Trie();
    }

    /** Adds an observer; an unknown event is an error, a nil observer changes nothing. */
    method RegisterObserver(event: nat, route: string, eo: Option<M.Observer>) returns (err: Option<Error>)
      requires Valid()
      modifies routeConfig, routeConfig.nodes.Values
      ensures Valid() && fresh(routeConfig.nodes.Values - old(routeConfig.nodes.Values))
      ensures err == if event < M.EVENT_MAX_COUNT then None else Some(OutOfRange)
      ensures State() ==
                if event < M.EVENT_MAX_COUNT && eo.Some? then
                  old(State()).(meta := M.PutEvent(old(State()).meta, Segments(BuildTrieKey(route, 0)),
                    M.EventOf(event), eo.value))
                else old(State())
    {
      if event >= M.EVENT_MAX_COUNT { return Some(OutOfRange); }
      var _ := routeConfig.PutEvent(M.EventOf(event), route, eo);
      return None;
    }

    /** Drops all observers of an event at a route; an unknown event is an error. */
    method DeregisterObserver(event: nat, route: string) returns (err: Option<Error>)
      requires Valid()
      modifies routeConfig.nodes.Values
      ensures Valid() && err == if event < M.EVENT_MAX_COUNT then None else Some(OutOfRange)
      ensures State() ==
                if event < M.EVENT_MAX_COUNT then
                  old(State()).(meta := M.DeleteEvent(old(State()).meta, Segments(BuildTrieKey(route, 0)),
                    M.EventOf(event)))
                else old(State())
    {
      if event >= M.EVENT_MAX_COUNT { return Some(OutOfRange); }
      var _ := routeConfig.DeleteEvent(M.EventOf(event), route);
      return None;
    }

    /** sendMsg: once closed, messages are dropped. */
    method SendMsg(p: PathValue)
      modifies this`sent
      ensures sent == if pubSub == Spec.Open then old(sent) + [p] else old(sent)
    {
      if pubSub == Spec.Open { sent := sent + [p]; }
    }

    /** The storage part of Set. */
    method Store(q: PathValue, v: Bytes, f: Spec.Faults) returns (err: Option<Error>)
      requires Valid()
      modifies `level2, `sent
      ensures Valid() && err == f.l2Set
      ensures State() == if f.l2Set.Some? then old(State()) else Spec.SetStored(old(State()), q, v)
    {
      hide ScopeRoute, Trie.Valid, Trie.ValidBut, Trie.Contents;
      if f.l2Set.Some? { return f.l2Set; }
      level2 := level2[ScopeRoute(q) := v];
      SendMsg(q);
      return None;
    }

    method Set(rt: Runes, p: PathRef, v: Bytes, f: Spec.Faults) returns (err: Option<Error>)
      requires Valid()
      modifies this`level2, this`sent, p`envSuffix
      ensures Valid() && p.Value() == Spec.Stamped(envName, old(p.Value()))
      ensures (State(), err) == Spec.Set(rt, old(State()), old(p.Value()), v, f)
    {
      hide IsValid, TrieKey, ScopeRoute, M.Process, Trie.Valid, Trie.ValidBut, Trie.Contents;
      if p.useEnvSuffix && p.envSuffix != envName { p.envSuffix := envName; }
      err := p.CheckValid(rt);
      if err.Some? { return; }
      var q := p.Value();
      var key := TrieKey(q);
      var before := routeConfig.Process(key, M.BeforeSet, q, M.Data(v, true));
      if before.Err? { return Some(before.error); }
      var data := before.value.v;
      err := Store(q, data, f);
      var after := routeConfig.Process(key, M.AfterSet, q, M.Data(data, err.None?));
      if err.None? && after.Err? { err := Some(after.error); }
    }

    /** The storage part of Get. */
    method Read(q: PathValue, f: Spec.Faults) returns (v: Spec.Value)
      requires Valid()
      modifies this`level1
      ensures Valid() && (State(), v) == Spec.Fetch(old(State()), q, f)
    {
      var k := ScopeRoute(q);
      v := Spec.Value(None, None, Spec.NotFound);
      if level1.Some? {
        if f.l1Get.Some? { return v.(lastErr := f.l1Get); }
        if k in level1.value { return Spec.Value(level1.value[k], None, Spec.InLevel1); }
      }
      if f.l2Get.Some? { return v.(lastErr := f.l2Get); }
      if k in level2 {
        v := Spec.Value(level2[k], None, Spec.InLevel2);
        if level1.Some? {
          if f.l1Set.Some? { return v.(lastErr := f.l1Set); }
          level1 := Some(level1.value[k := v.data]);
        }
      }
    }

    method Get(p: PathRef, f: Spec.Faults) returns (v: Spec.Value)
      requires Valid()
      modifies this`level1, p`envSuffix
      ensures Valid() && p.Value() == Spec.Stamped(envName, old(p.Value()))
      ensures (State(), v) == Spec.Get(old(State()), old(p.Value()), f)
    {
      hide TrieKey, ScopeRoute, M.Process, Trie.ValidBut, Trie.Contents, Spec.Fetch;
      if p.useEnvSuffix && p.envSuffix != envName { p.envSuffix := envName; }
      var q := p.Value();
      var key := TrieKey(q);
      v := Spec.Value(None, None, Spec.NotFound);
      var before := routeConfig.Process(key, M.BeforeGet, q, M.Data(None, false));
      if before.Err? { return v.(lastErr := Some(before.error)); }
      v := Read(q, f);
      var after := routeConfig.Process(key, M.AfterGet, q, M.Data(v.data, v.found != Spec.NotFound));
      if after.Err? {
        v := v.(data := None);
        if v.lastErr.None? { v := v.(lastErr := Some(after.error)); }
      } else {
        v := v.(data := after.value.v);
        if after.value.found && v.found == Spec.NotFound { v := v.(found := Spec.InDefaults); }
      }
    }

    /** Scoped.Get: store, then website, then default. */
    method ScopedGet(ss: Spec.Scoped, restrictUpTo: Scope.Type, route: string, fs: Scope.TypeID -> Spec.Faults)
        returns (v: Spec.Value)
      requires Valid()
      modifies this`level1
      ensures Valid() && (State(), v) == Spec.FirstHit(old(State()), route, ss.Scopes(restrictUpTo), fs)
    {
      hide Trie.ValidBut, Trie.Contents, Spec.Get, Scope.MakeTypeID;
      ghost var scopes := ss.Scopes(restrictUpTo);
      ghost var start := State();
      var p := new PathRef(route, 0);
      if ss.AllowsStore(restrictUpTo) {
        p.scopeID := Scope.MakeTypeID(Scope.STORE, ss.storeID);
        assert p.scopeID == scopes[0];
        v := Get(p, fs(p.scopeID));
        if v.found != Spec.NotFound || v.lastErr.Some? { return; }
        scopes := scopes[1..];
      }
      assert Spec.FirstHit(start, route, ss.Scopes(restrictUpTo), fs) == Spec.FirstHit(State(), route, scopes, fs);
      if ss.AllowsWebsite(restrictUpTo) {
        p.scopeID := Scope.MakeTypeID(Scope.WEBSITE, ss.websiteID);
        assert p.scopeID == scopes[0];
        v := Get(p, fs(p.scopeID));
        if v.found != Spec.NotFound || v.lastErr.Some? { return; }
        scopes := scopes[1..];
      }
      assert scopes == [Scope.DEFAULT_TYPE_ID];
      assert Spec.FirstHit(start, route, ss.Scopes(restrictUpTo), fs) == Spec.FirstHit(State(), route, scopes, fs);
      p.scopeID := Scope.DEFAULT_TYPE_ID;
      v := Get(p, fs(p.scopeID));
    }
  }
}

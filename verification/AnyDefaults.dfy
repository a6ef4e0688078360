/** Which default value a reader gets from any metadata without observers, wherever it is
    registered, and when a stored value comes first. */
module AnyDefaults {
  import opened Common
  import opened RouteKey
  import opened Path
  import opened RouteMap
  import opened ServiceSpec
  import opened ServiceProps
  import opened ScopedDefaults
  import Scope

  /** The default of the shortest prefix, of at least n segments, that hands one out. */
  ghost function Offered(m: Meta, segs: Key, n: nat, t: Scope.TypeID): Option<string>
    decreases |segs| - n
  {
    if n > |segs| then None
    else if FilledAt(m, segs[..n], t) then Some(m[segs[..n]].default)
    else Offered(m, segs, n + 1, t)
  }

  /** The shortest one, and none exactly if no prefix hands out a default. */
  lemma {:induction false} OfferedIsShortest(m: Meta, segs: Key, n: nat, t: Scope.TypeID)
    ensures Offered(m, segs, n, t).None? <==> forall i | n <= i <= |segs| :: !FilledAt(m, segs[..i], t)
    ensures forall i | n <= i <= |segs| && FilledAt(m, segs[..i], t) &&
                       (forall j | n <= j < i :: !FilledAt(m, segs[..j], t)) ::
              Offered(m, segs, n, t) == Some(m[segs[..i]].default)
    decreases |segs| - n
  {
    if n > |segs| {
    } else {
      OfferedIsShortest(m, segs, n + 1, t);
    }
  }

  lemma {:induction false} ProcessOffers(m: Meta, segs: Key, n: nat, p: PathValue)
    requires NoObservers(m)
    ensures ProcessFrom(m, segs, n, AfterGet, p, Data(None, false)) == Ok(Answer(Offered(m, segs, n, p.scopeID)))
    decreases |segs| - n
  {
    if n > |segs| {
    } else {
      VisitWithoutObservers(m, segs[..n], p);
      ProcessStep(m, segs, n, AfterGet, p, Data(None, false));
      if FilledAt(m, segs[..n], p.scopeID) {
        PassesThrough(m, segs, n + 1, AfterGet, p, Data(Some(m[segs[..n]].default), true));
      } else {
        ProcessOffers(m, segs, n + 1, p);
      }
    }
  }

  /** The default handed out when a path is read and nothing is stored for it. */
  ghost function OfferedTo(m: Meta, q: PathValue): Option<string> { Offered(m, PathSegs(q), 1, q.scopeID) }

  /** Reading one path: the stored value, else the default handed out. */
  lemma GetOffers(s: State, route: string, t: Scope.TypeID)
    requires NoObservers(s.meta)
    ensures var q := PlainPath(route, t);
            var d := OfferedTo(s.meta, q);
            var (s', v) := Get(s, q, NO_FAULTS);
            match Held(s, ScopeRoute(q))
            case Some(b) => v.data == b && v.lastErr == None && (v.found == InLevel1 || v.found == InLevel2)
            case None => s' == s && v == Value(Answer(d).v, None, if d.Some? then InDefaults else NotFound)
  {
    hide Offered;
    var q := PlainPath(route, t);
    assert Stamped(s.envName, q) == q;
    PassesThrough(s.meta, PathSegs(q), 1, BeforeGet, q, Data(None, false));
    var held := Held(s, ScopeRoute(q));
    if held.Some? {
      PassesThrough(s.meta, PathSegs(q), 1, AfterGet, q, Data(held.value, true));
    } else {
      ProcessOffers(s.meta, PathSegs(q), 1, q);
    }
  }

  /** The first scope that holds a value or is handed a default. */
  ghost function Source(s: State, route: string, scopes: seq<Scope.TypeID>): Option<Scope.TypeID> {
    if scopes == [] then None
    else
      var q := PlainPath(route, scopes[0]);
      if Held(s, ScopeRoute(q)).Some? || OfferedTo(s.meta, q).Some? then Some(scopes[0])
      else Source(s, route, scopes[1..])
  }

  /** Reading along scopes delivers what the first scope with a value or a default has, the value
      if it has both. */
  lemma {:induction false} FirstHitIsSource(s: State, route: string, scopes: seq<Scope.TypeID>,
      fs: Scope.TypeID -> Faults)
    requires NoObservers(s.meta) && |scopes| > 0 && forall t | t in scopes :: fs(t) == NO_FAULTS
    ensures var v := FirstHit(s, route, scopes, fs).1;
            v.lastErr == None &&
            match Source(s, route, scopes)
            case None => v.found == NotFound && v.data == None
            case Some(t) =>
              var q := PlainPath(route, t);
              match Held(s, ScopeRoute(q))
              case Some(b) => v.data == b && (v.found == InLevel1 || v.found == InLevel2)
              case None => v.data == OfferedTo(s.meta, q) && v.found == InDefaults
    decreases |scopes|
  {
    hide Get, OfferedTo, NoObservers, ScopeRoute;
    var t, rest := scopes[0], scopes[1..];
    assert t in scopes;
    GetOffers(s, route, t);
    var q := PlainPath(route, t);
    if Held(s, ScopeRoute(q)).Some? || OfferedTo(s.meta, q).Some? || rest == [] {
    } else {
      FirstHitIsSource(s, route, rest, fs);
    }
  }

  /** A stored value, that of the first scope holding one, is delivered exactly if no scope asked
      before it is handed a default. */
  lemma StoredComesFirstIff(s: State, route: string, scopes: seq<Scope.TypeID>, fs: Scope.TypeID -> Faults)
    requires NoObservers(s.meta) && forall t | t in scopes :: fs(t) == NO_FAULTS
    requires FirstHeld(s, route, scopes).Some?
    ensures var v := FirstHit(s, route, scopes, fs).1;
            var stored := Held(s, ScopeRoute(PlainPath(route, FirstHeld(s, route, scopes).value)));
            if Source(s, route, scopes) == FirstHeld(s, route, scopes)
            then (v.found == InLevel1 || v.found == InLevel2) && stored == Some(v.data)
            else v.found == InDefaults
  {
    hide FirstHit, OfferedTo, NoObservers, ScopeRoute;
    FirstHitIsSource(s, route, scopes, fs);
    HeldOrBefore(s, route, scopes);
  }

  /** The source is the first scope holding a value, or an earlier one that holds none. */
  lemma {:induction false} HeldOrBefore(s: State, route: string, scopes: seq<Scope.TypeID>)
    requires FirstHeld(s, route, scopes).Some?
    ensures Held(s, ScopeRoute(PlainPath(route, FirstHeld(s, route, scopes).value))).Some?
    ensures var t := Source(s, route, scopes);
            t.Some? && (t == FirstHeld(s, route, scopes) || Held(s, ScopeRoute(PlainPath(route, t.value))).None?)
    decreases |scopes|
  {
    hide OfferedTo, ScopeRoute, Held;
    if Held(s, ScopeRoute(PlainPath(route, scopes[0]))).Some? {
    } else {
      HeldOrBefore(s, route, scopes[1..]);
    }
  }
}

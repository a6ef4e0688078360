/** What the event pipeline computes, prefix structure aside: the observers of all prefixes run
    as one list, unless a permission forbids the write or a default value steps in. */
module Pipeline {
  import opened Common
  import opened RouteKey
  import opened Path
  import opened RouteMap

  /** The observers registered on the prefixes with at least n segments, shortest prefix first. */
  ghost function Chain(m: Meta, segs: Key, n: nat, e: Event): seq<Observer>
    decreases |segs| - n
  {
    if n > |segs| then [] else
    (if segs[..n] in m then m[segs[..n]].events.At(e) else []) + Chain(m, segs, n + 1, e)
  }

  /** Some prefix with at least n segments forbids the event for this path. */
  ghost predicate Forbidden(m: Meta, segs: Key, n: nat, e: Event, p: PathValue) {
    exists i | n <= i <= |segs| :: segs[..i] in m && Forbids(m[segs[..i]], e, p)
  }

  /** No prefix with at least n segments has a default value. */
  ghost predicate NoDefaults(m: Meta, segs: Key, n: nat) {
    forall i | n <= i <= |segs| :: segs[..i] in m ==> !m[segs[..i]].defaultValid
  }

  lemma {:induction false} DispatchSum(a: seq<Observer>, b: seq<Observer>, p: PathValue, v: Bytes, found: bool)
    ensures Dispatch(a + b, p, v, found) ==
              match Dispatch(a, p, v, found)
              case Ok(v') => Dispatch(b, p, v', found)
              case Err(e) => Err(e)
  {
    if a == [] {
      assert a + b == b;
    } else {
      assert (a + b)[1..] == a[1..] + b;
      match a[0](p, v, found) {
        case Err(_) =>
        case Ok(v') => DispatchSum(a[1..], b, p, v', found);
      }
    }
  }

  /** vs are the data before, between and behind the observers. */
  ghost predicate Passes(fns: seq<Observer>, p: PathValue, vs: seq<Bytes>, found: bool) {
    |vs| == |fns| + 1 && forall i | 0 <= i < |fns| :: fns[i](p, vs[i], found) == Ok(vs[i + 1])
  }

  /** Dispatch succeeds exactly along a chain of data in which each observer makes the next from
      the previous, and fails exactly with the error of the first observer that fails. */
  lemma {:induction false} DispatchIsChain(fns: seq<Observer>, p: PathValue, v: Bytes, found: bool)
      returns (n: nat, vs: seq<Bytes>)
    ensures n <= |fns| && Passes(fns[..n], p, vs, found) && vs[0] == v
    ensures n == |fns| ==> Dispatch(fns, p, v, found) == Ok(vs[n])
    ensures n < |fns| ==> fns[n](p, vs[n], found).Err? &&
                          Dispatch(fns, p, v, found) == Err(fns[n](p, vs[n], found).error)
  {
    if fns == [] {
      n, vs := 0, [v];
    } else {
      match fns[0](p, v, found) {
        case Err(_) => n, vs := 0, [v];
        case Ok(v') =>
          n, vs := DispatchIsChain(fns[1..], p, v', found);
          assert fns[..n + 1] == [fns[0]] + fns[1..][..n];
          n, vs := n + 1, [v] + vs;
      }
    }
  }

  /** The lists of all prefixes, one behind the other. */
  ghost function Listed(m: Meta, segs: Key, n: nat, list: Events -> seq<Observer>): seq<Observer>
    decreases |segs| - n
  {
    if n > |segs| then [] else
    (if segs[..n] in m then list(m[segs[..n]].events) else []) + Listed(m, segs, n + 1, list)
  }

  /** Each event runs the list of its own name. */
  lemma {:induction false} ChainByName(m: Meta, segs: Key, n: nat)
    ensures Chain(m, segs, n, BeforeSet) == Listed(m, segs, n, (ev: Events) => ev.beforeSet)
    ensures Chain(m, segs, n, AfterSet) == Listed(m, segs, n, (ev: Events) => ev.afterSet)
    ensures Chain(m, segs, n, BeforeGet) == Listed(m, segs, n, (ev: Events) => ev.beforeGet)
    ensures Chain(m, segs, n, AfterGet) == Listed(m, segs, n, (ev: Events) => ev.afterGet)
    decreases |segs| - n
  {
    if n > |segs| {
    } else {
      ChainByName(m, segs, n + 1);
    }
  }

  function Lift(r: Result<Bytes>, found: bool): Result<Data> {
    match r
    case Ok(v) => Ok(Data(v, found))
    case Err(e) => Err(e)
  }

  /** A forbidding prefix always makes the pipeline fail; without one, and where no default
      value can step in, the pipeline is the chained dispatch. */
  lemma {:induction false} PipelineIsDispatch(m: Meta, segs: Key, n: nat, e: Event, p: PathValue, d: Data)
    requires e == AfterGet ==> d.found || NoDefaults(m, segs, n)
    ensures Forbidden(m, segs, n, e, p) ==> ProcessFrom(m, segs, n, e, p, d).Err?
    ensures !Forbidden(m, segs, n, e, p) ==>
              ProcessFrom(m, segs, n, e, p, d) == Lift(Dispatch(Chain(m, segs, n, e), p, d.v, d.found), d.found)
    decreases |segs| - n
  {
    if n > |segs| {
    } else {
      var here := if segs[..n] in m then m[segs[..n]].events.At(e) else [];
      DispatchSum(here, Chain(m, segs, n + 1, e), p, d.v, d.found);
      var step := Visit(m, segs[..n], e, p, d);
      if step.Ok? {
        PipelineIsDispatch(m, segs, n + 1, e, p, step.value);
      }
    }
  }

  /** Where the first forbidding prefix is the i-th, the observers of the shorter prefixes still
      run; if none of them fails, the error is NotAllowed. */
  lemma {:induction false} FirstForbidding(m: Meta, segs: Key, n: nat, p: PathValue, d: Data, i: nat)
    requires n <= i <= |segs| && segs[..i] in m && Forbids(m[segs[..i]], BeforeSet, p)
    requires forall j | n <= j < i && segs[..j] in m :: !Forbids(m[segs[..j]], BeforeSet, p)
    requires i > 0
    ensures ProcessFrom(m, segs, n, BeforeSet, p, d) ==
              match Dispatch(Chain(m, segs[..i - 1], n, BeforeSet), p, d.v, d.found)
              case Err(e) => Err(e)
              case Ok(_) => Err(NotAllowed)
    decreases |segs| - n
  {
    if n == i {
    } else {
      var short := segs[..i - 1];
      assert short[..n] == segs[..n];
      var here := if segs[..n] in m then m[segs[..n]].events.At(BeforeSet) else [];
      DispatchSum(here, Chain(m, short, n + 1, BeforeSet), p, d.v, d.found);
      var step := Visit(m, segs[..n], BeforeSet, p, d);
      if step.Ok? {
        FirstForbidding(m, segs, n + 1, p, step.value, i);
      }
    }
  }
}

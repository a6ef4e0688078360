/** Keys of the route trie (config/route_trie.go): building them from a route and a
    scope, and cutting them into slash segments. */
module RouteKey {
  import opened Decimal
  import Scope

  // A key as the list of its segments, for example ["/a", "/b"] for "/a/b".
  type Key = seq<string>

  predicate NoSlash(s: string, from: nat, to: nat)
    requires from <= to <= |s|
  {
    forall k | from <= k < to :: s[k] != '/'
  }

  /** strings.IndexRune(s[from:], '/') + from, or -1 */
  function IndexSlash(s: string, from: nat): (i: int)
    requires from <= |s|
    ensures i == -1 || from <= i < |s|
    ensures i == -1 ==> NoSlash(s, from, |s|)
    ensures i != -1 ==> s[i] == '/' && NoSlash(s, from, i)
    decreases |s| - from
  {
    if from == |s| then -1
    else if s[from] == '/' then from
    else IndexSlash(s, from + 1)
  }

  /** The segment of `path` that begins at `start` and the position of the next one, or -1. */
  function SegmentRoute(path: string, start: int): (r: (string, int))
    ensures r.1 != -1 ==> 0 <= start < r.1 < |path| && path[r.1] == '/'
    ensures 0 <= start < |path| ==>
              var end := if r.1 == -1 then |path| else r.1;
              r.0 == path[start..end] && NoSlash(path, start + 1, end)
  {
    if |path| == 0 || start < 0 || start > |path| - 1 then ("", -1)
    else
      var end := IndexSlash(path, start + 1);
      if end == -1 then (path[start..], -1) else (path[start..end], end)
  }

  /** All segments from `start` on: what the successive SegmentRoute calls of every trie
      operation deliver. */
  function SegmentsFrom(path: string, start: nat): (segs: Key)
    requires start < |path| || (path == "" && start == 0)
    ensures |segs| > 0
    decreases |path| - start
  {
    var (part, next) := SegmentRoute(path, start);
    [part] + if next == -1 then [] else SegmentsFrom(path, next)
  }

  function Segments(path: string): (segs: Key)
    ensures |segs| > 0
  {
    SegmentsFrom(path, 0)
  }

  function Concat(segs: Key): string {
    if segs == [] then "" else segs[0] + Concat(segs[1..])
  }

  predicate IsSegment(s: string) {
    |s| > 0 && s[0] == '/' && NoSlash(s, 1, |s|)
  }

  predicate WellFormed(segs: Key) {
    forall i | 0 <= i < |segs| :: IsSegment(segs[i])
  }

  predicate Canonical(key: string) { |key| > 0 && key[0] == '/' }

  /** buildTrieKey: a leading slash, and the scope behind the route for websites and stores.
      The slash before the scope is written even if the packed id is out of range and
      nothing follows it. */
  function BuildTrieKey(key: string, scp: Scope.TypeID): (r: string)
    ensures Canonical(r)
  {
    var rooted := if |key| > 0 && key[0] == '/' then key else "/" + key;
    if !Scope.IsWebsiteOrStore(Scope.TypeOf(scp)) then rooted
    else rooted + "/" + Scope.Human(scp)
  }

  /** One round of the loop that every trie operation runs over the segments of a key. */
  lemma SegmentStep(path: string, start: nat, segs: Key, n: nat)
    requires start < |path| && n < |segs| && segs[n..] == SegmentsFrom(path, start)
    ensures var (part, next) := SegmentRoute(path, start);
            part == segs[n] &&
            if next == -1 then n + 1 == |segs|
            else n + 1 < |segs| && segs[n + 1..] == SegmentsFrom(path, next)
  {
    var (part, next) := SegmentRoute(path, start);
    assert segs[n..][0] == part;
    assert segs[n + 1..] == segs[n..][1..];
    if next != -1 { assert segs[n..][1..] == SegmentsFrom(path, next); }
  }

  lemma ConcatCons(s: string, rest: Key)
    ensures Concat([s] + rest) == s + Concat(rest)
  {
    assert ([s] + rest)[1..] == rest;
  }

  lemma ConcatNone()
    ensures Concat([]) == ""
  {
  }

  /** Cutting is lossless. */
  lemma {:induction false} SegmentsLossless(path: string, start: nat)
    requires start < |path| || (path == "" && start == 0)
    ensures Concat(SegmentsFrom(path, start)) == path[start..]
    decreases |path| - start
  {
    hide Concat, NoSlash, IndexSlash;
    var (part, next) := SegmentRoute(path, start);
    var rest := if next == -1 then [] else SegmentsFrom(path, next);
    ConcatCons(part, rest);
    ConcatNone();
    if next == -1 {
    } else {
      SegmentsLossless(path, next);
      assert path[start..] == path[start..next] + path[next..];
    }
  }

  /** Every segment of a canonical key has its only slash at the front. */
  lemma {:induction false} SegmentsWellFormed(path: string, start: nat)
    requires start < |path| && path[start] == '/'
    ensures WellFormed(SegmentsFrom(path, start))
    decreases |path| - start
  {
    var (part, next) := SegmentRoute(path, start);
    assert forall k | 0 <= k < |part| :: part[k] == path[start + k];
    if next == -1 {
    } else {
      SegmentsWellFormed(path, next);
    }
  }

  /** A well-formed segment list is recovered from its concatenation, so segment lists
      and canonical keys correspond one to one. */
  lemma {:induction false} SegmentsOfConcat(path: string, start: nat, segs: Key)
    requires WellFormed(segs) && segs != []
    requires start <= |path| && path[start..] == Concat(segs)
    ensures start < |path| && SegmentsFrom(path, start) == segs
    decreases |segs|
  {
    var head, rest := segs[0], segs[1..];
    assert IsSegment(head);
    var next := start + |head|;
    assert path[start..] == head + Concat(rest);
    assert path[next..] == Concat(rest);
    assert forall k | 0 <= k < |head| :: path[start..][k] == head[k];
    assert path[start..next] == head;
    assert NoSlash(path, start + 1, next);
    if rest == [] {
      assert IndexSlash(path, start + 1) == -1;
    } else {
      SegmentsOfConcat(path, next, rest);
      StartsWithSlash(rest);
      FirstSlash(path, start + 1, next);
    }
  }

  lemma StartsWithSlash(segs: Key)
    requires WellFormed(segs) && segs != []
    ensures |Concat(segs)| > 0 && Concat(segs)[0] == '/'
  {
    assert IsSegment(segs[0]);
  }

  lemma FirstSlash(s: string, from: nat, i: nat)
    requires from <= i < |s| && s[i] == '/' && NoSlash(s, from, i)
    ensures IndexSlash(s, from) == i
  {
    var j := IndexSlash(s, from);
    assert j != -1;
  }

  /** Canonical keys are equal exactly when their segments are. */
  lemma SegmentsInjective(a: string, b: string)
    requires Segments(a) == Segments(b)
    ensures a == b
  {
    SegmentsLossless(a, 0);
    SegmentsLossless(b, 0);
  }

  /** Joining two canonical keys joins their segment lists. */
  lemma SegmentsOfJoin(a: string, b: string)
    requires Canonical(a) && Canonical(b)
    ensures Segments(a + b) == Segments(a) + Segments(b)
  {
    SegmentsWellFormed(a, 0);
    SegmentsWellFormed(b, 0);
    SegmentsLossless(a, 0);
    SegmentsLossless(b, 0);
    ConcatOfSum(Segments(a), Segments(b));
    SegmentsOfConcat(a + b, 0, Segments(a) + Segments(b));
  }

  lemma {:induction false} ConcatOfSum(a: Key, b: Key)
    ensures Concat(a + b) == Concat(a) + Concat(b)
  {
    if a == [] {
      assert a + b == b;
    } else {
      ConcatOfSum(a[1..], b);
      ConcatCons(a[0], a[1..] + b);
      assert a + b == [a[0]] + (a[1..] + b);
      assert a[0] + (Concat(a[1..]) + Concat(b)) == a[0] + Concat(a[1..]) + Concat(b);
    }
  }

  lemma TwoSegments(s: string, i: string)
    requires IsSegment(s) && IsSegment(i)
    ensures Segments(s + i) == [s, i]
  {
    ConcatCons(i, []);
    ConcatCons(s, [i]);
    assert [s] + [i] == [s, i] && [i] + [] == [i];
    SegmentsOfConcat(s + i, 0, [s, i]);
  }

  /** The two segments of a website or store scope, none for every other scope. */
  function ScopeSegments(scp: Scope.TypeID): Key
    requires Scope.ValidTypeID(scp)
  {
    var (t, id) := Scope.Unpack(scp);
    if Scope.IsWebsiteOrStore(t) then ["/" + Scope.StrType(t), "/" + Print(id)] else []
  }

  lemma SlashWord(w: string)
    requires NoSlash(w, 0, |w|)
    ensures IsSegment("/" + w)
  {
    assert forall k | 1 <= k < |w| + 1 :: ("/" + w)[k] == w[k - 1];
  }

  lemma HumanSegments(scp: Scope.TypeID)
    requires Scope.ValidTypeID(scp) && Scope.IsWebsiteOrStore(Scope.TypeOf(scp))
    ensures Segments("/" + Scope.Human(scp)) == ScopeSegments(scp)
  {
    hide Print, Segments, SegmentsFrom;
    var (t, id) := Scope.Unpack(scp);
    var name, digits := Scope.StrType(t), Print(id);
    assert NoSlash(digits, 0, |digits|) by {
      assert forall k | 0 <= k < |digits| :: IsDigit(digits[k]);
    }
    SlashWord(name);
    SlashWord(digits);
    TwoSegments("/" + name, "/" + digits);
    assert "/" + (name + "/" + digits) == ("/" + name) + ("/" + digits);
  }

  /** The scope of a website or store path adds exactly two segments to its route's key. */
  lemma ScopedKeySegments(key: string, scp: Scope.TypeID)
    requires Scope.ValidTypeID(scp)
    ensures Segments(BuildTrieKey(key, scp)) == Segments(BuildTrieKey(key, 0)) + ScopeSegments(scp)
  {
    hide Segments, SegmentsFrom, Scope.Human, NoSlash;
    var bare := BuildTrieKey(key, 0);
    if Scope.IsWebsiteOrStore(Scope.TypeOf(scp)) {
      HumanSegments(scp);
      SegmentsOfJoin(bare, "/" + Scope.Human(scp));
      assert BuildTrieKey(key, scp) == bare + ("/" + Scope.Human(scp));
    }
  }

  /** Different scopes lead to different keys below the same route. */
  lemma ScopeSegmentsInjective(a: Scope.TypeID, b: Scope.TypeID)
    requires Scope.ValidTypeID(a) && Scope.ValidTypeID(b)
    requires ScopeSegments(a) == ScopeSegments(b) != []
    ensures a == b
  {
    var (s, i) := Scope.Unpack(a);
    var (t, j) := Scope.Unpack(b);
    assert ("/" + Print(i))[1..] == Print(i) && ("/" + Print(j))[1..] == Print(j);
    PrintInjective(i, j);
    assert ("/" + Scope.StrType(s))[1] == ("/" + Scope.StrType(t))[1];
    Scope.UnpackRoundTrip(a);
    Scope.UnpackRoundTrip(b);
  }

  /** A website or store scope whose id is out of range adds one empty segment. */
  lemma BrokenScopeSegments(key: string, scp: Scope.TypeID)
    requires Scope.IsWebsiteOrStore(Scope.TypeOf(scp)) && scp % 0x100_0000 > Scope.MAX_ID
    ensures Segments(BuildTrieKey(key, scp)) == Segments(BuildTrieKey(key, 0)) + ["/"]
  {
    hide Segments, SegmentsFrom;
    var bare := BuildTrieKey(key, 0);
    SegmentsOfJoin(bare, "/");
    assert Segments("/") == ["/"] by { LoneSlash(); }
    assert BuildTrieKey(key, scp) == bare + "/" + "" == bare + "/";
  }

  lemma LoneSlash()
    ensures Segments("/") == ["/"]
  {
  }
}

/** Merging one list into another by id: what Sections, Groups and Fields of
    config/elements.go have in common. */
module KeyedMerge {
  import opened Common

  /** id:     the id of an element
      blank:  whether an element with an empty id can be found
      first:  what is stored for an id that was not there
      absorb: what a stored element becomes when one of the same id is merged into it */
  datatype Level<!T(!new)> = Level(id: T -> string, blank: bool, first: T -> T, absorb: (T, T) -> T) {
    ghost predicate KeepsIDs() {
      && (forall x :: id(first(x)) == id(x))
      && (forall x, y | id(x) == id(y) :: id(absorb(x, y)) == id(x))
    }

    predicate Findable(key: string) { blank || key != "" }
  }

  function IndexFrom<T(!new)>(l: Level<T>, xs: seq<T>, key: string, from: nat): (i: int)
    requires from <= |xs|
    ensures i == -1 ||
            (from <= i < |xs| && l.Findable(key) && l.id(xs[i]) == key &&
              forall k | from <= k < i :: l.id(xs[k]) != key)
    ensures i == -1 ==> !l.Findable(key) || forall k | from <= k < |xs| :: l.id(xs[k]) != key
    decreases |xs| - from
  {
    if from == |xs| then -1
    else if l.Findable(l.id(xs[from])) && l.id(xs[from]) == key then from
    else IndexFrom(l, xs, key, from + 1)
  }

  /** Position of the first element with the id, or -1. */
  function Index<T(!new)>(l: Level<T>, xs: seq<T>, key: string): (i: int)
    ensures i == -1 ||
            (0 <= i < |xs| && l.Findable(key) && l.id(xs[i]) == key && forall k | 0 <= k < i :: l.id(xs[k]) != key)
    ensures i == -1 ==> !l.Findable(key) || forall k | 0 <= k < |xs| :: l.id(xs[k]) != key
  {
    IndexFrom(l, xs, key, 0)
  }

  function At<T(!new)>(l: Level<T>, xs: seq<T>, key: string): Option<T> {
    var i := Index(l, xs, key);
    if i == -1 then None else Some(xs[i])
  }

  function MergeOne<T(!new)>(l: Level<T>, xs: seq<T>, x: T): seq<T> {
    var i := Index(l, xs, l.id(x));
    if i == -1 then xs + [l.first(x)] else xs[i := l.absorb(xs[i], x)]
  }

  function Merge<T(!new)>(l: Level<T>, xs: seq<T>, more: seq<T>): seq<T> {
    if more == [] then xs else MergeOne(l, Merge(l, xs, more[..|more| - 1]), more[|more| - 1])
  }

  /** The elements with the id, in order. */
  function Having<T(!new)>(l: Level<T>, xs: seq<T>, key: string): seq<T> {
    if xs == [] then []
    else
      var before := Having(l, xs[..|xs| - 1], key);
      if l.id(xs[|xs| - 1]) == key then before + [xs[|xs| - 1]] else before
  }

  function Absorbed<T(!new)>(l: Level<T>, o: Option<T>, x: T): Option<T> {
    Some(if o.None? then l.first(x) else l.absorb(o.value, x))
  }

  /** The stored element after absorbing the given ones one after the other. */
  function Fold<T(!new)>(l: Level<T>, o: Option<T>, xs: seq<T>): Option<T> {
    if xs == [] then o else Absorbed(l, Fold(l, o, xs[..|xs| - 1]), xs[|xs| - 1])
  }

  lemma MergeOneAt<T(!new)>(l: Level<T>, xs: seq<T>, x: T, key: string)
    requires l.KeepsIDs() && l.Findable(key)
    ensures At(l, MergeOne(l, xs, x), key) == if l.id(x) == key then Absorbed(l, At(l, xs, key), x) else At(l, xs, key)
  {
    var ys := MergeOne(l, xs, x);
    var i, j := Index(l, xs, l.id(x)), Index(l, xs, key);
    assert forall k | 0 <= k < |xs| :: l.id(ys[k]) == l.id(xs[k]);
    if i == -1 { assert l.id(ys[|xs|]) == l.id(x); }
    var n := Index(l, ys, key);
    if j != -1 { assert l.id(ys[j]) == key; }
  }

  /** Merging is looking up and folding: what is stored under an id after a merge is what was
      stored before, having absorbed exactly the merged elements with that id, in order. */
  lemma {:induction false} MergeAt<T(!new)>(l: Level<T>, xs: seq<T>, more: seq<T>, key: string)
    requires l.KeepsIDs() && l.Findable(key)
    ensures At(l, Merge(l, xs, more), key) == Fold(l, At(l, xs, key), Having(l, more, key))
  {
    if more == [] {
    } else {
      var before, x := more[..|more| - 1], more[|more| - 1];
      MergeAt(l, xs, before, key);
      MergeOneAt(l, Merge(l, xs, before), x, key);
      if l.id(x) == key { assert (Having(l, before, key) + [x])[..|Having(l, before, key)|] == Having(l, before, key); }
    }
  }

  ghost predicate Unique<T(!new)>(l: Level<T>, xs: seq<T>) {
    forall i, j | 0 <= i < j < |xs| :: l.id(xs[i]) != l.id(xs[j])
  }

  lemma UniqueAt<T(!new)>(l: Level<T>, xs: seq<T>, i: nat)
    requires Unique(l, xs) && i < |xs| && l.Findable(l.id(xs[i]))
    ensures At(l, xs, l.id(xs[i])) == Some(xs[i])
  {
    var j := Index(l, xs, l.id(xs[i]));
  }

  lemma MergeOneUnique<T(!new)>(l: Level<T>, xs: seq<T>, x: T)
    requires l.KeepsIDs() && l.Findable(l.id(x))
    ensures Unique(l, MergeOne(l, xs, x)) <==> Unique(l, xs)
  {
    var ys := MergeOne(l, xs, x);
    assert forall k | 0 <= k < |xs| :: l.id(ys[k]) == l.id(xs[k]);
    if Index(l, xs, l.id(x)) == -1 { assert l.id(ys[|xs|]) == l.id(x); }
    if Unique(l, ys) {
      forall i, j | 0 <= i < j < |xs| ensures l.id(xs[i]) != l.id(xs[j]) {
        assert l.id(ys[i]) != l.id(ys[j]);
      }
    }
  }

  /** A merge neither introduces nor repairs repeated ids. */
  lemma {:induction false} MergeUnique<T(!new)>(l: Level<T>, xs: seq<T>, more: seq<T>)
    requires l.KeepsIDs() && forall x | x in more :: l.Findable(l.id(x))
    ensures Unique(l, Merge(l, xs, more)) <==> Unique(l, xs)
  {
    if more == [] {
    } else {
      MergeUnique(l, xs, more[..|more| - 1]);
      assert more[|more| - 1] in more;
      MergeOneUnique(l, Merge(l, xs, more[..|more| - 1]), more[|more| - 1]);
    }
  }

  lemma {:induction false} FoldSum<T(!new)>(l: Level<T>, o: Option<T>, a: seq<T>, b: seq<T>)
    ensures Fold(l, o, a + b) == Fold(l, Fold(l, o, a), b)
  {
    if b == [] {
      assert a + b == a;
    } else {
      FoldSum(l, o, a, b[..|b| - 1]);
      assert (a + b)[..|a + b| - 1] == a + b[..|b| - 1];
    }
  }

  lemma {:induction false} FoldSome<T(!new)>(l: Level<T>, o: Option<T>, xs: seq<T>)
    ensures Fold(l, o, xs).Some? <==> o.Some? || xs != []
  {
    if xs == [] {
    } else {
      FoldSome(l, o, xs[..|xs| - 1]);
    }
  }

  /** Folding from the first element on, when storing an element and merging it into itself
      is the same as keeping it. */
  lemma {:induction false} FoldFirst<T(!new)>(l: Level<T>, xs: seq<T>)
    requires xs != [] && l.first(xs[0]) == xs[0] && l.absorb(xs[0], xs[0]) == xs[0]
    ensures Fold(l, Some(xs[0]), xs) == Fold(l, None, xs)
  {
    if |xs| == 1 {
      assert xs[..0] == [];
    } else {
      assert xs[..|xs| - 1][0] == xs[0];
      FoldFirst(l, xs[..|xs| - 1]);
    }
  }

  lemma {:induction false} HavingFirst<T(!new)>(l: Level<T>, xs: seq<T>, key: string)
    requires l.Findable(key)
    ensures At(l, xs, key) == if Having(l, xs, key) == [] then None else Some(Having(l, xs, key)[0])
  {
    if xs == [] {
    } else {
      var before := xs[..|xs| - 1];
      HavingFirst(l, before, key);
      var i, j := Index(l, before, key), Index(l, xs, key);
      assert forall k | 0 <= k < |before| :: before[k] == xs[k];
      if i != -1 { assert l.id(xs[i]) == key; }
      if j != -1 && j < |before| { assert l.id(before[j]) == key; }
    }
  }

  lemma {:induction false} HavingAre<T(!new)>(l: Level<T>, xs: seq<T>, key: string)
    ensures forall x :: x in Having(l, xs, key) <==> x in xs && l.id(x) == key
  {
    if xs == [] {
    } else {
      HavingAre(l, xs[..|xs| - 1], key);
      assert xs == xs[..|xs| - 1] + [xs[|xs| - 1]];
    }
  }

  // ---- elements that are never found ----

  lemma {:induction false} HavingSame<T(!new)>(l: Level<T>, xs: seq<T>, ys: seq<T>, key: string)
    requires |xs| == |ys|
    requires forall k | 0 <= k < |xs| :: l.id(xs[k]) == l.id(ys[k]) && (l.id(xs[k]) == key ==> xs[k] == ys[k])
    ensures Having(l, xs, key) == Having(l, ys, key)
  {
    if xs == [] {
    } else {
      HavingSame(l, xs[..|xs| - 1], ys[..|ys| - 1], key);
    }
  }

  lemma HavingNext<T(!new)>(l: Level<T>, xs: seq<T>, x: T, key: string)
    ensures Having(l, xs + [x], key) == Having(l, xs, key) + if l.id(x) == key then [x] else []
  {
    assert (xs + [x])[..|xs|] == xs;
  }

  /** The elements stored for new ids. */
  function Firsts<T(!new)>(l: Level<T>, xs: seq<T>): seq<T> {
    if xs == [] then [] else Firsts(l, xs[..|xs| - 1]) + [l.first(xs[|xs| - 1])]
  }

  lemma MergeOneUnnamed<T(!new)>(l: Level<T>, xs: seq<T>, x: T)
    requires l.KeepsIDs() && !l.blank
    ensures Having(l, MergeOne(l, xs, x), "") == Having(l, xs, "") + if l.id(x) == "" then [l.first(x)] else []
  {
    var i := Index(l, xs, l.id(x));
    if i == -1 {
      HavingNext(l, xs, l.first(x), "");
    } else {
      HavingSame(l, xs, MergeOne(l, xs, x), "");
    }
  }

  /** Where an empty id cannot be found, every merged element without id is stored once more. */
  lemma {:induction false} UnnamedPileUp<T(!new)>(l: Level<T>, xs: seq<T>, more: seq<T>)
    requires l.KeepsIDs() && !l.blank
    ensures Having(l, Merge(l, xs, more), "") == Having(l, xs, "") + Firsts(l, Having(l, more, ""))
  {
    if more == [] {
    } else {
      var before, x := more[..|more| - 1], more[|more| - 1];
      UnnamedPileUp(l, xs, before);
      MergeOneUnnamed(l, Merge(l, xs, before), x);
      var had := Having(l, before, "");
      if l.id(x) == "" { assert (had + [x])[..|had|] == had; }
    }
  }

  lemma {:induction false} FirstsLength<T(!new)>(l: Level<T>, xs: seq<T>)
    ensures |Firsts(l, xs)| == |xs|
    ensures forall k | 0 <= k < |xs| :: Firsts(l, xs)[k] == l.first(xs[k])
  {
    if xs == [] {
    } else {
      FirstsLength(l, xs[..|xs| - 1]);
    }
  }

  lemma FirstsSum<T(!new)>(l: Level<T>, a: seq<T>, b: seq<T>)
    ensures Firsts(l, a + b) == Firsts(l, a) + Firsts(l, b)
  {
    hide Firsts;
    FirstsLength(l, a + b);
    FirstsLength(l, a);
    FirstsLength(l, b);
  }

  lemma {:induction false} UniqueHaving<T(!new)>(l: Level<T>, xs: seq<T>, key: string)
    requires Unique(l, xs)
    ensures |Having(l, xs, key)| <= 1
  {
    if xs == [] {
    } else {
      var before, x := xs[..|xs| - 1], xs[|xs| - 1];
      UniqueHaving(l, before, key);
      HavingAre(l, before, key);
      if Having(l, before, key) != [] {
        var y := Having(l, before, key)[0];
        assert y in Having(l, before, key);
        var k :| 0 <= k < |before| && before[k] == y;
        assert l.id(xs[k]) != l.id(x);
      }
    }
  }

  lemma MergeOneUniqueIff<T(!new)>(l: Level<T>, xs: seq<T>, x: T)
    requires l.KeepsIDs()
    ensures Unique(l, MergeOne(l, xs, x)) <==>
              Unique(l, xs) && (l.Findable(l.id(x)) || Having(l, xs, "") == [])
  {
    if l.Findable(l.id(x)) {
      MergeOneUnique(l, xs, x);
    } else {
      HavingAre(l, xs, "");
      var ys := xs + [l.first(x)];
      assert forall k | 0 <= k < |xs| :: ys[k] == xs[k];
      if Unique(l, ys) {
        forall k | 0 <= k < |xs| ensures l.id(xs[k]) != "" { assert l.id(ys[k]) != l.id(ys[|xs|]); }
        forall i, j | 0 <= i < j < |xs| ensures l.id(xs[i]) != l.id(xs[j]) { assert l.id(ys[i]) != l.id(ys[j]); }
      } else if Having(l, xs, "") == [] {
        assert forall k | 0 <= k < |xs| :: l.id(xs[k]) != "" by {
          forall k | 0 <= k < |xs| ensures l.id(xs[k]) != "" { assert xs[k] in xs && xs[k] !in Having(l, xs, ""); }
        }
      }
    }
  }

  /** Ids are unique after a merge exactly if they were before, and, where an empty id cannot be
      found, at most one element without id is stored or merged. */
  lemma {:induction false} MergeUniqueIff<T(!new)>(l: Level<T>, xs: seq<T>, more: seq<T>)
    requires l.KeepsIDs()
    ensures Unique(l, Merge(l, xs, more)) <==>
              Unique(l, xs) && (l.blank || |Having(l, xs, "")| + |Having(l, more, "")| <= 1)
  {
    hide Unique;
    if more == [] {
      if Unique(l, xs) { UniqueHaving(l, xs, ""); }
    } else {
      var before, x := more[..|more| - 1], more[|more| - 1];
      var ys := Merge(l, xs, before);
      MergeUniqueIff(l, xs, before);
      MergeOneUniqueIff(l, ys, x);
      if !l.blank {
        UnnamedPileUp(l, xs, before);
        FirstsLength(l, Having(l, before, ""));
      }
    }
  }

  // ---- order ----

  /** What is stored keeps its place; what is new goes behind. */
  lemma {:induction false} PlacesStay<T(!new)>(l: Level<T>, xs: seq<T>, more: seq<T>)
    requires l.KeepsIDs()
    ensures |xs| <= |Merge(l, xs, more)| && forall k | 0 <= k < |xs| :: l.id(Merge(l, xs, more)[k]) == l.id(xs[k])
  {
    if more == [] {
    } else {
      PlacesStay(l, xs, more[..|more| - 1]);
    }
  }

  lemma {:induction false} MergeSum<T(!new)>(l: Level<T>, xs: seq<T>, a: seq<T>, b: seq<T>)
    ensures Merge(l, xs, a + b) == Merge(l, Merge(l, xs, a), b)
    decreases |b|
  {
    hide MergeOne;
    if b == [] {
      assert a + b == a;
    } else {
      assert (a + b)[..|a + b| - 1] == a + b[..|b| - 1];
      MergeSum(l, xs, a, b[..|b| - 1]);
    }
  }

  lemma FoundStays<T(!new)>(l: Level<T>, xs: seq<T>, more: seq<T>, key: string)
    requires l.KeepsIDs() && Index(l, xs, key) != -1
    ensures Index(l, Merge(l, xs, more), key) == Index(l, xs, key)
  {
    hide Merge;
    PlacesStay(l, xs, more);
    var i := Index(l, xs, key);
    assert l.id(Merge(l, xs, more)[i]) == key;
  }

  lemma {:induction false} NotFoundYet<T(!new)>(l: Level<T>, xs: seq<T>, more: seq<T>, key: string)
    requires l.KeepsIDs() && l.Findable(key) && Index(l, xs, key) == -1 && forall x | x in more :: l.id(x) != key
    ensures Index(l, Merge(l, xs, more), key) == -1
  {
    if more == [] {
    } else {
      var before, x := more[..|more| - 1], more[|more| - 1];
      NotFoundYet(l, xs, before, key);
      MergeOneAt(l, Merge(l, xs, before), x, key);
    }
  }

  /** A new id, first merged with the j-th element, is stored at the end of what was there by then. */
  lemma StoredAtEnd<T(!new)>(l: Level<T>, xs: seq<T>, more: seq<T>, j: nat)
    requires l.KeepsIDs() && j < |more| && l.Findable(l.id(more[j])) && Index(l, xs, l.id(more[j])) == -1
    requires forall k | 0 <= k < j :: l.id(more[k]) != l.id(more[j])
    ensures Index(l, Merge(l, xs, more), l.id(more[j])) == |Merge(l, xs, more[..j])|
  {
    var before, x := Merge(l, xs, more[..j]), more[j];
    NotFoundYet(l, xs, more[..j], l.id(x));
    assert more[..j + 1][..j] == more[..j] && more == more[..j + 1] + more[j + 1..];
    var now := Merge(l, xs, more[..j + 1]);
    assert now == before + [l.first(x)];
    hide Merge;
    assert l.id(now[|before|]) == l.id(x) && forall k | 0 <= k < |before| :: now[k] == before[k];
    assert Index(l, now, l.id(x)) == |before|;
    FoundStays(l, now, more[j + 1..], l.id(x));
    MergeSum(l, xs, more[..j + 1], more[j + 1..]);
  }

  /** New ids are stored in the order in which they first come, behind all old ones. */
  lemma MergedOrder<T(!new)>(l: Level<T>, xs: seq<T>, more: seq<T>, i: nat, j: nat)
    requires l.KeepsIDs() && i < j < |more|
    requires forall n | n in {i, j} :: l.Findable(l.id(more[n])) && Index(l, xs, l.id(more[n])) == -1 &&
               forall k | 0 <= k < n :: l.id(more[k]) != l.id(more[n])
    ensures |xs| <= Index(l, Merge(l, xs, more), l.id(more[i])) < Index(l, Merge(l, xs, more), l.id(more[j]))
  {
    hide Merge;
    assert i in {i, j} && j in {i, j};
    StoredAtEnd(l, xs, more, i);
    StoredAtEnd(l, xs, more, j);
    PlacesStay(l, xs, more[..i]);
    GrowsBy(l, xs, more, i, j);
  }

  lemma GrowsBy<T(!new)>(l: Level<T>, xs: seq<T>, more: seq<T>, i: nat, j: nat)
    requires l.KeepsIDs() && i < j < |more| && l.Findable(l.id(more[i])) && Index(l, xs, l.id(more[i])) == -1
    requires forall k | 0 <= k < i :: l.id(more[k]) != l.id(more[i])
    ensures |Merge(l, xs, more[..i])| < |Merge(l, xs, more[..j])|
  {
    assert more[..j][..i] == more[..i] && more[..j][i] == more[i];
    hide Merge;
    StoredAtEnd(l, xs, more[..j], i);
  }
}

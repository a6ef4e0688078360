/** The packed dictionary index of i18n/currency_dict.go: sorted tags of two, three and four bytes,
    one string per width, searched by bisection. */
module TagIndex {

  /** Go's byte-wise string order. */
  predicate Less(a: string, b: string) {
    if b == "" then false
    else if a == "" then true
    else a[0] < b[0] || (a[0] == b[0] && Less(a[1..], b[1..]))
  }

  lemma {:induction false} LessIsTotal(a: string, b: string)
    ensures !Less(a, b) && !Less(b, a) ==> a == b
    ensures !(Less(a, b) && Less(b, a))
  {
    if a == "" || b == "" {
    } else {
      LessIsTotal(a[1..], b[1..]);
      assert a == [a[0]] + a[1..] && b == [b[0]] + b[1..];
    }
  }

  lemma {:induction false} LessIsTransitive(a: string, b: string, c: string)
    requires Less(a, b) && Less(b, c)
    ensures Less(a, c)
  {
    if a == "" || a[0] < b[0] || b[0] < c[0] {
    } else {
      LessIsTransitive(a[1..], b[1..], c[1..]);
    }
  }

  lemma Fits(k: nat, w: nat, n: nat)
    requires w > 0 && k < n / w
    ensures 0 <= k * w && k * w + w <= n
  {
    assert k + 1 <= n / w;
    assert (k + 1) * w <= (n / w) * w by { Monotone(k + 1, n / w, w); }
    assert n == (n / w) * w + n % w;
  }

  lemma Monotone(a: nat, b: nat, w: nat)
    requires a <= b
    ensures a * w <= b * w
  {
  }

  /** The k-th tag of width w. */
  function Tag(a: string, w: nat, k: nat): (tag: string)
    requires w > 0 && k < |a| / w
    ensures |tag| == w
  {
    Fits(k, w, |a|);
    a[k * w..k * w + w]
  }

  function Tags(a: string, w: nat): (ts: seq<string>)
    requires w > 0
    ensures |ts| == |a| / w && forall k | 0 <= k < |ts| :: ts[k] == Tag(a, w, k)
  {
    seq(|a| / w, k requires 0 <= k < |a| / w => Tag(a, w, k))
  }

  /** Whole tags only, strictly sorted. */
  ghost predicate Sorted(a: string, w: nat)
    requires w > 0
  {
    && |a| % w == 0
    && forall i, j | 0 <= i < j < |a| / w :: Less(Tag(a, w, i), Tag(a, w, j))
  }

  /** One string for each of the widths 2, 3 and 4. */
  ghost predicate WellFormed(t: seq<string>) {
    |t| == 3 && forall i | 0 <= i < 3 :: Sorted(t[i], i + 2)
  }

  /** The tags of the first n widths. */
  function TagsUpTo(t: seq<string>, n: nat): seq<string>
    requires n <= |t|
  {
    if n == 0 then [] else TagsUpTo(t, n - 1) + Tags(t[n - 1], n + 1)
  }

  function AllTags(t: seq<string>): seq<string> { TagsUpTo(t, |t|) }

  /** sort.Search for the first tag that is not less than s. */
  method Search(a: string, w: nat, s: string) returns (index: nat)
    requires w > 0 && Sorted(a, w)
    ensures index <= |a| / w
    ensures forall k | 0 <= k < index :: Less(Tag(a, w, k), s)
    ensures index < |a| / w ==> !Less(Tag(a, w, index), s)
  {
    var i, j := 0, |a| / w;
    while i < j
      invariant 0 <= i <= j <= |a| / w
      invariant forall k | 0 <= k < i :: Less(Tag(a, w, k), s)
      invariant j < |a| / w ==> !Less(Tag(a, w, j), s)
    {
      var h := (i + j) / 2;
      Fits(h, w, |a|);
      if Less(a[h * w..h * w + w], s) {
        forall k | 0 <= k < h ensures Less(Tag(a, w, k), s) { LessIsTransitive(Tag(a, w, k), Tag(a, w, h), s); }
        i := h + 1;
      } else {
        j := h;
      }
    }
    index := i;
  }

  lemma {:induction false} TagsOfWidth(t: seq<string>, n: nat, m: nat)
    requires n <= m <= |t|
    ensures TagsUpTo(t, n) <= TagsUpTo(t, m)
    ensures forall i | |TagsUpTo(t, n)| <= i < |TagsUpTo(t, m)| :: n + 2 <= |TagsUpTo(t, m)[i]| <= m + 1
    ensures forall i | 0 <= i < |TagsUpTo(t, n)| :: 2 <= |TagsUpTo(t, n)[i]| <= n + 1
    decreases m, n
  {
    if n < m {
      TagsOfWidth(t, n, m - 1);
    } else if n == 0 {
    } else {
      TagsOfWidth(t, n - 1, n - 1);
    }
  }

  /** Where the k-th tag of a width stands among all tags. */
  lemma PlaceOf(t: seq<string>, n: nat, k: nat)
    requires n < |t| && k < |t[n]| / (n + 2)
    ensures |TagsUpTo(t, n)| + k < |AllTags(t)| && AllTags(t)[|TagsUpTo(t, n)| + k] == Tag(t[n], n + 2, k)
  {
    TagsOfWidth(t, n + 1, |t|);
    assert TagsUpTo(t, n + 1)[|TagsUpTo(t, n)| + k] == Tags(t[n], n + 2)[k];
  }

  lemma {:induction false} WidthOf(t: seq<string>, n: nat, i: nat) returns (m: nat, k: nat)
    requires n <= |t| && i < |TagsUpTo(t, n)|
    ensures m < n && k < |t[m]| / (m + 2) && TagsUpTo(t, n)[i] == Tag(t[m], m + 2, k) && i == |TagsUpTo(t, m)| + k
  {
    var before := |TagsUpTo(t, n - 1)|;
    if i < before {
      m, k := WidthOf(t, n - 1, i);
    } else {
      m, k := n - 1, i - before;
      assert Tags(t[m], m + 2)[k] == Tag(t[m], m + 2, k);
    }
  }

  /** No tag is listed twice. */
  lemma TagsAreDistinct(t: seq<string>, i: nat, j: nat)
    requires WellFormed(t) && i < j < |AllTags(t)|
    ensures AllTags(t)[i] != AllTags(t)[j]
  {
    var m, k := WidthOf(t, 3, i);
    var m', k' := WidthOf(t, 3, j);
    if m == m' {
      assert Less(Tag(t[m], m + 2, k), Tag(t[m], m + 2, k'));
      LessIsTotal(Tag(t[m], m + 2, k), Tag(t[m], m + 2, k'));
    }
  }

  lemma Short(k: nat, w: nat, n: nat)
    requires w > 0 && n % w == 0 && n / w <= k
    ensures k * w + w > n
  {
    Monotone(n / w, k, w);
  }

  lemma TagOf(t: seq<string>, s: string)
    requires |t| == 3 && s in AllTags(t)
    ensures 2 <= |s| <= 4 && s in Tags(t[|s| - 2], |s|)
  {
    var n :| 0 <= n < |AllTags(t)| && AllTags(t)[n] == s;
    var m, k := WidthOf(t, 3, n);
    assert Tags(t[m], m + 2)[k] == s;
  }

  lemma NotThere(a: string, w: nat, s: string, index: nat)
    requires w > 0 && Sorted(a, w) && index <= |a| / w
    requires forall j | 0 <= j < index :: Less(Tag(a, w, j), s)
    requires index < |a| / w ==> !Less(Tag(a, w, index), s) && Tag(a, w, index) != s
    ensures s !in Tags(a, w)
  {
    forall k: nat | k < |a| / w ensures Tag(a, w, k) != s {
      LessIsTotal(Tag(a, w, k), s);
      if k > index {
        LessIsTotal(Tag(a, w, index), s);
        assert Less(Tag(a, w, index), Tag(a, w, k));
      }
    }
  }

  lemma NoWidth(t: seq<string>)
    ensures TagsUpTo(t, 0) == []
  {
  }

  lemma NextWidth(t: seq<string>, n: nat)
    requires n < |t|
    ensures |TagsUpTo(t, n + 1)| == |TagsUpTo(t, n)| + |t[n]| / (n + 2)
  {
  }

  lemma OnlyPlace(t: seq<string>, s: string, i: nat)
    requires WellFormed(t) && i < |AllTags(t)| && AllTags(t)[i] == s
    ensures forall place | 0 <= place < |AllTags(t)| :: i == place <==> AllTags(t)[place] == s
  {
    forall place: nat | place < |AllTags(t)| && place != i ensures AllTags(t)[place] != s {
      TagsAreDistinct(t, if i < place then i else place, if i < place then place else i);
    }
  }

  /** tagIndex.index: the place of the tag among all tags, -1 exactly if it is not there. */
  method Index(t: seq<string>, s: string) returns (i: int)
    requires WellFormed(t)
    ensures i == -1 <==> s !in AllTags(t)
    ensures i != -1 ==> 0 <= i < |AllTags(t)|
    ensures forall place | 0 <= place < |AllTags(t)| :: i == place <==> AllTags(t)[place] == s
  {
    hide TagsUpTo;
    var sz := |s|;
    if s in AllTags(t) { TagOf(t, s); }
    if sz < 2 || 4 < sz { return -1; }
    var a := t[sz - 2];
    var index := Search(a, sz, s);
    var p := index * sz;
    var end := p + sz;
    if index < |a| / sz { Fits(index, sz, |a|); } else { Short(index, sz, |a|); }
    if end > |a| || a[p..end] != s {
      NotThere(a, sz, s, index);
      return -1;
    }
    PlaceOf(t, sz - 2, index);
    i := index;
    NoWidth(t);
    for n := 0 to sz - 2
      invariant i == index + |TagsUpTo(t, n)|
    {
      i := i + |t[n]| / (n + 2);
      NextWidth(t, n);
    }
    OnlyPlace(t, s, i);
  }

  /** tagIndex.len */
  method Len(t: seq<string>) returns (n: nat)
    requires |t| == 3
    ensures n == |AllTags(t)|
  {
    n := 0;
    for i := 0 to 3
      invariant n == |TagsUpTo(t, i)|
    {
      n := n + |t[i]| / (i + 2);
    }
  }

  lemma Rest(a: string, w: nat, k: nat)
    requires w > 0 && |a| % w == 0 && k < |a| / w
    ensures k * w + w <= |a| && a[k * w..][..w] == Tag(a, w, k) && a[k * w..][w..] == a[(k + 1) * w..]
  {
    Fits(k, w, |a|);
    assert (k + 1) * w == k * w + w;
  }

  lemma AllRead(a: string, w: nat, k: nat)
    requires w > 0 && |a| % w == 0 && k <= |a| / w
    ensures k * w <= |a| && (a[k * w..] == "" <==> k == |a| / w)
  {
    if k < |a| / w { Fits(k, w, |a|); } else { assert |a| == (|a| / w) * w; }
  }

  /** tagIndex.keys: the tags its callback receives, in order. */
  method Keys(t: seq<string>) returns (keys: seq<string>)
    requires |t| == 3 && forall i | 0 <= i < 3 :: |t[i]| % (i + 2) == 0
    ensures keys == AllTags(t)
  {
    keys := [];
    for i := 0 to 3
      invariant keys == TagsUpTo(t, i)
    {
      var a, w := t[i], i + 2;
      var s := a;
      ghost var k := 0;
      assert a[0 * w..] == a;
      AllRead(a, w, 0);
      while s != ""
        invariant k <= |a| / w && k * w <= |a| && s == a[k * w..] && (s == "" <==> k == |a| / w)
        invariant keys == TagsUpTo(t, i) + Tags(a, w)[..k]
        decreases |a| / w - k
      {
        Rest(a, w, k);
        keys := keys + [s[..w]];
        s := s[w..];
        assert Tags(a, w)[..k + 1] == Tags(a, w)[..k] + [Tag(a, w, k)];
        k := k + 1;
        AllRead(a, w, k);
      }
      assert Tags(a, w)[..k] == Tags(a, w);
    }
  }

  // ---- names ----

  /** header.name on a table of offsets; a negative index would panic. */
  function Name(data: string, index: seq<nat>, i: nat): string
    requires Offsets(data, index)
  {
    if i < |index| - 1 then data[index[i]..index[i + 1]] else ""
  }

  predicate Offsets(data: string, index: seq<nat>) {
    && (forall i, j | 0 <= i < j < |index| :: index[i] <= index[j])
    && (forall i | 0 <= i < |index| :: index[i] <= |data|)
  }

  function NamesFrom(data: string, index: seq<nat>, i: nat): string
    requires Offsets(data, index)
    decreases |index| - i
  {
    if i < |index| - 1 then Name(data, index, i) + NamesFrom(data, index, i + 1) else ""
  }

  lemma JoinSlices(data: string, a: nat, b: nat, c: nat)
    requires a <= b <= c <= |data|
    ensures data[a..b] + data[b..c] == data[a..c]
  {
  }

  /** The names cut up the data without gap or overlap. */
  lemma {:induction false} NamesCutData(data: string, index: seq<nat>, i: nat)
    requires Offsets(data, index) && i < |index|
    ensures NamesFrom(data, index, i) == data[index[i]..index[|index| - 1]]
    decreases |index| - i
  {
    if i >= |index| - 1 {
    } else {
      NamesCutData(data, index, i + 1);
      JoinSlices(data, index[i], index[i + 1], index[|index| - 1]);
    }
  }

  /** The order is byte-wise: the first byte that differs decides, and a proper prefix is less. */
  lemma {:induction false} LessMeans(a: string, b: string)
    ensures Less(a, b) <==>
              a < b || exists i :: 0 <= i < |a| && i < |b| && a[..i] == b[..i] && a[i] < b[i]
  {
    if a == "" || b == "" {
    } else {
      LessMeans(a[1..], b[1..]);
      assert a == [a[0]] + a[1..] && b == [b[0]] + b[1..];
      if i :| 0 <= i < |a[1..]| && i < |b[1..]| && a[1..][..i] == b[1..][..i] && a[1..][i] < b[1..][i] {
        if a[0] == b[0] { DiffersLater(a, b, i); }
      }
      if i :| 0 <= i < |a| && i < |b| && a[..i] == b[..i] && a[i] < b[i] {
        if i > 0 { DiffersFirst(a, b, i); }
      }
    }
  }

  lemma DiffersLater(a: string, b: string, i: nat)
    requires a != "" && b != "" && a[0] == b[0] && i < |a| - 1 && i < |b| - 1 && a[1..][..i] == b[1..][..i]
    ensures a[..i + 1] == b[..i + 1] && a[i + 1] == a[1..][i] && b[i + 1] == b[1..][i]
  {
    assert a[..i + 1] == [a[0]] + a[1..][..i] && b[..i + 1] == [b[0]] + b[1..][..i];
  }

  lemma DiffersFirst(a: string, b: string, i: nat)
    requires 0 < i < |a| && i < |b| && a[..i] == b[..i]
    ensures a[0] == b[0] && a[1..][..i - 1] == b[1..][..i - 1] && a[1..][i - 1] == a[i] && b[1..][i - 1] == b[i]
  {
    assert a[..i][0] == b[..i][0] && a[1..][..i - 1] == a[..i][1..] && b[1..][..i - 1] == b[..i][1..];
  }

  /** The tags in order: those of two bytes, then of three, then of four, each cut off the packed
      string in turn. */
  lemma TagsInOrder(a: string, b: string, c: string)
    ensures AllTags([a, b, c]) == Tags(a, 2) + Tags(b, 3) + Tags(c, 4)
    ensures forall k | 0 <= k < |a| / 2 :: Tags(a, 2)[k] == a[2 * k..2 * k + 2]
    ensures forall k | 0 <= k < |b| / 3 :: Tags(b, 3)[k] == b[3 * k..3 * k + 3]
    ensures forall k | 0 <= k < |c| / 4 :: Tags(c, 4)[k] == c[4 * k..4 * k + 4]
  {
    var t := [a, b, c];
    assert TagsUpTo(t, 0) == [];
    assert TagsUpTo(t, 1) == Tags(a, 2);
    assert TagsUpTo(t, 2) == Tags(a, 2) + Tags(b, 3);
  }
}

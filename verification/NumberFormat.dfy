/** Number patterns and the decimal printer of i18n/number.go. Runes are characters; rune 0 means
    that a symbol is not used. */
module NumberFormat {
  import opened Common

  const NONE: char := '\0'

  /** int64 arithmetic wraps around. */
  function Wrap(n: int): (r: int)
    ensures -MAX_INT64 - 1 <= r <= MAX_INT64
    ensures -MAX_INT64 - 1 <= n <= MAX_INT64 ==> r == n
    ensures (r - n) % TWO_64 == 0
  {
    (n + MAX_INT64 + 1) % TWO_64 - MAX_INT64 - 1
  }

  datatype Format = Format(
    isNegative: bool, parsed: bool, pattern: string, precision: nat,
    plusSign: char, minusSign: char, decimal: char, group: char, prefix: string, suffix: string)

  // ---- the pattern ----

  predicate IsPlace(c: char) { c == '#' || c == '0' || c == '.' || c == ',' }

  predicate IsText(c: char) { !IsPlace(c) && c != '+' && c != '-' && c != NONE }

  /** The characters a pattern copies to the output. */
  function Texts(s: string): string {
    if s == "" then "" else Texts(s[..|s| - 1]) + (if IsText(s[|s| - 1]) then [s[|s| - 1]] else "")
  }

  function CountPlaces(s: string): nat {
    if s == "" then 0 else CountPlaces(s[..|s| - 1]) + (if IsPlace(s[|s| - 1]) then 1 else 0)
  }

  function FirstPlace(s: string): (i: nat)
    ensures i <= |s| && (i < |s| ==> IsPlace(s[i])) && forall k | 0 <= k < i :: !IsPlace(s[k])
  {
    if s == "" then 0
    else var i := FirstPlace(s[..|s| - 1]); if i < |s| - 1 || IsPlace(s[|s| - 1]) then i else |s|
  }

  function FirstPoint(s: string): (i: nat)
    ensures i <= |s| && (i < |s| ==> s[i] == '.') && forall k | 0 <= k < i :: s[k] != '.'
  {
    if s == "" then 0
    else var i := FirstPoint(s[..|s| - 1]); if i < |s| - 1 || s[|s| - 1] == '.' then i else |s|
  }

  /** Places behind the first point. */
  function PlacesAfterPoint(s: string): nat {
    var i := FirstPoint(s);
    if i == |s| then 0 else CountPlaces(s[i + 1..])
  }

  /** What parsing makes of a format. */
  function Parsed(f: Format): Format {
    if f.pattern == "" then f
    else
      f.(parsed := true,
         prefix := Texts(f.pattern[..FirstPlace(f.pattern)]),
         suffix := Texts(f.pattern[FirstPlace(f.pattern)..]),
         group := if ',' in f.pattern then f.group else NONE,
         plusSign := if '+' in f.pattern then f.plusSign else NONE,
         minusSign := if '-' in f.pattern then f.minusSign else NONE,
         precision := PlacesAfterPoint(f.pattern))
  }

  lemma Snoc(s: string, i: nat)
    requires i < |s|
    ensures s[..i + 1][..i] == s[..i] && forall c :: c in s[..i + 1] <==> c in s[..i] || c == s[i]
  {
    assert s[..i + 1] == s[..i] + [s[i]];
  }

  lemma FirstOf(s: string, i: nat)
    requires i < |s|
    ensures FirstPlace(s[..i + 1]) == if FirstPlace(s[..i]) < i || IsPlace(s[i]) then FirstPlace(s[..i]) else i + 1
    ensures FirstPoint(s[..i + 1]) == if FirstPoint(s[..i]) < i || s[i] == '.' then FirstPoint(s[..i]) else i + 1
  {
    Snoc(s, i);
  }

  lemma TextsNext(s: string, from: nat, i: nat)
    requires from <= i < |s|
    ensures Texts(s[from..i + 1]) == Texts(s[from..i]) + (if IsText(s[i]) then [s[i]] else "")
    ensures CountPlaces(s[from..i + 1]) == CountPlaces(s[from..i]) + (if IsPlace(s[i]) then 1 else 0)
  {
    assert s[from..i + 1][..i - from] == s[from..i];
  }

  /** What the pass over a pattern remembers. */
  datatype Scan = Scan(prefix: string, suffix: string, places: nat, inSuffix: bool, inFraction: bool,
                       hasGroup: bool, hasPlus: bool, hasMinus: bool)

  /** After the first i characters. */
  function ScanOf(p: string, i: nat): Scan
    requires i <= |p|
  {
    var a, b := FirstPlace(p[..i]), FirstPoint(p[..i]);
    Scan(Texts(p[..a]), Texts(p[a..i]), if b < i then CountPlaces(p[b + 1..i]) else 0, a < i, b < i,
         ',' in p[..i], '+' in p[..i], '-' in p[..i])
  }

  /** One more character. */
  function ScanNext(s: Scan, c: char): Scan {
    if c == '+' then s.(hasPlus := true)
    else if c == '-' then s.(hasMinus := true)
    else if IsPlace(c) then
      s.(hasGroup := s.hasGroup || c == ',', places := if s.inFraction then s.places + 1 else s.places,
         inFraction := s.inFraction || c == '.', inSuffix := true)
    else if c == NONE then s
    else if !s.inSuffix then s.(prefix := s.prefix + [c])
    else s.(suffix := s.suffix + [c])
  }

  lemma ScanText(p: string, i: nat)
    requires i < |p|
    ensures var s, n := ScanOf(p, i + 1), ScanNext(ScanOf(p, i), p[i]);
            s.prefix == n.prefix && s.suffix == n.suffix && s.inSuffix == n.inSuffix
  {
    hide Texts, CountPlaces, FirstPlace, FirstPoint;
    var a := FirstPlace(p[..i]);
    FirstOf(p, i);
    TextsNext(p, a, i);
    assert p[i..i] == "" && p[i + 1..i + 1] == "";
    Nothing();
    if a == i {
      TextsNext(p, 0, i);
      assert p[0..i + 1] == p[..i + 1] && p[0..i] == p[..i];
    }
  }

  lemma ScanFraction(p: string, i: nat)
    requires i < |p|
    ensures var s, n := ScanOf(p, i + 1), ScanNext(ScanOf(p, i), p[i]);
            s.places == n.places && s.inFraction == n.inFraction
  {
    hide Texts, CountPlaces, FirstPlace, FirstPoint;
    var b := FirstPoint(p[..i]);
    FirstOf(p, i);
    assert p[i + 1..i + 1] == "";
    Nothing();
    if b < i { TextsNext(p, b + 1, i); }
  }

  lemma ScanStep(p: string, i: nat)
    requires i < |p|
    ensures ScanOf(p, i + 1) == ScanNext(ScanOf(p, i), p[i])
  {
    hide Texts, CountPlaces, FirstPlace, FirstPoint;
    ScanText(p, i);
    ScanFraction(p, i);
    Snoc(p, i);
  }

  lemma ScanStart(p: string)
    ensures ScanOf(p, 0) == Scan("", "", 0, false, false, false, false, false)
  {
    assert p[..0] == "" && p[0..0] == "";
  }

  lemma NoPattern(f: Format)
    ensures f.pattern == "" ==> Parsed(f) == f
  {
  }

  lemma ScanEnd(f: Format)
    requires f.pattern != ""
    ensures var s := ScanOf(f.pattern, |f.pattern|);
            Parsed(f) == f.(parsed := true, prefix := s.prefix, suffix := s.suffix, precision := s.places,
                            group := if s.hasGroup then f.group else NONE,
                            plusSign := if s.hasPlus then f.plusSign else NONE,
                            minusSign := if s.hasMinus then f.minusSign else NONE)
  {
    var p := f.pattern;
    assert p[..|p|] == p && p[FirstPlace(p)..|p|] == p[FirstPlace(p)..];
    assert FirstPoint(p) < |p| ==> p[FirstPoint(p) + 1..|p|] == p[FirstPoint(p) + 1..];
  }

  /** The switch of format.parse. */
  method ScanChar(before: Scan, c: char) returns (s: Scan)
    ensures s == ScanNext(before, c)
  {
    s := before;
    if c == '+' {
      s := s.(hasPlus := true);
    } else if c == '-' {
      s := s.(hasMinus := true);
    } else if IsPlace(c) {
      if !s.hasGroup && c == ',' { s := s.(hasGroup := true); }
      if s.inFraction { s := s.(places := s.places + 1); }
      if !s.inFraction && c == '.' { s := s.(inFraction := true); }
      s := s.(inSuffix := true);
    } else if !s.inSuffix {
      if c != NONE { s := s.(prefix := s.prefix + [c]); }
    } else if c != NONE {
      s := s.(suffix := s.suffix + [c]);
    }
  }

  /** format.parse: one pass over the pattern. */
  method Parse(f: Format) returns (r: Format)
    ensures r == Parsed(f)
  {
    hide ScanOf, ScanNext, Parsed;
    NoPattern(f);
    if |f.pattern| == 0 { return f; }
    var s := Scan("", "", 0, false, false, false, false, false);
    ScanStart(f.pattern);
    for i := 0 to |f.pattern|
      invariant s == ScanOf(f.pattern, i)
    {
      ScanStep(f.pattern, i);
      s := ScanChar(s, f.pattern[i]);
    }
    ScanEnd(f);
    r := f.(parsed := true, prefix := s.prefix, suffix := s.suffix, precision := s.places,
            group := if s.hasGroup then f.group else NONE,
            plusSign := if s.hasPlus then f.plusSign else NONE,
            minusSign := if s.hasMinus then f.minusSign else NONE);
  }

  lemma Nothing()
    ensures Texts("") == "" && CountPlaces("") == 0 && FirstPlace("") == 0 && FirstPoint("") == 0
  {
  }
}

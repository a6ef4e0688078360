/** Number.FmtNumber of i18n/number.go: grouping, padding and signs. Rounding, which goes through
    floating point, is a parameter. */
module NumberPrint {
  import opened Common
  import opened Decimal
  import opened NumberFormat

  type Int64 = n: int | -MAX_INT64 - 1 <= n <= MAX_INT64

  /** (frac, prec, precision) to the fraction with that precision. */
  type Rounding = (int, int, nat) -> Int64

  // ---- grouping ----

  /** The digits with a separator before every third one from the right. */
  function Grouped(digits: string, g: char): string {
    if |digits| <= 3 then digits
    else Grouped(digits[..|digits| - 3], g) + [g] + digits[|digits| - 3..]
  }

  lemma GroupStep(digits: string, g: char, i: nat, tail: string)
    requires 3 < i <= |digits|
    ensures Grouped(digits[..i], g) + tail == Grouped(digits[..i - 3], g) + ([g] + digits[i - 3..i] + tail)
  {
    var front := digits[..i];
    assert front[..|front| - 3] == digits[..i - 3] && front[|front| - 3..] == digits[i - 3..i];
    Regroup(Grouped(digits[..i - 3], g), [g], digits[i - 3..i], tail);
  }

  /** Inserting the separator at place i. */
  lemma InsertAt(digits: string, g: char, i: nat, j: nat, tail: string)
    requires i <= j <= |digits|
    ensures var s := digits[..j] + tail;
            s[..i] + [g] + s[i..] == digits[..i] + ([g] + digits[i..j] + tail)
  {
    var s := digits[..j] + tail;
    assert s[..i] == digits[..i] && s[i..] == digits[i..j] + tail;
  }

  /** The grouping loop of FmtNumber. */
  method GroupDigits(digits: string, g: char) returns (s: string)
    ensures s == Grouped(digits, g)
  {
    s := digits;
    var i := |digits|;
    ghost var tail := "";
    assert digits[..i] == digits && digits + tail == digits && Grouped(digits, g) + tail == Grouped(digits, g);
    while i > 3
      invariant 0 <= i <= |digits| && s == digits[..i] + tail
      invariant Grouped(digits, g) == Grouped(digits[..i], g) + tail
    {
      hide Grouped;
      GroupStep(digits, g, i, tail);
      InsertAt(digits, g, i - 3, i, tail);
      i := i - 3;
      s := s[..i] + [g] + s[i..];
      tail := [g] + digits[i..i + 3] + tail;
    }
  }

  function Without(s: string, c: char): string {
    if s == "" then "" else Without(s[..|s| - 1], c) + (if s[|s| - 1] == c then "" else [s[|s| - 1]])
  }

  lemma {:induction false} WithoutSum(a: string, b: string, c: char)
    ensures Without(a + b, c) == Without(a, c) + Without(b, c)
  {
    if b == "" {
      assert a + b == a;
    } else {
      WithoutSum(a, b[..|b| - 1], c);
      assert (a + b)[..|a + b| - 1] == a + b[..|b| - 1];
    }
  }

  lemma {:induction false} WithoutDigits(s: string, c: char)
    requires AllDigits(s) && !IsDigit(c)
    ensures Without(s, c) == s
  {
    if s == "" {
    } else {
      WithoutDigits(s[..|s| - 1], c);
      assert s == s[..|s| - 1] + [s[|s| - 1]];
    }
  }

  /** Counted from the right, exactly every fourth place holds the separator. */
  ghost predicate InThrees(s: string, g: char) {
    forall i | 0 <= i < |s| :: s[i] == g <==> (|s| - 1 - i) % 4 == 3
  }

  lemma ThreesStep(head: string, g: char, last: string)
    requires InThrees(head, g) && |last| == 3 && AllDigits(last) && !IsDigit(g)
    ensures InThrees(head + [g] + last, g)
  {
    var s := head + [g] + last;
    forall i | 0 <= i < |s| ensures s[i] == g <==> (|s| - 1 - i) % 4 == 3 {
      if i < |head| {
        assert s[i] == head[i] && |s| - 1 - i == (|head| - 1 - i) + 4;
      } else if i > |head| {
        assert s[i] == last[i - |head| - 1] && |s| - 1 - i < 3;
      }
    }
  }

  lemma WithoutStep(head: string, g: char, last: string)
    requires AllDigits(last) && !IsDigit(g)
    ensures Without(head + [g] + last, g) == Without(head, g) + last
  {
    hide Without;
    WithoutSum(head + [g], last, g);
    WithoutSum(head, [g], g);
    WithoutDigits(last, g);
    WithoutItself(g);
  }

  lemma WithoutItself(g: char)
    ensures Without([g], g) == ""
  {
    assert [g][..0] == "";
  }

  /** Grouping puts the separators before right-aligned threes and never in front, and
      deleting them restores the digits. */
  lemma {:induction false} GroupedMeans(digits: string, g: char)
    requires digits != "" && AllDigits(digits) && !IsDigit(g)
    ensures Without(Grouped(digits, g), g) == digits && InThrees(Grouped(digits, g), g)
    ensures Grouped(digits, g) != "" && Grouped(digits, g)[0] == digits[0]
  {
    hide InThrees, Without;
    if |digits| <= 3 {
      WithoutDigits(digits, g);
      ShortThrees(digits, g);
    } else {
      var front, last := digits[..|digits| - 3], digits[|digits| - 3..];
      assert digits == front + last;
      GroupedMeans(front, g);
      ThreesStep(Grouped(front, g), g, last);
      WithoutStep(Grouped(front, g), g, last);
    }
  }

  lemma ShortThrees(s: string, g: char)
    requires |s| <= 3 && AllDigits(s) && !IsDigit(g)
    ensures InThrees(s, g)
  {
  }

  // ---- FmtNumber ----

  function FormatInt(n: int): string { if n < 0 then "-" + Print(-n) else Print(n) }

  /** Number of decimal digits of a positive number, 0 for others. */
  function IntLen(n: int): nat { if n < 1 then 0 else |Print(n)| }

  /** format.adjustFracToPrec */
  function Adjust(f: Format, frac: Int64, prec: int, round: Rounding): Int64 {
    if prec > 0 && prec > f.precision then round(frac, prec, f.precision)
    else if f.precision > prec && prec >= 0 then Wrap(frac * Pow10(f.precision - prec))
    else frac
  }

  // the length of the constant that padding is cut from
  const MAX_ZEROS := 15

  function Zeros(n: nat): (s: string)
    ensures |s| == n && forall i | 0 <= i < n :: s[i] == '0'
  {
    if n == 0 then "" else Zeros(n - 1) + "0"
  }

  /** The fraction, padded on the left; more than 15 zeros are a run-time panic. */
  function FracText(f: Format, frac: Int64): Result<string> {
    var s := FormatInt(frac);
    if |s| >= f.precision then Ok(s)
    else if f.precision - |s| > MAX_ZEROS then Err(SliceBounds)
    else Ok(Zeros(f.precision - |s|) + s)
  }

  function Whole(f: Format, n: nat): string { if f.group != NONE then Grouped(Print(n), f.group) else Print(n) }

  /** The integer part with its minus sign. A negative fraction without integer part gets one,
      but not if the format is one for negative numbers. */
  function IntText(f: Format, sign: int, intgr: Int64, frac: Int64): string {
    if intgr < 0 then "-" + Whole(f, -(intgr as int))
    else if intgr > 0 then Whole(f, intgr)
    else if !f.isNegative && frac != 0 && sign < 0 then "-0"
    else "0"
  }

  /** bytes.Replace(s, "-", c, 1) */
  function ReplaceMinus(s: string, c: char): string {
    if s == "" then "" else if s[0] == '-' then [c] + s[1..] else [s[0]] + ReplaceMinus(s[1..], c)
  }

  function Sign(sign: int, intgr: Int64): int { if intgr < 0 then -1 else if intgr > 0 then 1 else sign }

  /** FmtNumber with the format to be used, its precision already set. */
  function Render(f: Format, sign0: int, intgr0: Int64, prec: int, frac0: Int64, round: Rounding): Result<string> {
    var sign := Sign(sign0, intgr0);
    var plus := if sign > 0 && f.plusSign != NONE then [f.plusSign] else "";
    var frac := Adjust(f, frac0, prec, round);
    var rounded: Int64 :=
      if f.precision > 0 then intgr0 else if sign < 0 then Wrap(intgr0 - frac) else Wrap(intgr0 + frac);
    var intgr: Int64 := if f.isNegative && f.minusSign == NONE && rounded < 0 then Wrap(-(rounded as int)) else rounded;
    var intStr := IntText(f, sign, intgr, frac);
    if f.precision == 0 then Ok(plus + f.prefix + intStr + f.suffix)
    else match FracText(f, frac)
      case Err(e) => Err(e)
      case Ok(fracStr) =>
        var text := plus + f.prefix + intStr + [f.decimal] + fracStr + f.suffix;
        Ok(if f.minusSign != NONE then ReplaceMinus(text, f.minusSign) else text)
  }

  /** The checks FmtNumber makes first. */
  function Rejected(sign: int, intgr: Int64, prec: int, frac: Int64): bool {
    (sign == 0 && intgr == 0) || prec < IntLen(frac)
  }

  /** The format GetFormat picks. */
  function Used(fo: Format, fneg: Format, isNegative: bool): Format {
    var neg := if fneg.parsed then fneg else Parsed(fneg);
    if isNegative && neg.parsed then neg else if fo.parsed then fo else Parsed(fo)
  }

  method WriteInt(f: Format, sign: int, intgr: Int64, frac: Int64) returns (intStr: string)
    ensures intStr == IntText(f, sign, intgr, frac)
  {
    intStr := "0";
    if intgr != 0 {
      intStr := FormatInt(intgr);
      if f.group != NONE {
        if intgr < 0 { intStr := intStr[1..]; }
        intStr := GroupDigits(intStr, f.group);
        if intgr < 0 { intStr := "-" + intStr; }
      }
    } else if !f.isNegative && frac != 0 && sign < 0 {
      intStr := "-" + "0";
    }
  }

  method WriteFrac(f: Format, frac: Int64) returns (r: Result<string>)
    ensures r == FracText(f, frac)
  {
    var fracStr := FormatInt(frac);
    if |fracStr| < f.precision {
      if f.precision - |fracStr| > MAX_ZEROS { return Err(SliceBounds); }
      fracStr := Zeros(f.precision - |fracStr|) + fracStr;
    }
    return Ok(fracStr);
  }

  /** FmtNumber from the choice of the format on. */
  method Write(f: Format, sign0: int, intgr0: Int64, prec: int, frac0: Int64, round: Rounding)
      returns (r: Result<string>)
    ensures r == Render(f, sign0, intgr0, prec, frac0, round)
  {
    hide IntText, FracText, ReplaceMinus, Adjust, Wrap;
    var sign, intgr := Sign(sign0, intgr0), intgr0;
    var buf := "";
    if sign > 0 && f.plusSign != NONE { buf := [f.plusSign]; }
    var frac := Adjust(f, frac0, prec, round);
    if f.precision == 0 {
      if sign < 0 { intgr := Wrap(intgr - frac); } else { intgr := Wrap(intgr + frac); }
    }
    if f.isNegative && f.minusSign == NONE && intgr < 0 { intgr := Wrap(-(intgr as int)); }
    var intStr := WriteInt(f, sign, intgr, frac);
    if f.precision == 0 { return Ok(buf + f.prefix + intStr + f.suffix); }
    var fracStr := WriteFrac(f, frac);
    if fracStr.Err? { return fracStr; }
    buf := buf + f.prefix + intStr + [f.decimal] + fracStr.value + f.suffix;
    if f.minusSign != NONE { buf := ReplaceMinus(buf, f.minusSign); }
    return Ok(buf);
  }

  // ---- the two formats ----

  const SEPARATOR := ';'
  const DEFAULT_FORMAT := "#,##0.###"

  datatype Symbols = Symbols(decimal: char, group: char, plusSign: char, minusSign: char)

  /** Where the first separator stands, or the length of the text. */
  function FirstSeparator(s: string): (i: nat)
    ensures i <= |s| && (i < |s| ==> s[i] == SEPARATOR) && forall k | 0 <= k < i :: s[k] != SEPARATOR
  {
    if s == "" then 0
    else var i := FirstSeparator(s[..|s| - 1]); if i < |s| - 1 || s[|s| - 1] == SEPARATOR then i else |s|
  }

  /** The loop of SetNumberFormat: the pattern before the first separator and the one behind it. */
  method SplitFormat(f: string) returns (pos: string, neg: string)
    ensures pos == f[..FirstSeparator(f)]
    ensures neg == if FirstSeparator(f) == |f| then "" else f[FirstSeparator(f) + 1..]
  {
    pos, neg := "", "";
    var found := false;
    ghost var at := FirstSeparator(f);
    for i := 0 to |f|
      invariant found <==> at < i
      invariant pos == f[..if found then at else i] && neg == if found then f[at + 1..i] else ""
    {
      if f[i] == SEPARATOR && !found {
        found := true;
      } else if !found {
        pos := pos + [f[i]];
      } else {
        neg := neg + [f[i]];
      }
    }
  }

  // prefix and suffix of an unparsed format are 16 zero bytes
  const BUFFER := "\0\0\0\0\0\0\0\0\0\0\0\0\0\0\0\0"

  function NewFormat(isNegative: bool, pattern: string, sym: Symbols): Format {
    Format(isNegative, false, pattern, 9, sym.plusSign, sym.minusSign, sym.decimal, sym.group, BUFFER, BUFFER)
  }

  class Number {
    var fo: Format
    var fneg: Format
    var digits: nat       // of the currency's fraction
    var fracValid: bool

    /** SetNumberFormat: one pattern for positive and one for negative numbers. */
    method SetFormat(format: string, sym: Symbols)
      modifies this`fo, this`fneg
      ensures var f := if format == "" then "#,##0.###" else format;
              var i := FirstSeparator(f);
              && fo == NewFormat(false, f[..i], sym)
              && fneg == NewFormat(true, if i == |f| then "" else f[i + 1..], sym)
    {
      var f := if format == "" then DEFAULT_FORMAT else format;
      var pos, neg := SplitFormat(f);
      fo := NewFormat(false, pos, sym);
      fneg := fo.(pattern := neg, isNegative := true);
    }

    /** GetFormat parses a format when it is first needed; which format is used for which
        numbers never changes. */
    method GetFormat(isNegative: bool) returns (f: Format)
      modifies this`fo, this`fneg
      ensures f == old(Used(fo, fneg, isNegative))
      ensures forall b :: Used(fo, fneg, b) == old(Used(fo, fneg, b))
    {
      if isNegative {
        if !fneg.parsed { fneg := Parse(fneg); }
        if fneg.parsed { return fneg; }
      }
      if !fo.parsed { fo := Parse(fo); }
      return fo;
    }

    /** FmtNumber */
    method FmtNumber(sign0: int, intgr0: Int64, prec: int, frac0: Int64, round: Rounding) returns (r: Result<string>)
      modifies this`fo, this`fneg
      ensures r == if Rejected(sign0, intgr0, prec, frac0) then Err(NotValid)
                   else var f := old(Used(fo, fneg, Sign(sign0, intgr0) < 0));
                        Render(if fracValid then f.(precision := digits) else f, sign0, intgr0, prec, frac0, round)
      ensures forall b :: Used(fo, fneg, b) == old(Used(fo, fneg, b))
    {
      hide Render, Used, IntLen;
      var sign := sign0;
      if sign0 == 0 && intgr0 == 0 { return Err(NotValid); }
      if prec < IntLen(frac0) { return Err(NotValid); }
      if intgr0 < 0 { sign := -1; } else if intgr0 > 0 { sign := 1; }
      var f := GetFormat(sign < 0);
      if fracValid { f := f.(precision := digits); }
      r := Write(f, sign0, intgr0, prec, frac0, round);
    }
  }

  // ---- exactness ----

  lemma MulAssociative(a: int, b: int, c: int)
    ensures a * b * c == a * (b * c)
  {
  }

  lemma {:induction false} PowSum(a: nat, b: nat)
    ensures Pow10(a + b) == Pow10(a) * Pow10(b)
  {
    if a == 0 {
    } else {
      PowSum(a - 1, b);
      MulAssociative(10, Pow10(a - 1), Pow10(b));
    }
  }

  lemma {:induction false} PowGrows(a: nat, b: nat)
    requires a <= b
    ensures Pow10(a) <= Pow10(b)
  {
    if a >= b {
    } else {
      PowGrows(a, b - 1);
    }
  }

  lemma Pow15()
    ensures Pow10(15) == 1_000_000_000_000_000
  {
    assert Pow10(5) == 100_000;
    PowSum(5, 5);
    PowSum(5, 10);
  }

  /** Scaling stays below 10^precision, so nothing wraps around. */
  lemma ScaledFits(frac: nat, prec: nat, precision: nat)
    requires prec <= precision <= 15 && frac < Pow10(prec)
    ensures frac * Pow10(precision - prec) < Pow10(precision) <= 1_000_000_000_000_000
  {
    PowSum(prec, precision - prec);
    PowGrows(precision, 15);
    Pow15();
    Times(frac, Pow10(prec), Pow10(precision - prec));
  }

  lemma Times(a: nat, b: nat, c: nat)
    requires a < b && c > 0
    ensures a * c < b * c
  {
  }

  lemma PowZero()
    ensures Pow10(0) == 1
  {
  }

  lemma Scaled(f: Format, prec: nat, frac: Int64, round: Rounding)
    requires prec <= f.precision <= 15 && 0 <= frac < Pow10(prec)
    ensures Adjust(f, frac, prec, round) == frac * Pow10(f.precision - prec)
  {
    hide Wrap, Pow10;
    ScaledFits(frac, prec, f.precision);
    PowZero();
  }

  lemma Padded(f: Format, n: nat)
    requires 1 <= f.precision <= 15 && n < Pow10(f.precision) && n <= MAX_INT64
    ensures var r := FracText(f, n);
            r.Ok? && |r.value| == f.precision && AllDigits(r.value) && Value(r.value) == n
  {
    hide Pow10, Print, Value;
    PrintLength(n, f.precision);
    ValueOfPrint(n);
    var zeros := Zeros(f.precision - |Print(n)|);
    ValueOfPadded(zeros, Print(n));
    assert |Print(n)| == f.precision ==> zeros + Print(n) == Print(n);
  }

  /** The printed fraction: exactly `precision` digits worth frac * 10^(precision-prec). */
  lemma FractionExact(f: Format, prec: nat, frac: Int64, round: Rounding)
    requires 1 <= f.precision <= 15 && prec <= f.precision && 0 <= frac < Pow10(prec)
    ensures var r := FracText(f, Adjust(f, frac, prec, round));
            && r.Ok? && |r.value| == f.precision && AllDigits(r.value)
            && Value(r.value) == frac * Pow10(f.precision - prec)
  {
    hide FracText, Adjust, Pow10, Value;
    ScaledFits(frac, prec, f.precision);
    Scaled(f, prec, frac, round);
    Padded(f, Adjust(f, frac, prec, round));
  }

  /** What the symbols of a format must keep apart. */
  ghost predicate Clean(f: Format) {
    && '-' !in f.prefix && '-' !in f.suffix
    && f.plusSign != '-' && f.decimal != '-' && f.group != '-' && !IsDigit(f.group)
  }

  lemma {:induction false} NoMinusInTexts(s: string)
    ensures '-' !in Texts(s)
  {
    if s == "" {
    } else {
      NoMinusInTexts(s[..|s| - 1]);
    }
  }

  /** A parsed format is clean if its symbols are. */
  lemma ParsedIsClean(f: Format)
    requires f.pattern != "" && f.plusSign != '-' && f.decimal != '-' && f.group != '-' && !IsDigit(f.group)
    ensures Clean(Parsed(f))
  {
    NoMinusInTexts(f.pattern[..FirstPlace(f.pattern)]);
    NoMinusInTexts(f.pattern[FirstPlace(f.pattern)..]);
  }

  lemma {:induction false} NothingReplaced(s: string, c: char)
    requires '-' !in s
    ensures ReplaceMinus(s, c) == s
  {
    if s == "" {
    } else {
      NothingReplaced(s[1..], c);
    }
  }

  lemma {:induction false} FirstReplaced(a: string, b: string, c: char)
    requires '-' !in a
    ensures ReplaceMinus(a + "-" + b, c) == a + [c] + b
  {
    var s := a + "-" + b;
    if a == "" {
      assert s == "-" + b && s[1..] == b && a + [c] + b == [c] + b;
    } else {
      FirstReplaced(a[1..], b, c);
      assert s[1..] == a[1..] + "-" + b;
      assert a + [c] + b == [a[0]] + (a[1..] + [c] + b);
    }
  }

  function Abs(n: Int64): nat { if n < 0 then -(n as int) else n }

  function Plus(f: Format, sign: int): string { if sign > 0 && f.plusSign != NONE then [f.plusSign] else "" }

  /** The minus sign in the output: the format's own, else the plain one, which a format for
      negative numbers drops; such a format shows none at all if the integer part is 0. */
  function Minus(f: Format, sign: int, intgr: Int64, frac: Int64): string {
    if intgr > 0 || sign >= 0 || (intgr == 0 && (f.isNegative || frac == 0)) then ""
    else if f.minusSign != NONE then [f.minusSign]
    else if f.isNegative then "" else "-"
  }

  lemma {:induction false} NoMinusInGrouped(digits: string, g: char)
    requires AllDigits(digits) && g != '-'
    ensures '-' !in Grouped(digits, g)
  {
    if |digits| <= 3 {
    } else {
      NoMinusInGrouped(digits[..|digits| - 3], g);
    }
  }

  lemma NoMinusInWhole(f: Format, n: nat)
    requires Clean(f)
    ensures '-' !in Whole(f, n) && Whole(f, 0) == "0"
  {
    NoMinusInGrouped(Print(n), f.group);
  }

  /** The text with or without its own minus, before and after the replacement. */
  lemma MinusReplaced(front: string, minus: bool, rest: string, c: char)
    requires '-' !in front && '-' !in rest
    ensures ReplaceMinus(front + (if minus then "-" else "") + rest, c) == front + (if minus then [c] else "") + rest
  {
    hide ReplaceMinus;
    if minus {
      FirstReplaced(front, rest, c);
    } else {
      NothingReplaced(front + rest, c);
      assert front + "" + rest == front + rest;
    }
  }

  lemma Assembled(a: string, b: string, m: string, w: string, d: string, x: string, y: string)
    ensures a + b + (m + w) + d + x + y == (a + b) + m + (w + d + x + y)
    ensures a + b + m + w + d + x + y == (a + b) + m + (w + d + x + y)
  {
    var r := w + d + x + y;
    assert a + b + (m + w) == a + b + m + w;
    assert a + b + m + w + d == a + b + m + (w + d);
    assert a + b + m + (w + d) + x == a + b + m + (w + d + x);
    assert a + b + m + (w + d + x) + y == a + b + m + r;
  }

  predicate OwnMinus(f: Format, sign: int, intgr: Int64, frac: Int64) {
    (intgr < 0 && !(f.isNegative && f.minusSign == NONE)) || (intgr == 0 && !f.isNegative && frac != 0 && sign < 0)
  }

  /** The number whose digits are printed. */
  function Shown(f: Format, intgr: Int64): Int64 {
    if f.isNegative && f.minusSign == NONE && intgr < 0 then Wrap(-(intgr as int)) else intgr
  }

  lemma SignSplit(f: Format, sign0: int, intgr: Int64, frac: Int64, scaled: Int64)
    requires Clean(f) && (scaled == 0 <==> frac == 0) && intgr > -MAX_INT64 - 1
    ensures var sign := Sign(sign0, intgr);
            var minus := OwnMinus(f, sign, intgr, frac);
            && IntText(f, sign, Shown(f, intgr), scaled) == (if minus then "-" else "") + Whole(f, Abs(intgr))
            && Minus(f, sign, intgr, frac) == if !minus then "" else if f.minusSign != NONE then [f.minusSign] else "-"
  {
    hide Whole;
    NoMinusInWhole(f, Abs(intgr));
  }

  lemma Composed(f: Format, plus: string, minus: bool, w: string, x: string)
    requires Clean(f) && '-' !in plus && '-' !in w && '-' !in x
    ensures var text := plus + f.prefix + ((if minus then "-" else "") + w) + [f.decimal] + x + f.suffix;
            (if f.minusSign != NONE then ReplaceMinus(text, f.minusSign) else text) ==
            plus + f.prefix + (if !minus then "" else if f.minusSign != NONE then [f.minusSign] else "-") + w +
              [f.decimal] + x + f.suffix
  {
    hide ReplaceMinus;
    var m := if !minus then "" else if f.minusSign != NONE then [f.minusSign] else "-";
    Assembled(plus, f.prefix, if minus then "-" else "", w, [f.decimal], x, f.suffix);
    Assembled(plus, f.prefix, m, w, [f.decimal], x, f.suffix);
    if f.minusSign != NONE {
      MinusReplaced(plus + f.prefix, minus, w + [f.decimal] + x + f.suffix, f.minusSign);
    }
  }

  /** Without rounding the output is, in this order: the plus sign, the prefix, the minus sign,
      the integer part, the decimal point, the fraction and the suffix. */
  lemma Layout(f: Format, sign0: int, intgr: Int64, prec: nat, frac: Int64, round: Rounding)
    requires Clean(f) && 1 <= f.precision <= 15 && prec <= f.precision && 0 <= frac < Pow10(prec) &&
             intgr > -MAX_INT64 - 1
    ensures var sign, fraction := Sign(sign0, intgr), FracText(f, Adjust(f, frac, prec, round));
            && fraction.Ok?
            && Render(f, sign0, intgr, prec, frac, round) ==
               Ok(Plus(f, sign) + f.prefix + Minus(f, sign, intgr, frac) + Whole(f, Abs(intgr)) + [f.decimal] +
                 fraction.value + f.suffix)
  {
    hide FracText, Adjust, ReplaceMinus, Whole, Pow10, Value, IntText, Minus, OwnMinus, Clean;
    FractionExact(f, prec, frac, round);
    ScaledZero(f, prec, frac, round);
    NoMinusInWhole(f, Abs(intgr));
    var sign, scaled := Sign(sign0, intgr), Adjust(f, frac, prec, round);
    var x := FracText(f, scaled).value;
    SignSplit(f, sign0, intgr, frac, scaled);
    assert '-' !in Plus(f, sign) by { NoMinusInPlus(f, sign); }
    Composed(f, Plus(f, sign), OwnMinus(f, sign, intgr, frac), Whole(f, Abs(intgr)), x);
  }

  /** The smallest int64 cannot be negated, so it shows a minus sign in every format, even in one for
      negative numbers without a minus sign of its own. */
  lemma LayoutOfSmallest(f: Format, sign0: int, prec: nat, frac: Int64, round: Rounding)
    requires Clean(f) && 1 <= f.precision <= 15 && prec <= f.precision && 0 <= frac < Pow10(prec)
    ensures var fraction := FracText(f, Adjust(f, frac, prec, round));
            && fraction.Ok?
            && Render(f, sign0, -MAX_INT64 - 1, prec, frac, round) ==
               Ok("" + f.prefix + (if f.minusSign != NONE then [f.minusSign] else "-") + Whole(f, MAX_INT64 + 1) +
                 [f.decimal] + fraction.value + f.suffix)
  {
    hide FracText, Adjust, ReplaceMinus, Whole, Pow10, Value, Clean;
    FractionExact(f, prec, frac, round);
    NoMinusInWhole(f, MAX_INT64 + 1);
    Composed(f, "", true, Whole(f, MAX_INT64 + 1), FracText(f, Adjust(f, frac, prec, round)).value);
  }

  /** The integer that is printed at precision 0: the rounded fraction is added to it, away from
      zero. */
  function RoundedInt(sign: int, intgr: Int64, frac: Int64): Int64 {
    if sign < 0 then Wrap(intgr - frac) else Wrap(intgr + frac)
  }

  /** At precision 0, with any fraction and rounding: the plain minus stands, whatever the
      format's own minus sign is. */
  lemma LayoutOfInteger(f: Format, sign0: int, intgr: Int64, prec: int, frac: Int64, round: Rounding)
    requires f.precision == 0
    ensures var sign, rounded := Sign(sign0, intgr), Adjust(f, frac, prec, round);
            var n := RoundedInt(sign, intgr, rounded);
            Render(f, sign0, intgr, prec, frac, round) ==
            Ok(Plus(f, sign) + f.prefix +
               ((if OwnMinus(f, sign, n, rounded) || n == -MAX_INT64 - 1 then "-" else "") + Whole(f, Abs(n))) +
               f.suffix)
  {
    hide Grouped, Adjust, Print;
    var sign, rounded := Sign(sign0, intgr), Adjust(f, frac, prec, round);
    var n := RoundedInt(sign, intgr, rounded);
    assert Whole(f, 0) == "0" by { GroupedZero(f.group); }
    assert IntText(f, sign, Shown(f, n), rounded) ==
           (if OwnMinus(f, sign, n, rounded) || n == -MAX_INT64 - 1 then "-" else "") + Whole(f, Abs(n));
  }

  lemma GroupedZero(g: char)
    ensures Grouped(Print(0), g) == Print(0) == "0"
  {
  }

  lemma NoMinusInPlus(f: Format, sign: int)
    requires Clean(f)
    ensures '-' !in Plus(f, sign)
  {
  }

  lemma ScaledZero(f: Format, prec: nat, frac: Int64, round: Rounding)
    requires prec <= f.precision <= 15 && 0 <= frac < Pow10(prec)
    ensures Adjust(f, frac, prec, round) == 0 <==> frac == 0
  {
    Scaled(f, prec, frac, round);
    if frac > 0 { Times(0, frac, Pow10(f.precision - prec)); }
  }

  /** Exactness: the integer part, without its separators, is the number's decimal digits in
      right-aligned threes; the fraction has exactly `precision` digits; and both together are
      worth the number, to the last place. */
  lemma PrintedExactly(f: Format, prec: nat, intgr: Int64, frac: Int64, round: Rounding)
    requires Clean(f) && 1 <= f.precision <= 15 && prec <= f.precision && 0 <= frac < Pow10(prec) &&
             intgr > -MAX_INT64 - 1
    ensures var whole, fraction := Whole(f, Abs(intgr)), FracText(f, Adjust(f, frac, prec, round));
            var digits := if f.group != NONE then Without(whole, f.group) else whole;
            && fraction.Ok? && |fraction.value| == f.precision && AllDigits(fraction.value)
            && digits == Print(Abs(intgr)) && (f.group != NONE ==> InThrees(whole, f.group))
            && Value(digits) * Pow10(f.precision) + Value(fraction.value) ==
               (Abs(intgr) * Pow10(prec) + frac) * Pow10(f.precision - prec)
  {
    hide Adjust, FracText, Pow10, Value, Print, Clean;
    assert !IsDigit(f.group) by { GroupIsNoDigit(f); }
    FractionExact(f, prec, frac, round);
    ValueOfPrint(Abs(intgr));
    if f.group != NONE { GroupedMeans(Print(Abs(intgr)), f.group); }
    PowSum(prec, f.precision - prec);
    Distribute(Abs(intgr), Pow10(prec), Pow10(f.precision - prec), frac);
  }

  lemma GroupIsNoDigit(f: Format)
    requires Clean(f)
    ensures !IsDigit(f.group)
  {
  }

  lemma Distribute(a: int, b: int, c: int, d: int)
    ensures a * (b * c) + d * c == (a * b + d) * c
  {
  }

  /** Two formats that print alike apart from the sign of the number they are meant for. */
  ghost predicate Twins(neg: Format, pos: Format) {
    neg.isNegative && !pos.isNegative && pos.plusSign == NONE && Clean(neg) && Clean(pos) &&
    neg.precision == pos.precision && neg.prefix == pos.prefix && neg.suffix == pos.suffix &&
    neg.decimal == pos.decimal && neg.group == pos.group
  }

  /** A negative format loses the sign exactly if the integer part is 0 or it has no minus sign
      of its own: then the number looks like its absolute value in the positive format. */
  lemma SignLostIff(neg: Format, pos: Format, intgr: Int64, prec: nat, frac: Int64, round: Rounding)
    requires Twins(neg, pos) && 1 <= neg.precision <= 15 && prec <= neg.precision
    requires 0 <= frac < Pow10(prec) && -MAX_INT64 - 1 < intgr <= 0
    ensures Render(neg, -1, intgr, prec, frac, round) == Render(pos, 1, Abs(intgr), prec, frac, round) <==>
              intgr == 0 || neg.minusSign == NONE
  {
    hide Render, Whole, FracText, Adjust, Pow10, Clean;
    Layout(neg, -1, intgr, prec, frac, round);
    Layout(pos, 1, Abs(intgr), prec, frac, round);
    SameParts(neg, pos, Abs(intgr), frac, prec, round);
    var m, w := Minus(neg, -1, intgr, frac), Whole(neg, Abs(intgr));
    var x := FracText(neg, Adjust(neg, frac, prec, round)).value;
    var rest := w + [neg.decimal] + x + neg.suffix;
    Assembled("", neg.prefix, m, w, [neg.decimal], x, neg.suffix);
    Assembled("", neg.prefix, "", w, [neg.decimal], x, neg.suffix);
    assert |("" + neg.prefix) + m + rest| == |("" + neg.prefix) + "" + rest| + |m|;
  }

  lemma SameParts(neg: Format, pos: Format, n: nat, frac: Int64, prec: nat, round: Rounding)
    requires Twins(neg, pos)
    ensures Whole(neg, n) == Whole(pos, n) && Adjust(neg, frac, prec, round) == Adjust(pos, frac, prec, round)
    ensures FracText(neg, Adjust(neg, frac, prec, round)) == FracText(pos, Adjust(pos, frac, prec, round))
  {
  }

  /** -0.5 in a negative format with a minus sign prints like 0.5. */
  lemma MinusHalf(round: Rounding)
    ensures var neg := Format(true, true, "-0.0", 1, NONE, '-', '.', NONE, "", "");
            var pos := Format(false, true, "0.0", 1, NONE, NONE, '.', NONE, "", "");
            Render(neg, -1, 0, 1, 5, round) == Render(pos, 1, 0, 1, 5, round)
  {
    hide Render;
    assert Pow10(1) == 10 * Pow10(0);
    SignLostIff(Format(true, true, "-0.0", 1, NONE, '-', '.', NONE, "", ""),
                Format(false, true, "0.0", 1, NONE, NONE, '.', NONE, "", ""), 0, 1, 5, round);
  }

  /** A negative number in a format with its own minus sign still shows the plain one exactly if
      the precision is 0: only then it is not replaced. */
  lemma PlainMinusIff(f: Format, intgr: Int64, prec: nat, frac: Int64, round: Rounding)
    requires Clean(f) && f.minusSign != NONE && f.minusSign != '-' && intgr < 0
    requires prec <= f.precision <= 15 && 0 <= frac < Pow10(prec)
    ensures Render(f, -1, intgr, prec, frac, round).Ok?
    ensures '-' in Render(f, -1, intgr, prec, frac, round).value <==> f.precision == 0
  {
    hide Render, Whole, FracText, Adjust, Value, RoundedInt;
    if f.precision == 0 {
      PowZero();
      NoFraction(f, intgr, round);
      LayoutOfInteger(f, -1, intgr, prec, frac, round);
      assert f.minusSign != NONE;
      var body := "-" + Whole(f, Abs(intgr));
      assert body[0] == '-' && body[0] in body;
    } else {
      if intgr == -MAX_INT64 - 1 {
        LayoutOfSmallest(f, -1, prec, frac, round);
      } else {
        Layout(f, -1, intgr, prec, frac, round);
      }
      FractionExact(f, prec, frac, round);
      NoMinusInWhole(f, Abs(intgr));
    }
  }

  /** A format for negative numbers without a minus sign shows one for the smallest int64, and only
      for it. */
  lemma SmallestShowsMinusIff(f: Format, intgr: Int64, prec: nat, frac: Int64, round: Rounding)
    requires Clean(f) && f.isNegative && f.minusSign == NONE && intgr <= 0
    requires 1 <= f.precision <= 15 && prec <= f.precision && 0 <= frac < Pow10(prec)
    ensures Render(f, -1, intgr, prec, frac, round).Ok?
    ensures '-' in Render(f, -1, intgr, prec, frac, round).value <==> intgr == -MAX_INT64 - 1
  {
    hide Render, Whole, FracText, Adjust, Value;
    FractionExact(f, prec, frac, round);
    NoMinusInWhole(f, Abs(intgr));
    if intgr == -MAX_INT64 - 1 {
      LayoutOfSmallest(f, -1, prec, frac, round);
    } else {
      Layout(f, -1, intgr, prec, frac, round);
    }
  }

  lemma NoFraction(f: Format, intgr: Int64, round: Rounding)
    requires f.precision == 0
    ensures Adjust(f, 0, 0, round) == 0 && RoundedInt(-1, intgr, 0) == intgr
  {
  }

  /** -5 in the format "-0" with the minus sign U+2212 prints "-5", in "-0.0" it does not. */
  lemma PlainMinusStays(round: Rounding)
    ensures var f := Format(true, true, "-0", 0, NONE, '\U{2212}', '.', NONE, "", "");
            && Render(f, -1, -5, 0, 0, round) == Ok("-5")
            && Render(f.(pattern := "-0.0", precision := 1), -1, -5, 0, 0, round) == Ok("\U{2212}5.0")
  {
    hide Render, ReplaceMinus, IntText;
    var f := Format(true, true, "-0", 0, NONE, '\U{2212}', '.', NONE, "", "");
    var g := f.(pattern := "-0.0", precision := 1);
    assert Print(5) == [DigitChar(5)] == "5" && Print(0) == [DigitChar(0)] == "0" && Pow10(0) == 1;
    LayoutOfInteger(f, -1, -5, 0, 0, round);
    assert "" + "" + ("-" + "5") + "" == "-5";
    Layout(g, -1, -5, 0, 0, round);
    assert FracText(g, 0) == Ok("0");
    assert "" + "" + "\U{2212}" + "5" + "." + "0" + "" == "\U{2212}5.0";
  }

  // ---- short precisions ----

  /** FmtNumber reports an error exactly if the sign cannot be told or the fraction does not fit
      the given precision; it does not adjust the precision. */
  lemma RejectedIff(sign: int, intgr: Int64, prec: int, frac: Int64)
    ensures Rejected(sign, intgr, prec, frac) <==>
              (sign == 0 && intgr == 0) || prec < 0 || frac >= Pow10(prec)
  {
    hide Print;
    if prec > 0 && frac >= 1 {
      PrintLength(frac, prec);
    } else if prec == 0 {
      PowZero();
    }
  }

  /** 1.324 given with precision 2 is an error. */
  lemma ShortPrecisionIsRejected()
    ensures Rejected(1, 1, 2, 324) && !Rejected(1, 1, 3, 324)
  {
    assert Pow10(2) == 100 && Pow10(3) == 1000 by { assert Pow10(1) == 10 * Pow10(0); }
    RejectedIff(1, 1, 2, 324);
    RejectedIff(1, 1, 3, 324);
  }
}

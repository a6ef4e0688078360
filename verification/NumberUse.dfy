/** From a pattern to the printed number (i18n/number.go): what a pattern is parsed to, which
    pattern is used for which number, and what comes out. */
module NumberUse {
  import opened Common
  import opened Decimal
  import opened NumberFormat
  import opened NumberPrint

  // ---- parsing ----

  /** The characters that stand for digits, and those that are copied. */
  predicate Places(s: string) { forall i | 0 <= i < |s| :: s[i] in {'#', '0', '.', ','} }

  predicate Copied(s: string) { forall i | 0 <= i < |s| :: s[i] !in {'#', '0', '.', ',', '+', '-', '\0'} }

  lemma {:induction false} TextsOfCopied(s: string)
    requires Copied(s)
    ensures Texts(s) == s && CountPlaces(s) == 0
  {
    if s == "" {
    } else {
      TextsOfCopied(s[..|s| - 1]);
    }
  }

  lemma {:induction false} TextsOfPlaces(s: string)
    requires Places(s)
    ensures Texts(s) == "" && CountPlaces(s) == |s|
  {
    if s == "" {
    } else {
      TextsOfPlaces(s[..|s| - 1]);
    }
  }

  lemma {:induction false} TextsSum(a: string, b: string)
    ensures Texts(a + b) == Texts(a) + Texts(b) && CountPlaces(a + b) == CountPlaces(a) + CountPlaces(b)
  {
    if b == "" {
      assert a + b == a;
    } else {
      TextsSum(a, b[..|b| - 1]);
      assert (a + b)[..|a + b| - 1] == a + b[..|b| - 1];
    }
  }

  /** A sign in the pattern. */
  predicate SignText(s: string) { s in {"", "+", "-"} }

  lemma TextsOfSign(s: string)
    requires SignText(s)
    ensures Texts(s) == "" && CountPlaces(s) == 0
  {
    Nothing();
    if s != "" { assert s[..0] == ""; }
  }

  /** A pattern of text, sign, places and text again is parsed to just these: text before and
      behind, as many fraction digits as places behind the point, and each symbol exactly if the
      pattern shows it. */
  lemma ParsedPattern(f: Format, pre: string, sign: string, whole: string, fraction: string, point: bool, suf: string)
    requires f.pattern == pre + sign + (whole + (if point then "." + fraction else "")) + suf
    requires Copied(pre) && SignText(sign) && Copied(suf)
    requires whole != "" && Places(whole) && '.' !in whole && Places(fraction) && (!point ==> fraction == "")
    ensures Parsed(f) == f.(parsed := true, prefix := pre, suffix := suf, precision := |fraction|,
                            group := if ',' in whole || ',' in fraction then f.group else NONE,
                            plusSign := if sign == "+" then f.plusSign else NONE,
                            minusSign := if sign == "-" then f.minusSign else NONE)
  {
    hide Texts, CountPlaces, FirstPlace, FirstPoint, PlacesAfterPoint;
    var p, places := f.pattern, whole + (if point then "." + fraction else "");
    assert Places(places) && places != "";
    TextsAround(p, pre, sign, places, suf);
    assert p == (pre + sign) + (whole + (if point then "." + fraction else "") + suf);
    PointAt(p, pre + sign, whole, fraction, point, suf);
    SymbolsIn(p, pre, sign, whole, fraction, point, suf);
  }

  lemma TextsAround(p: string, pre: string, sign: string, places: string, suf: string)
    requires p == pre + sign + places + suf && Copied(pre) && SignText(sign) && Copied(suf)
    requires places != "" && Places(places)
    ensures Texts(p[..FirstPlace(p)]) == pre && Texts(p[FirstPlace(p)..]) == suf
  {
    hide Texts, CountPlaces;
    PlaceAt(p, pre + sign, places, suf);
    TextsSum(pre, sign);
    TextsSum(places, suf);
    TextsOfCopied(pre);
    TextsOfSign(sign);
    TextsOfPlaces(places);
    TextsOfCopied(suf);
  }

  lemma PlaceAt(p: string, head: string, places: string, suf: string)
    requires p == head + places + suf && places != "" && Places(places)
    requires forall k | 0 <= k < |head| :: !IsPlace(head[k])
    ensures FirstPlace(p) == |head| && p[..|head|] == head && p[|head|..] == places + suf
  {
    assert p[|head|] == places[0] && forall k | 0 <= k < |head| :: p[k] == head[k];
  }

  lemma PointAt(p: string, head: string, whole: string, fraction: string, point: bool, suf: string)
    requires p == head + (whole + (if point then "." + fraction else "") + suf)
    requires '.' !in head && '.' !in whole && Copied(suf) && Places(fraction) && (!point ==> fraction == "")
    ensures PlacesAfterPoint(p) == |fraction|
  {
    hide Texts, CountPlaces;
    var b := |head| + |whole|;
    if point {
      assert p == (head + whole) + ("." + fraction + suf);
      assert p[b] == '.' && forall k | 0 <= k < b :: p[k] == (head + whole)[k] && p[k] != '.';
      assert FirstPoint(p) == b && p[b + 1..] == fraction + suf;
      TextsSum(fraction, suf);
      TextsOfPlaces(fraction);
      TextsOfCopied(suf);
    } else {
      assert p == head + whole + suf;
      assert forall k | 0 <= k < |p| :: p[k] != '.';
      assert FirstPoint(p) == |p|;
    }
  }

  lemma SymbolsIn(p: string, pre: string, sign: string, whole: string, fraction: string, point: bool, suf: string)
    requires p == pre + sign + (whole + (if point then "." + fraction else "")) + suf
    requires Copied(pre) && SignText(sign) && Copied(suf) && Places(whole) && Places(fraction)
    requires !point ==> fraction == ""
    ensures ',' in p <==> ',' in whole || ',' in fraction
    ensures '+' in p <==> sign == "+"
    ensures '-' in p <==> sign == "-"
  {
  }

  // ---- the choice ----

  /** Numbers that are not negative are printed in the pattern before the semicolon; negative ones
      in the pattern behind it, if there is one. */
  lemma PatternUsed(pos: string, neg: string, sym: Symbols)
    requires pos != ""
    ensures var fo, fneg := NewFormat(false, pos, sym), NewFormat(true, neg, sym);
            && Used(fo, fneg, false) == Parsed(fo) && Used(fo, fneg, false).pattern == pos
            && !Used(fo, fneg, false).isNegative
            && (neg != "" ==> Used(fo, fneg, true) == Parsed(fneg) && Used(fo, fneg, true).pattern == neg &&
                              Used(fo, fneg, true).isNegative)
            && (neg == "" ==> Used(fo, fneg, true) == Used(fo, fneg, false))
            && fo.decimal == sym.decimal && fo.group == sym.group
            && Used(fo, fneg, false).plusSign == (if '+' in pos then sym.plusSign else NONE)
            && Used(fo, fneg, false).minusSign == (if '-' in pos then sym.minusSign else NONE)
  {
    hide Texts, CountPlaces, FirstPlace, PlacesAfterPoint;
  }

  // ---- an example for all numbers ----

  const PLAIN := "#,##0.00"
  const BRACKETED := "(#,##0.00)"

  lemma PlainParsed(sym: Symbols)
    ensures Parsed(NewFormat(false, PLAIN, sym)) ==
              Format(false, true, PLAIN, 2, NONE, NONE, sym.decimal, sym.group, "", "")
  {
    hide Parsed;
    assert "" + "" + ("#,##0" + ("." + "00")) + "" == PLAIN;
    ParsedPattern(NewFormat(false, PLAIN, sym), "", "", "#,##0", "00", true, "");
    assert "#,##0"[1] == ',';
  }

  lemma BracketedParsed(sym: Symbols)
    ensures Parsed(NewFormat(true, BRACKETED, sym)) ==
              Format(true, true, BRACKETED, 2, NONE, NONE, sym.decimal, sym.group, "(", ")")
  {
    hide Parsed;
    assert "(" + "" + ("#,##0" + ("." + "00")) + ")" == BRACKETED;
    ParsedPattern(NewFormat(true, BRACKETED, sym), "(", "", "#,##0", "00", true, ")");
    assert "#,##0"[1] == ',';
  }

  /** In the format "#,##0.00;(#,##0.00)" every number prints as its digits in groups of three, the
      decimal point and two fraction digits, and exactly the negative ones in brackets. */
  lemma Bracketed(sign: int, intgr: Int64, frac: Int64, sym: Symbols, round: Rounding)
    requires intgr > -MAX_INT64 - 1 && 0 <= frac < 100 && (sign != 0 || intgr != 0)
    requires sym.decimal != '-' && sym.group !in {'-', NONE} && !IsDigit(sym.group)
    ensures var fo, fneg := NewFormat(false, PLAIN, sym), NewFormat(true, BRACKETED, sym);
            var negative := intgr < 0 || (intgr == 0 && sign < 0);
            var text := Grouped(Print(if intgr < 0 then -(intgr as int) else intgr), sym.group) + [sym.decimal] +
                        [DigitChar(frac / 10), DigitChar(frac % 10)];
            Render(Used(fo, fneg, Sign(sign, intgr) < 0), sign, intgr, 2, frac, round) ==
              Ok(if negative then "(" + text + ")" else text)
  {
    hide Render, Grouped, Parsed, Print, Used, FracText, Adjust;
    PlainParsed(sym);
    BracketedParsed(sym);
    PatternUsed(PLAIN, BRACKETED, sym);
    InBrackets(Used(NewFormat(false, PLAIN, sym), NewFormat(true, BRACKETED, sym), Sign(sign, intgr) < 0),
               sign, intgr, frac, round);
    var text := Grouped(Print(Abs(intgr)), sym.group) + [sym.decimal] + [DigitChar(frac / 10), DigitChar(frac % 10)];
    assert "" + text + "" == text;
  }

  /** Formats for negative numbers with brackets around them, and others without. */
  lemma InBrackets(f: Format, sign: int, intgr: Int64, frac: Int64, round: Rounding)
    requires intgr > -MAX_INT64 - 1 && 0 <= frac < 100 && f.precision == 2
    requires f.plusSign == NONE && f.minusSign == NONE && f.group != NONE && Clean(f)
    requires f.isNegative <==> Sign(sign, intgr) < 0
    ensures Render(f, sign, intgr, 2, frac, round) ==
              Ok(f.prefix + (Grouped(Print(Abs(intgr)), f.group) + [f.decimal] +
                 [DigitChar(frac / 10), DigitChar(frac % 10)]) + f.suffix)
  {
    hide Render, Grouped, Print, FracText, Adjust, Clean;
    Hundred();
    Layout(f, sign, intgr, 2, frac, round);
    TwoDigits(f, frac, round);
    var w, d, x := Grouped(Print(Abs(intgr)), f.group), [f.decimal], [DigitChar(frac / 10), DigitChar(frac % 10)];
    assert "" + f.prefix + "" + w + d + x + f.suffix == f.prefix + (w + d + x) + f.suffix;
  }

  lemma Hundred()
    ensures Pow10(2) == 100 && Pow10(0) == 1
  {
    assert Pow10(1) == 10 * Pow10(0);
  }

  lemma TwoDigits(f: Format, frac: Int64, round: Rounding)
    requires f.precision == 2 && 0 <= frac < 100
    ensures FracText(f, Adjust(f, frac, 2, round)) == Ok([DigitChar(frac / 10), DigitChar(frac % 10)])
  {
    if frac < 10 {
      assert Print(frac) == [DigitChar(frac)];
      assert Zeros(1) + [DigitChar(frac)] == [DigitChar(0), DigitChar(frac)];
    } else {
      assert Print(frac / 10) == [DigitChar(frac / 10)];
      var a, b := DigitChar(frac / 10), DigitChar(frac % 10);
      assert Print(frac) == [a] + [b] == [a, b];
    }
  }
}

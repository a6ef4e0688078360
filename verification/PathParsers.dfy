/** Path.Parse and Path.UnmarshalText (config/path.go) read the id of a fully qualified text with
    two different integer parsers. When they agree, exactly. */
module PathParsers {
  import opened Common
  import opened Decimal
  import opened Path
  import opened PathCodec
  import Scope

  // ---- byteconv.ParseInt in closed form ----

  /** math.MaxUint64 / 10, above which byteconv.ParseInt refuses one more character. */
  const LIMIT := 0x1999_9999_9999_9999

  /** Where the digits that begin at `from` end. */
  function DigitsEnd(s: string, from: nat): (end: nat)
    requires from <= |s|
    ensures from <= end <= |s| && (end < |s| ==> !IsDigit(s[end]))
    ensures forall j | from <= j < end :: IsDigit(s[j])
    decreases |s| - from
  {
    if from < |s| && IsDigit(s[from]) then DigitsEnd(s, from + 1) else from
  }

  /** The number that the digits from `from` to `to` denote. */
  function Number(s: string, from: nat, to: nat): nat
    requires from <= to <= |s| && forall j | from <= j < to :: IsDigit(s[j])
  {
    Value(s[from..to])
  }

  /** At some character that is looked at, the number read so far, modulo 2^64, is above the limit. */
  ghost predicate Refused(s: string, from: nat, i: nat)
    requires from <= i <= |s| && i <= DigitsEnd(s, from)
  {
    exists k | i <= k <= DigitsEnd(s, from) && k < |s| :: Number(s, from, k) % TWO_64 > LIMIT
  }

  function SignLength(s: string): nat { if s != "" && (s[0] == '+' || s[0] == '-') then 1 else 0 }

  /** What byteconv.ParseInt makes of an id, without its loop: the number modulo 2^64 unless it
      is refused on the way or does not fit an int64; nothing is 0, and text behind a negative
      number is ignored. */
  ghost function ReadID(s: string): (r: Option<int>)
    ensures r.Some? ==> -MAX_INT64 - 1 <= r.value <= MAX_INT64
  {
    var from := SignLength(s);
    var end := DigitsEnd(s, from);
    var n := Number(s, from, end) % TWO_64;
    if Refused(s, from, from) then None
    else if s != "" && s[0] == '-' then if n <= MAX_INT64 + 1 then Some(-(n as int)) else None
    else if n <= MAX_INT64 && end == |s| then Some(n) else None
  }

  lemma ModStep(x: nat, d: nat)
    ensures (x % TWO_64 * 10 + d) % TWO_64 == (x * 10 + d) % TWO_64
  {
    var q, m := x / TWO_64, x % TWO_64;
    assert x * 10 + d == (m * 10 + d) + (10 * q) * TWO_64;
    ModAdd(m * 10 + d, 10 * q);
  }

  lemma {:induction false} ModAdd(a: nat, q: nat)
    ensures (a + q * TWO_64) % TWO_64 == a % TWO_64
  {
    if q == 0 {
    } else {
      ModAdd(a, q - 1);
      assert a + q * TWO_64 == (a + (q - 1) * TWO_64) + TWO_64;
    }
  }

  lemma NumberNext(s: string, from: nat, i: nat)
    requires from <= i < |s| && forall j | from <= j <= i :: IsDigit(s[j])
    ensures Number(s, from, i + 1) == Number(s, from, i) * 10 + DigitValue(s[i])
  {
    assert s[from..i + 1][..i - from] == s[from..i];
  }

  /** The digit loop from any of its positions on. */
  lemma {:induction false} AccumulatorClosed(s: string, from: nat, i: nat)
    requires from <= i <= |s| && i <= DigitsEnd(s, from)
    ensures AccumulateDigits(s, i, Number(s, from, i) % TWO_64) ==
              if Refused(s, from, i) then None
              else Some((Number(s, from, DigitsEnd(s, from)) % TWO_64, DigitsEnd(s, from)))
    decreases |s| - i
  {
    hide Number, DigitsEnd;
    var end, n := DigitsEnd(s, from), Number(s, from, i) % TWO_64;
    if i == end || n > LIMIT {
    } else {
      NumberNext(s, from, i);
      ModStep(Number(s, from, i), DigitValue(s[i]));
      AccumulatorClosed(s, from, i + 1);
      assert Refused(s, from, i) <==> Refused(s, from, i + 1);
    }
  }

  /** byteconv.ParseInt is ReadID, for every text. */
  lemma ParseIntBytesIs(s: string)
    ensures ParseIntBytes(s) == ReadID(s)
  {
    hide AccumulateDigits, DigitsEnd;
    var from := SignLength(s);
    assert s[from..from] == "";
    AccumulatorClosed(s, from, from);
  }

  // ---- the two text parsers ----

  /** The ids that strconv.ParseInt reads. */
  predicate InRange(idStr: string) { idStr != "" && AllDigits(idStr) && Value(idStr) <= MAX_INT64 }

  /** The route alone decides whether a path with a known scope is valid. */
  predicate ValidRoute(rt: Runes, route: string) {
    Valid(rt, PathValue(route, Scope.DEFAULT_TYPE_ID, false, false, ""))
  }

  function Text(scopeStr: string, idStr: string, route: string): string { scopeStr + "/" + idStr + "/" + route }

  lemma MadeFromString(scopeStr: string, id: int)
    requires Scope.ValidStr(scopeStr) && -MAX_INT64 - 1 <= id <= MAX_INT64
    ensures Scope.ValidTypeID(Scope.MakeTypeID(Scope.FromString(scopeStr), id))
  {
  }

  /** Whatever the id is, a known scope with it is valid. */
  lemma RouteDecides(rt: Runes, scopeStr: string, id: int, route: string, env: string)
    requires Scope.ValidStr(scopeStr) && -MAX_INT64 - 1 <= id <= MAX_INT64
    ensures var t := Scope.MakeTypeID(Scope.FromString(scopeStr), id);
            Valid(rt, PathValue(route, t, false, false, env)) <==> ValidRoute(rt, route)
    ensures ValidRoute(rt, route) ==> CountSlash(route) >= PATH_LEVELS - 1
  {
    hide CountSlash, Scope.MakeTypeID, Scope.FromString;
    MadeFromString(scopeStr, id);
    assert Scope.ValidTypeID(Scope.DEFAULT_TYPE_ID);
  }

  lemma {:induction false} ValueOfPrefix(s: string, k: nat)
    requires AllDigits(s) && k < |s|
    ensures AllDigits(s[..k]) && Value(s[..k]) * 10 <= Value(s)
  {
    var before := s[..|s| - 1];
    if k < |before| {
      ValueOfPrefix(before, k);
      assert before[..k] == s[..k];
    } else {
      assert s[..k] == before;
    }
  }

  /** On ids in range both integer parsers give the number. */
  lemma ReadInRange(s: string)
    requires InRange(s)
    ensures ParseInt(s) == ReadID(s) == Some(Value(s))
  {
    hide Value;
    assert IsDigit(s[0]) && DigitsEnd(s, 0) == |s| && s[0..|s|] == s;
    forall k | 0 <= k < |s| ensures Number(s, 0, k) % TWO_64 <= LIMIT {
      ValueOfPrefix(s, k);
      assert s[0..k] == s[..k];
    }
  }

  lemma NoSlashInScope(scopeStr: string)
    requires Scope.ValidStr(scopeStr)
    ensures CountSlash(scopeStr) == 0
  {
    CountSlashZero(scopeStr);
  }

  /** Parse takes a fully qualified text exactly if its id is in range and its route valid: with
      any other id the text, which starts with a scope name, is no route either. */
  lemma ParseTakes(rt: Runes, r: PathValue, scopeStr: string, idStr: string, route: string)
    requires rt.Sane() && r == Reset(r) && Scope.ValidStr(scopeStr) && CountSlash(idStr) == 0
    ensures var (p, e) := ParseStripped(rt, r, Text(scopeStr, idStr, route));
            && (e == None <==> InRange(idStr) && ValidRoute(rt, route))
            && (e == None ==>
              p == r.(route := route, scopeID := Scope.MakeTypeID(Scope.FromString(scopeStr), Value(idStr))))
  {
    hide CountSlash, SplitHeader, Value, Scope.MakeTypeID, Scope.FromString;
    NoSlashInScope(scopeStr);
    SplitHeaderUnique(scopeStr, idStr, route);
    var text := Text(scopeStr, idStr, route);
    assert StartsWithScope(text) by { assert text[..|scopeStr|] == scopeStr; }
    if InRange(idStr) { RouteDecides(rt, scopeStr, Value(idStr), route, r.envSuffix); }
  }

  /** UnmarshalText takes it exactly if byteconv.ParseInt reads its id and the route is valid. */
  lemma UnmarshalTakes(rt: Runes, r: PathValue, text: string, scopeStr: string, idStr: string, route: string)
    requires Scope.ValidStr(scopeStr) && CountSlash(idStr) == 0
    requires StripEnvSuffix(r.envSuffix, text) == Ok(Text(scopeStr, idStr, route))
    ensures var (q, f) := Unmarshal(rt, r, text);
            && (f == None <==> ReadID(idStr).Some? && ValidRoute(rt, route))
            && (f == None ==>
                  q == Reset(r).(route := route,
                    scopeID := Scope.MakeTypeID(Scope.FromString(scopeStr), ReadID(idStr).value)))
  {
    hide CountSlash, SplitHeader, ParseIntBytes, ReadID, ValidRoute, Scope.MakeTypeID, Scope.FromString, StripEnvSuffix;
    NoSlashInScope(scopeStr);
    SplitHeaderUnique(scopeStr, idStr, route);
    ParseIntBytesIs(idStr);
    RouteDecides(rt, scopeStr, 0, route, r.envSuffix);
    if ParseIntBytes(idStr).Some? { RouteDecides(rt, scopeStr, ParseIntBytes(idStr).value, route, r.envSuffix); }
  }

  /** The two text parsers give the same verdict on a fully qualified text with a known scope
      exactly if its id is in range, or byteconv.ParseInt refuses it too, or the route is
      invalid; and whenever both succeed they give the same path. This holds for every id,
      empty, signed or otherwise, and any environment suffix. */
  lemma ParsersAgreeIff(rt: Runes, r: PathValue, text: string, scopeStr: string, idStr: string, route: string)
    requires rt.Sane() && Scope.ValidStr(scopeStr) && CountSlash(idStr) == 0
    requires StripEnvSuffix(r.envSuffix, text) == Ok(Text(scopeStr, idStr, route))
    ensures var (p, e) := ParseText(rt, r, text);
            var (q, f) := Unmarshal(rt, r, text);
            && ((e == None <==> f == None) <==> InRange(idStr) || ReadID(idStr).None? || !ValidRoute(rt, route))
            && (e == None && f == None ==> p == q)
  {
    hide CountSlash, ParseStripped, Unmarshal, ReadID, ParseIntBytes, InRange, ValidRoute, StripEnvSuffix, Value;
    ParseTakes(rt, Reset(r), scopeStr, idStr, route);
    UnmarshalTakes(rt, r, text, scopeStr, idStr, route);
    ParseIntBytesIs(idStr);
    if InRange(idStr) { ReadInRange(idStr); }
  }

  /** In particular they agree on ids written in ASCII digits that fit an int64. */
  lemma ParsersAgree(rt: Runes, r: PathValue, scopeStr: string, idStr: string, route: string)
    requires rt.Sane() && r.envSuffix == ""
    requires Scope.ValidStr(scopeStr) && idStr != "" && AllDigits(idStr) && Value(idStr) <= MAX_INT64
    ensures var text := Text(scopeStr, idStr, route);
            var (p, e) := ParseText(rt, r, text);
            var (q, f) := Unmarshal(rt, r, text);
            (e == None <==> f == None) && (e == None ==> p == q)
  {
    hide ParseText, Unmarshal, ReadID, ValidRoute, Value;
    CountSlashZero(idStr);
    ParsersAgreeIff(rt, r, Text(scopeStr, idStr, route), scopeStr, idStr, route);
  }

  /** An id of digits only wraps around to something that fits an int64. */
  ghost predicate Wraps(idStr: string)
    requires AllDigits(idStr)
  {
    && Value(idStr) % TWO_64 <= MAX_INT64
    && forall k | 0 <= k < |idStr| :: Number(idStr, 0, k) % TWO_64 <= LIMIT
  }

  lemma DigitsRead(idStr: string)
    requires AllDigits(idStr)
    ensures ReadID(idStr).Some? <==> Wraps(idStr)
    ensures Wraps("")
  {
    hide Value;
    NothingIsZero();
    assert DigitsEnd(idStr, 0) == |idStr| && idStr[0..|idStr|] == idStr;
    assert idStr != "" ==> IsDigit(idStr[0]);
  }

  /** For ids of digits only, by the number alone: the parsers part exactly on a valid route
      with the empty id, or with an id beyond int64 that wraps around. */
  lemma DigitsPartIff(rt: Runes, r: PathValue, scopeStr: string, idStr: string, route: string)
    requires rt.Sane() && r.envSuffix == "" && Scope.ValidStr(scopeStr) && AllDigits(idStr)
    ensures var text := Text(scopeStr, idStr, route);
            ParseText(rt, r, text).1 != None && Unmarshal(rt, r, text).1 == None <==>
              ValidRoute(rt, route) && (idStr == "" || (Value(idStr) > MAX_INT64 && Wraps(idStr)))
  {
    hide ParseStripped, Unmarshal, ValidRoute, Value, ParseIntBytes, CountSlash, ReadID, Wraps;
    CountSlashZero(idStr);
    ParseTakes(rt, Reset(r), scopeStr, idStr, route);
    UnmarshalTakes(rt, r, Text(scopeStr, idStr, route), scopeStr, idStr, route);
    DigitsRead(idStr);
  }

  lemma NothingIsZero()
    ensures Value("") == 0
  {
  }

  // ---- texts on which they part ----

  /** 2^64 + 1 is read as 1. */
  lemma WrappedNumber(n: nat)
    requires n == TWO_64 + 1
    ensures ReadID(Print(n)) == Some(1) && !InRange(Print(n))
  {
    hide Value, Print;
    var s := Print(n);
    ValueOfPrint(n);
    assert DigitsEnd(s, 0) == |s| && s[0..|s|] == s;
    forall k | 0 <= k < |s| ensures Number(s, 0, k) % TWO_64 <= LIMIT {
      ValueOfPrefix(s, k);
      assert s[0..k] == s[..k];
    }
    assert IsDigit(s[0]);
  }

  lemma OneIsOne()
    ensures Value("") == 0 && Value("1") == 1
  {
    assert "1"[..0] == "";
  }

  lemma NegativeIDs()
    ensures ReadID("-1") == ReadID("-1x") == Some(-1) && !InRange("-1") && !InRange("-1x")
  {
    hide Value;
    OneIsOne();
    assert "-1"[1..2] == "1" && "-1x"[1..2] == "1" && "-1"[1..1] == "" && "-1x"[1..1] == "";
    assert DigitsEnd("-1", 1) == 2 && DigitsEnd("-1x", 1) == 2;
  }

  lemma ShortRouteIsValid(rt: Runes)
    requires rt.legal("aa/bb/cc") && rt.count("aa/bb/cc") == 8
    ensures ValidRoute(rt, "aa/bb/cc")
  {
    hide CountSlash;
    var route := "aa/bb/cc";
    NoSlashInWord("aa");
    NoSlashInWord("bb");
    NoSlashInWord("cc");
    SplitHeaderUnique("aa", "bb", "cc");
    assert route == "aa" + "/" + "bb" + "/" + "cc";
    assert route[0] == 'a' && "default"[0] == 'd' && "websites"[0] == 'w' && "stores"[0] == 's';
    assert Scope.ValidTypeID(Scope.DEFAULT_TYPE_ID);
  }

  lemma NoSlashInWord(w: string)
    requires |w| == 2 && w[0] != '/' && w[1] != '/'
    ensures CountSlash(w) == 0
  {
    CountSlashZero(w);
  }

  /** Parse rejects each of these texts, UnmarshalText takes it. */
  lemma PartingTexts(rt: Runes, idStr: string)
    requires rt.Sane() && rt.legal("aa/bb/cc") && rt.count("aa/bb/cc") == 8
    requires idStr in {"", "-1", "-1x", Print(TWO_64 + 1)}
    ensures var r, text := PathValue("", 0, false, false, ""), Text("stores", idStr, "aa/bb/cc");
            ParseText(rt, r, text).1.Some? && Unmarshal(rt, r, text).1 == None
  {
    hide ParseStripped, Unmarshal, ValidRoute, ReadID, CountSlash, Value, Print, Text;
    var r, text := PathValue("", 0, false, false, ""), Text("stores", idStr, "aa/bb/cc");
    WrappedNumber(TWO_64 + 1);
    NegativeIDs();
    NothingRead();
    CountSlashZero(idStr);
    ShortRouteIsValid(rt);
    ParseTakes(rt, r, "stores", idStr, "aa/bb/cc");
    UnmarshalTakes(rt, r, text, "stores", idStr, "aa/bb/cc");
  }

  lemma NothingRead()
    ensures ReadID("") == Some(0) && !InRange("")
  {
    assert ""[0..0] == "";
  }
}

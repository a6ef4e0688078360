/** What paths look like (config/path.go): which routes are valid, what Parse says about any text,
    and the exact text and bytes of a printed path. */
module PathTexts {
  import opened Common
  import opened Decimal
  import opened Path
  import opened PathCodec
  import opened PathParsers
  import Scope

  // ---- valid routes ----

  lemma {:induction false} AllSlashes(s: string)
    ensures CountSlash(s) <= |s|
    ensures CountSlash(s) == |s| <==> forall i | 0 <= i < |s| :: s[i] == '/'
  {
    if s == "" {
    } else {
      var front := s[..|s| - 1];
      AllSlashes(front);
      assert forall i | 0 <= i < |front| :: s[i] == front[i];
    }
  }

  lemma {:induction false} TwoOrMore(s: string)
    ensures CountSlash(s) >= 1 <==> exists i :: 0 <= i < |s| && s[i] == '/'
    ensures CountSlash(s) >= 2 <==> exists i, j :: 0 <= i < j < |s| && s[i] == '/' && s[j] == '/'
  {
    if s == "" {
    } else {
      var front := s[..|s| - 1];
      TwoOrMore(front);
      assert forall i | 0 <= i < |front| :: s[i] == front[i];
    }
  }

  /** At least three levels, at least eight runes, legal runes only, not slashes alone, and no scope
      name in front. */
  ghost predicate GoodRoute(rt: Runes, route: string) {
    && (exists i, j :: 0 <= i < j < |route| && route[i] == '/' && route[j] == '/')
    && rt.count(route) >= 8
    && rt.legal(route)
    && (exists i :: 0 <= i < |route| && route[i] != '/')
    && !("default" < route) && !("websites" < route) && !("stores" < route)
  }

  lemma NoScopeInFront(route: string)
    ensures StartsWithScope(route) <==> "default" < route || "websites" < route || "stores" < route
  {
  }

  /** Path.IsValid: which paths are valid, and the error for the others. */
  lemma ValidIff(rt: Runes, p: PathValue)
    requires !p.routeValidated
    ensures IsValid(rt, p) == None <==>
              GoodRoute(rt, p.route) && p.scopeID % 0x100_0000 <= 0x7F_FFFF && p.scopeID / 0x100_0000 <= 4
    ensures IsValid(rt, p) == Some(Empty) <==> p.route == ""
    ensures IsValid(rt, p) in {None, Some(Empty), Some(NotValid)}
  {
    hide CountSlash, StartsWithScope;
    AllSlashes(p.route);
    TwoOrMore(p.route);
    NoScopeInFront(p.route);
  }

  /** A route that was validated before is only checked for its levels and its length. */
  lemma ValidatedIff(rt: Runes, p: PathValue)
    requires p.routeValidated
    ensures IsValid(rt, p) == None <==>
              rt.count(p.route) >= 8 && exists i, j :: 0 <= i < j < |p.route| && p.route[i] == '/' && p.route[j] == '/'
    ensures IsValid(rt, p) in {None, Some(NotValid)}
  {
    hide CountSlash;
    TwoOrMore(p.route);
  }

  lemma RouteIff(rt: Runes, route: string)
    ensures ValidRoute(rt, route) <==> GoodRoute(rt, route)
  {
    ValidIff(rt, PathValue(route, Scope.DEFAULT_TYPE_ID, false, false, ""));
  }

  // ---- Parse ----

  /** A text whose second part is not made of digits is a route at the default scope. */
  lemma ParseBareRoute(rt: Runes, r: PathValue, a: string, b: string, c: string)
    requires CountSlash(a) == 0 && CountSlash(b) == 0 && !rt.digitsOnly(b)
    requires r.envSuffix == "" || !HasSuffix(Text(a, b, c), r.envSuffix)
    ensures var text := Text(a, b, c);
            var (p, e) := ParseText(rt, r, text);
            && p == PathValue(text, Scope.DEFAULT_TYPE_ID, false, false, r.envSuffix)
            && (e == None <==> GoodRoute(rt, text))
            && (e != None ==> e == Some(NotValid))
  {
    hide CountSlash, SplitHeader, IsValid, GoodRoute;
    SplitHeaderUnique(a, b, c);
    ValidIff(rt, PathValue(Text(a, b, c), Scope.DEFAULT_TYPE_ID, false, false, r.envSuffix));
  }

  /** The packed scope a text names; an id that is too large gives none. */
  function PackedScope(name: string, id: nat): Scope.TypeID {
    if id > 0x7F_FFFF then 0
    else if name == "stores" then 0x400_0000 + id
    else if name == "websites" then 0x200_0000 + id
    else 0x100_0000
  }

  lemma PackedIs(name: string, id: nat)
    requires Scope.ValidStr(name) && id <= MAX_INT64
    ensures Scope.MakeTypeID(Scope.FromString(name), id) == PackedScope(name, id)
  {
  }

  /** If it is made of digits, the text is a fully qualified path or an error. */
  lemma ParseQualified(rt: Runes, r: PathValue, a: string, b: string, c: string)
    requires CountSlash(a) == 0 && CountSlash(b) == 0 && rt.digitsOnly(b)
    requires r.envSuffix == "" || !HasSuffix(Text(a, b, c), r.envSuffix)
    ensures var (p, e) := ParseText(rt, r, Text(a, b, c));
            && (!InRange(b) ==> e == Some(NotValid))
            && (InRange(b) && a !in {"default", "websites", "stores"} ==> e == Some(NotSupported))
            && (InRange(b) && a in {"default", "websites", "stores"} ==>
                  && (e == None <==> GoodRoute(rt, c)) && (e == Some(Empty) <==> c == "")
                  && p == PathValue(c, PackedScope(a, Value(b)), false, false, r.envSuffix))
  {
    hide CountSlash, SplitHeader, IsValid, GoodRoute, Value, Scope.MakeTypeID, PackedScope;
    SplitHeaderUnique(a, b, c);
    if InRange(b) && Scope.ValidStr(a) {
      MadeFromString(a, Value(b));
      PackedIs(a, Value(b));
      ValidIff(rt, Reset(r).(route := c, scopeID := Scope.MakeTypeID(Scope.FromString(a), Value(b))));
    }
  }

  /** With fewer than two slashes it is an error. */
  lemma ParseShort(rt: Runes, r: PathValue, text: string)
    requires r.envSuffix == "" || !HasSuffix(text, r.envSuffix)
    requires !exists i, j :: 0 <= i < j < |text| && text[i] == '/' && text[j] == '/'
    ensures ParseText(rt, r, text).1 == Some(NotValid)
  {
    hide CountSlash;
    TwoOrMore(text);
  }

  /** What UnmarshalText refuses, and how. */
  lemma UnmarshalRefuses(rt: Runes, r: PathValue, a: string, b: string, c: string)
    requires CountSlash(a) == 0 && CountSlash(b) == 0
    requires r.envSuffix == "" || !HasSuffix(Text(a, b, c), r.envSuffix)
    ensures var (p, e) := Unmarshal(rt, r, Text(a, b, c));
            && (CountSlash(c) < 2 ==> e == Some(NotValid))
            && (CountSlash(c) >= 2 && a !in {"default", "websites", "stores"} ==> e == Some(NotSupported))
            && (CountSlash(c) >= 2 && a in {"default", "websites", "stores"} && e != None ==> e == Some(NotValid))
            && (a !in {"default", "websites", "stores"} || CountSlash(c) < 2 || ReadID(b) == None ==>
                  p == PathValue("", 0, false, false, r.envSuffix))
  {
    hide CountSlash, SplitHeader, IsValid, ParseIntBytes, ReadID, Scope.MakeTypeID;
    SplitHeaderUnique(a, b, c);
    ParseIntBytesIs(b);
  }

  // ---- FQ and MarshalBinary ----

  /** The fully qualified text of a valid path, by its packed scope. */
  lemma FQText(rt: Runes, p: PathValue)
    requires Valid(rt, p)
    ensures var tail := p.route + if p.useEnvSuffix && p.envSuffix != "" then "/" + p.envSuffix else "";
            && (0x400_0000 <= p.scopeID <= 0x47F_FFFF ==>
                  FQ(rt, p) == Ok("stores/" + Print(p.scopeID - 0x400_0000) + "/" + tail))
            && (0x200_0000 <= p.scopeID <= 0x27F_FFFF ==>
                  FQ(rt, p) == Ok("websites/" + Print(p.scopeID - 0x200_0000) + "/" + tail))
            && (p.scopeID < 0x200_0000 ==> FQ(rt, p) == Ok("default/0/" + tail))
  {
    hide IsValid, Print;
    var (t, id) := PrintedScope(p.scopeID);
    Joined(Scope.StrType(t), Print(id), p.route, PrintedSuffix(p));
    PrintZero();
    assert "stores" + "/" == "stores/" && "websites" + "/" == "websites/";
    assert "default" + "/" + "0" + "/" == "default/0/";
  }

  lemma Joined(a: string, b: string, c: string, d: string)
    ensures a + "/" + b + "/" + c + d == a + "/" + b + "/" + (c + d)
  {
  }

  lemma PrintZero()
    ensures Print(0) == "0"
  {
  }

  lemma Byte(n: nat, k: nat)
    ensures LittleEndian(n, k + 1) == [ByteChar(n % 256)] + LittleEndian(n / 256, k)
  {
  }

  lemma FourBytes(n: nat, k: nat)
    ensures LittleEndian(n, k + 4) ==
              [ByteChar(n % 256), ByteChar(n / 0x100 % 256), ByteChar(n / 0x1_0000 % 256),
               ByteChar(n / 0x100_0000 % 256)] +
              LittleEndian(n / 0x1_0000_0000, k)
  {
    hide LittleEndian, ByteChar;
    Byte(n, k + 3);
    Byte(n / 0x100, k + 2);
    Byte(n / 0x1_0000, k + 1);
    Byte(n / 0x100_0000, k);
  }

  /** The bytes of a path: the packed scope, lowest byte first, in eight bytes, then the route and
      the environment. */
  lemma BinaryText(p: PathValue)
    ensures var t := p.scopeID;
            MarshalBinary(p) ==
              [ByteChar(t % 256), ByteChar(t / 0x100 % 256), ByteChar(t / 0x1_0000 % 256), ByteChar(t / 0x100_0000)] +
              "\0\0\0\0" + (p.route + if p.useEnvSuffix && p.envSuffix != "" then "/" + p.envSuffix else "")
  {
    hide LittleEndian;
    FourBytes(p.scopeID, 4);
    FourBytes(0, 0);
    assert LittleEndian(0, 0) == "";
    assert LittleEndian(0, 4) == "\0\0\0\0";
  }

  /** UnmarshalBinary: thirteen bytes at least; the first four are the scope, lowest byte first, the
      next four are ignored, and the rest is the route. */
  lemma BinaryRead(rt: Runes, r: PathValue, data: string)
    requires r.envSuffix == "" || !HasSuffix(data[if |data| < 8 then 0 else 8..], r.envSuffix)
    ensures var (p, e) := UnmarshalBinary(rt, r, data);
            if |data| < 13 then p == PathValue("", 0, false, false, r.envSuffix) && e == Some(TooShort)
            else
              && p == PathValue(data[8..], Packed(data), false, false, r.envSuffix)
              && (e == None <==> GoodRoute(rt, data[8..]) && Packed(data) % 0x100_0000 <= 0x7F_FFFF &&
                                 Packed(data) / 0x100_0000 <= 4)
  {
    hide FromLittleEndian, IsValid, GoodRoute, Packed;
    if |data| >= 13 {
      LowerHalf(data[..8]);
      assert Packed(data[..8]) == Packed(data) by { SamePacked(data); }
      ValidIff(rt, PathValue(data[8..], Packed(data), false, false, r.envSuffix));
    }
  }

  /** The number in the first four bytes. */
  function Packed(data: string): Scope.TypeID
    requires |data| >= 4
  {
    data[0] as nat % 256 + 0x100 * (data[1] as nat % 256) + 0x1_0000 * (data[2] as nat % 256) +
    0x100_0000 * (data[3] as nat % 256)
  }

  lemma SamePacked(data: string)
    requires |data| >= 8
    ensures Packed(data[..8]) == Packed(data)
  {
  }

  lemma LowerHalf(s: string)
    requires |s| == 8
    ensures FromLittleEndian(s) % 0x1_0000_0000 == Packed(s)
  {
    var rest := FromLittleEndian(s[4..]);
    Unpacked(s);
    Unpacked(s[1..]);
    Unpacked(s[2..]);
    Unpacked(s[3..]);
    assert s[1..][1..] == s[2..] && s[2..][1..] == s[3..] && s[3..][1..] == s[4..];
    hide FromLittleEndian;
    assert FromLittleEndian(s) == Packed(s) + 0x1_0000_0000 * rest;
  }

  lemma Unpacked(s: string)
    requires s != ""
    ensures FromLittleEndian(s) == s[0] as nat % 256 + 256 * FromLittleEndian(s[1..])
  {
  }

  // ---- refused ids ----

  /** An id is refused as soon as one more digit would not fit 64 bits: whatever its last digit is. */
  lemma TooLargeIsRefused(n: nat)
    requires 0x1999_9999_9999_9999 < n / 10 < 0x1_0000_0000_0000_0000
    ensures ReadID(Print(n)) == None
  {
    hide Value, Print;
    var s := Print(n);
    PrintNotation(n / 10, n % 10);
    ValueOfPrint(n / 10);
    var k := |s| - 1;
    assert s[0..k] == Print(n / 10);
    assert IsDigit(s[0]) && DigitsEnd(s, 0) == |s|;
    assert Number(s, 0, k) % TWO_64 == n / 10;
  }

  // ---- levels ----

  /** Path.Level: nothing for depth 0, everything for a negative depth or one beyond the slashes, else
      what stands before that slash. */
  lemma LevelMeans(fq: string, depth: int)
    ensures depth == 0 ==> LevelOf(fq, depth) == ""
    ensures depth < 0 || depth > CountSlash(fq) ==> LevelOf(fq, depth) == fq
    ensures 0 < depth <= CountSlash(fq) ==>
              var level := LevelOf(fq, depth);
              level + "/" <= fq && CountSlash(level) == depth - 1
  {
    hide CountSlash;
    if depth > 0 {
      NthSlashShape(fq, 0, depth);
      var e := NthSlash(fq, 0, depth);
      assert fq[0..] == fq && fq[0..e] == fq[..e] && fq[..|fq|] == fq;
      if e < |fq| { assert fq[..e] + [fq[e]] == fq[..e + 1]; }
    }
  }
}

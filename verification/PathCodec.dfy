/** The printers and parsers of config/path.go undo each other, and exactly when. */
module PathCodec {
  import opened Common
  import opened Decimal
  import opened RouteKey
  import opened Path
  import Scope

  /** The path passes validation without relying on the routeValidated shortcut. */
  predicate FreshlyValid(rt: Runes, p: PathValue) {
    Valid(rt, p.(routeValidated := false))
  }

  /** A receiver with environment `env` cuts from `base` + (suffix of p) exactly what the
      printer appended to `base`. */
  predicate CutsWhatWasPrinted(p: PathValue, base: string, env: string) {
    if PrintedSuffix(p) == "" then env == "" || !HasSuffix(base, env)
    else env == p.envSuffix
  }

  lemma StripIsExact(p: PathValue, base: string, env: string)
    requires base != ""
    ensures StripEnvSuffix(env, base + PrintedSuffix(p)) == Ok(base) <==> CutsWhatWasPrinted(p, base, env)
  {
    var suffix := PrintedSuffix(p);
    var text := base + suffix;
    if suffix == "" {
      assert text == base;
    } else {
      assert text[|text| - |p.envSuffix|..] == p.envSuffix;
      assert text[..|base|] == base;
      if StripEnvSuffix(env, text) == Ok(base) {
        assert |env| == |p.envSuffix|;
      }
    }
  }

  lemma SplitHeaderUnique(a: string, b: string, c: string)
    requires CountSlash(a) == 0 && CountSlash(b) == 0
    ensures CountSlash(a + "/" + b + "/" + c) == 2 + CountSlash(c)
    ensures SplitHeader(a + "/" + b + "/" + c) == (a, b, c)
  {
    hide CountSlash;
    var text := a + "/" + b + "/" + c;
    var i, j := |a|, |a| + 1 + |b|;
    assert text[0..i] == a && text[i + 1..j] == b && text[j + 1..] == c;
    PieceAt(text, 0, a);
    PieceAt(text, i + 1, b);
    CountAcrossSlash(text, 0, i, |text|);
    CountAcrossSlash(text, i + 1, j, |text|);
    assert text[0..|text|] == text && text[0..i] == text[..i] && text[j + 1..|text|] == c;
  }

  lemma PieceAt(text: string, from: nat, w: string)
    requires CountSlash(w) == 0
    requires from + |w| < |text| && text[from..from + |w|] == w && text[from + |w|] == '/'
    ensures IndexSlash(text, from) == from + |w|
  {
    CountSlashZero(w);
    assert NoSlash(text, from, from + |w|) by {
      forall k | from <= k < from + |w| ensures text[k] != '/' { assert text[k] == w[k - from]; }
    }
    FirstSlash(text, from, from + |w|);
  }

  lemma NoSlashInHeader(t: Scope.TypeID)
    ensures var (s, id) := PrintedScope(t);
            CountSlash(Scope.StrType(s)) == 0 && CountSlash(Print(id)) == 0
  {
    var (s, id) := PrintedScope(t);
    CountSlashZero(Scope.StrType(s));
    CountSlashZero(Print(id));
    assert forall k | 0 <= k < |Print(id)| :: IsDigit(Print(id)[k]);
  }

  lemma HeaderSplits(t: Scope.TypeID, rest: string)
    ensures var (s, id) := PrintedScope(t);
            CountSlash(Header(t) + rest) >= 2 &&
            SplitHeader(Header(t) + rest) == (Scope.StrType(s), Print(id), rest)
  {
    var (s, id) := PrintedScope(t);
    NoSlashInHeader(t);
    SplitHeaderUnique(Scope.StrType(s), Print(id), rest);
    assert Header(t) + rest == Scope.StrType(s) + "/" + Print(id) + "/" + rest;
  }

  lemma {:induction false} CountSlashPrefix(s: string, k: nat)
    requires k <= |s|
    ensures CountSlash(s[..k]) <= CountSlash(s)
  {
    assert s == s[..k] + s[k..];
    CountSlashSum(s[..k], s[k..]);
  }

  /** A cut-down fully qualified text that still has two slashes kept the whole header. */
  lemma TwoSlashesKeepHeader(t: Scope.TypeID, text: string, k: nat)
    requires Header(t) <= text && k <= |text| && CountSlash(text[..k]) >= 2
    ensures Header(t) <= text[..k]
  {
    var (s, id) := PrintedScope(t);
    var short := Scope.StrType(s) + "/" + Print(id);
    if k < |Header(t)| {
      assert text[..k] == short[..k];
      NoSlashInHeader(t);
      CountSlashSum(Scope.StrType(s) + "/", Print(id));
      CountSlashSum(Scope.StrType(s), "/");
      assert CountSlash("/") == 1 by { assert "/"[..0] == ""; }
      CountSlashPrefix(short, k);
    }
  }

  lemma StrippedIsPrefix(env: string, text: string)
    requires StripEnvSuffix(env, text).Ok?
    ensures StripEnvSuffix(env, text).value <= text
  {
  }

  lemma ParsedScope(t: Scope.TypeID)
    ensures var (s, id) := PrintedScope(t);
            Scope.ValidStr(Scope.StrType(s)) &&
            ParseInt(Print(id)) == Some(id) &&
            Scope.MakeTypeID(Scope.FromString(Scope.StrType(s)), id) == NormalScope(t) &&
            Scope.ValidTypeID(NormalScope(t))
  {
    var (s, id) := PrintedScope(t);
    ValueOfPrint(id);
    Scope.FromStringOfStr(s);
    Scope.PackRoundTrip(s, id);
  }

  /** The parse that the printer intends. */
  function Reparsed(p: PathValue, env: string): PathValue {
    PathValue(p.route, NormalScope(p.scopeID), false, false, env)
  }

  /** Whatever text remains after the suffix was cut, Parse restores the path from it exactly
      when the text is the header followed by the route. */
  lemma ParseStrippedExactly(rt: Runes, p: PathValue, r: PathValue, text: string, k: nat)
    requires rt.Sane() && FreshlyValid(rt, p) && r == Reset(r)
    requires Header(p.scopeID) <= text && k <= |text|
    ensures ParseStripped(rt, r, text[..k]) == (Reparsed(p, r.envSuffix), None) <==>
              text[..k] == Header(p.scopeID) + p.route
  {
    hide CountSlash, SplitHeader, Print, Value, ParseInt, NormalScope, Scope.StrType, Header;
    var t := text[..k];
    var h := Header(p.scopeID);
    var (s, id) := PrintedScope(p.scopeID);
    if CountSlash(t) >= 2 {
      TwoSlashesKeepHeader(p.scopeID, text, k);
      assert t == h + t[|h|..];
      HeaderSplits(p.scopeID, t[|h|..]);
      ParsedScope(p.scopeID);
      assert rt.digitsOnly(Print(id));
    } else {
      HeaderSplits(p.scopeID, p.route);
    }
  }

  /** Parse undoes FQ exactly when the receiver's environment cuts what the path printed.
      Scopes other than website and store come back as default/0. */
  lemma ParseUndoesFQ(rt: Runes, p: PathValue, r: PathValue)
    requires rt.Sane() && FreshlyValid(rt, p)
    ensures FQ(rt, p).Ok?
    ensures ParseText(rt, r, FQ(rt, p).value) == (Reparsed(p, r.envSuffix), None) <==>
              CutsWhatWasPrinted(p, Header(p.scopeID) + p.route, r.envSuffix)
  {
    var base := Header(p.scopeID) + p.route;
    var text := base + PrintedSuffix(p);
    assert FQ(rt, p) == Ok(text);
    StripIsExact(p, base, r.envSuffix);
    match StripEnvSuffix(r.envSuffix, text) {
      case Err(_) =>
      case Ok(t) =>
        StrippedIsPrefix(r.envSuffix, text);
        assert t == text[..|t|];
        ParseStrippedExactly(rt, p, Reset(r), text, |t|);
    }
  }

  /** The case the printer and parser are used for: no suffix on either side, or the same
      enabled suffix on both. */
  lemma ParseUndoesFQSameEnvironment(rt: Runes, p: PathValue, r: PathValue)
    requires rt.Sane() && FreshlyValid(rt, p)
    requires if p.useEnvSuffix then r.envSuffix == p.envSuffix else r.envSuffix == ""
    ensures FQ(rt, p).Ok?
    ensures ParseText(rt, r, FQ(rt, p).value) == (Reparsed(p, r.envSuffix), None)
  {
    ParseUndoesFQ(rt, p, r);
  }

  /** Two valid paths without suffix print alike exactly when route and printed scope agree. */
  lemma FQInjective(rt: Runes, p: PathValue, q: PathValue)
    requires rt.Sane() && FreshlyValid(rt, p) && FreshlyValid(rt, q)
    requires !p.useEnvSuffix && !q.useEnvSuffix
    ensures FQ(rt, p) == FQ(rt, q) <==> p.route == q.route && NormalScope(p.scopeID) == NormalScope(q.scopeID)
  {
    var r := PathValue("", 0, false, false, "");
    ParseUndoesFQSameEnvironment(rt, p, r);
    ParseUndoesFQSameEnvironment(rt, q, r);
    if NormalScope(p.scopeID) == NormalScope(q.scopeID) {
      ParsedScope(p.scopeID);
      ParsedScope(q.scopeID);
      var (s, id) := PrintedScope(p.scopeID);
      var (s', id') := PrintedScope(q.scopeID);
      Scope.PackRoundTrip(s, id);
      Scope.PackRoundTrip(s', id');
    }
  }

  function Pow256(n: nat): nat { if n == 0 then 1 else 256 * Pow256(n - 1) }

  lemma {:induction false} LittleEndianRoundTrip(n: nat, bytes: nat)
    requires n < Pow256(bytes)
    ensures FromLittleEndian(LittleEndian(n, bytes)) == n
  {
    if bytes == 0 {
    } else {
      LittleEndianRoundTrip(n / 256, bytes - 1);
      assert LittleEndian(n, bytes)[1..] == LittleEndian(n / 256, bytes - 1);
    }
  }

  lemma ScopeBytes(t: Scope.TypeID)
    ensures FromLittleEndian(LittleEndian(t, 8)) == t
  {
    assert Pow256(4) == 0x1_0000_0000;
    assert Pow256(8) >= Pow256(6) >= Pow256(4);
    LittleEndianRoundTrip(t, 8);
  }

  /** UnmarshalBinary undoes MarshalBinary, scope id included, exactly when the receiver's
      environment cuts what the path printed. */
  lemma BinaryRoundTrip(rt: Runes, p: PathValue, r: PathValue)
    requires rt.Sane() && FreshlyValid(rt, p)
    ensures UnmarshalBinary(rt, r, MarshalBinary(p)) ==
            (PathValue(p.route, p.scopeID, false, false, r.envSuffix), None) <==>
              CutsWhatWasPrinted(p, p.route, r.envSuffix)
  {
    var data := MarshalBinary(p);
    RouteIsLong(rt, p);
    BinarySplits(p);
    StripIsExact(p, p.route, r.envSuffix);
    UnmarshalAfterScope(rt, p, r, data);
  }

  lemma RouteIsLong(rt: Runes, p: PathValue)
    requires rt.Sane() && FreshlyValid(rt, p)
    ensures |p.route| >= 8
  {
    assert rt.count(p.route) >= 8;
  }

  lemma UnmarshalAfterScope(rt: Runes, p: PathValue, r: PathValue, data: string)
    requires FreshlyValid(rt, p)
    requires |data| >= 13 && FromLittleEndian(data[..8]) == p.scopeID
    ensures UnmarshalBinary(rt, r, data) == (PathValue(p.route, p.scopeID, false, false, r.envSuffix), None) <==>
              StripEnvSuffix(r.envSuffix, data[8..]) == Ok(p.route)
  {
    var q := PathValue(p.route, p.scopeID, false, false, r.envSuffix);
    SameVerdict(rt, p.(routeValidated := false), q);
    if StripEnvSuffix(r.envSuffix, data[8..]) == Ok(p.route) {
      assert UnmarshalBinary(rt, r, data) == (q, IsValid(rt, q));
    }
  }

  lemma BinarySplits(p: PathValue)
    ensures var data := MarshalBinary(p);
            |data| == 8 + |p.route| + |PrintedSuffix(p)| &&
            FromLittleEndian(data[..8]) == p.scopeID && data[8..] == p.route + PrintedSuffix(p)
  {
    var le := LittleEndian(p.scopeID, 8);
    ScopeBytes(p.scopeID);
    CutAt(le, p.route + PrintedSuffix(p));
    assert MarshalBinary(p) == le + (p.route + PrintedSuffix(p));
  }

  lemma CutAt(a: string, b: string)
    ensures (a + b)[..|a|] == a && (a + b)[|a|..] == b
  {
  }

  /** Validation looks only at the route, the scope and the routeValidated flag. */
  lemma SameVerdict(rt: Runes, p: PathValue, q: PathValue)
    requires p.route == q.route && p.scopeID == q.scopeID && p.routeValidated == q.routeValidated
    ensures IsValid(rt, p) == IsValid(rt, q)
  {
  }
}

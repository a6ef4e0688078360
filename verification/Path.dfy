/** Configuration paths (config/path.go): validation, printing, the two text parsers and the
    binary codec, as functions on path values. A Go string is a sequence of bytes and one
    Dafny character stands for one byte. */
module Path {
  import opened Common
  import opened Decimal
  import opened RouteKey
  import Scope

  const PATH_LEVELS := 3

  /** What Go's unicode packages say about a byte string. The model makes no assumption about
      the Unicode tables beyond `Sane`. */
  datatype Runes = Runes(
    legal: string -> bool,      // valid UTF-8, and every rune is '/', '_', a digit, a letter or a number
    count: string -> nat,       // number of runes
    digitsOnly: string -> bool) // every rune is a digit
  {
    ghost predicate Sane() {
      && (forall s: string :: AllDigits(s) ==> digitsOnly(s))
      && (forall s: string :: count(s) <= |s|)
    }
  }

  /** The fields of Go's struct Path. */
  datatype PathValue = PathValue(
    route: string,
    scopeID: Scope.TypeID,
    routeValidated: bool,
    useEnvSuffix: bool,
    envSuffix: string)

  /** Path.Separators: number of slashes. */
  function CountSlash(s: string): nat {
    if s == "" then 0
    else CountSlash(s[..|s| - 1]) + if s[|s| - 1] == '/' then 1 else 0
  }

  predicate HasPrefix(s: string, pre: string) { pre <= s }

  predicate HasSuffix(s: string, suf: string) { |suf| <= |s| && s[|s| - |suf|..] == suf }

  /** A route longer than a scope name must not start with it. */
  predicate StartsWithScope(route: string) {
    exists name | name in {"default", "websites", "stores"} :: |route| > |name| && HasPrefix(route, name)
  }

  /** Path.IsValid; None is success. */
  function IsValid(rt: Runes, p: PathValue): Option<Error> {
    var seps := CountSlash(p.route);
    if !p.routeValidated && p.route == "" then Some(Empty)
    else if !p.routeValidated &&
            (|| seps == |p.route|
             || !rt.legal(p.route)
             || !Scope.ValidTypeID(p.scopeID)
             || StartsWithScope(p.route)) then Some(NotValid)
    else if seps < PATH_LEVELS - 1 || rt.count(p.route) < 8 then Some(NotValid)
    else None
  }

  predicate Valid(rt: Runes, p: PathValue) { IsValid(rt, p) == None }

  /** "/STAGING" for an environment-aware path, "" otherwise. */
  function PrintedSuffix(p: PathValue): string {
    if p.useEnvSuffix && p.envSuffix != "" then "/" + p.envSuffix else ""
  }

  /** The scope written into a fully qualified path: website and store scopes with their id,
      everything else as default/0. */
  function PrintedScope(t: Scope.TypeID): (r: (Scope.Type, nat))
    ensures r.1 <= Scope.MAX_ID
  {
    var (s, id) := Scope.Unpack(t);
    if Scope.IsWebsiteOrStore(s) then (s, id) else (Scope.DEFAULT, 0)
  }

  function NormalScope(t: Scope.TypeID): Scope.TypeID {
    var (s, id) := PrintedScope(t);
    Scope.MakeTypeID(s, id)
  }

  function Header(t: Scope.TypeID): string {
    var (s, id) := PrintedScope(t);
    Scope.StrType(s) + "/" + Print(id) + "/"
  }

  /** Path.FQ and MarshalText. */
  function FQ(rt: Runes, p: PathValue): Result<string> {
    match IsValid(rt, p)
    case Some(e) => Err(e)
    case None => Ok(Header(p.scopeID) + p.route + PrintedSuffix(p))
  }

  /** stripEnvSuffixStr: cuts the suffix and the byte before it; the slice expression panics
      when there is no byte before it. */
  function StripEnvSuffix(env: string, text: string): Result<string> {
    if env != "" && HasSuffix(text, env) then
      if |text| == |env| then Err(SliceBounds) else Ok(text[..|text| - |env| - 1])
    else Ok(text)
  }

  /** Path.Reset: everything but the environment suffix becomes zero. */
  function Reset(p: PathValue): PathValue {
    p.(route := "", scopeID := 0, routeValidated := false, useEnvSuffix := false)
  }

  /** strconv.ParseInt(s, 10, 64) for a text without a sign. */
  function ParseInt(s: string): Option<nat> {
    if s != "" && AllDigits(s) && Value(s) <= MAX_INT64 then Some(Value(s)) else None
  }

  /** byteconv.ParseInt's digit loop from position i on, with its uint64 accumulator n:
      the accumulator and the position where it stops, or None for a range error. */
  function AccumulateDigits(s: string, i: nat, n: nat): Option<(nat, nat)>
    requires i <= |s| && n < TWO_64
    decreases |s| - i
  {
    if i == |s| then Some((n, i))
    else if n > 0x1999_9999_9999_9999 then None
    else if IsDigit(s[i]) then AccumulateDigits(s, i + 1, (n * 10 + DigitValue(s[i])) % TWO_64)
    else Some((n, i))
  }

  /** byteconv.ParseInt: an empty text is 0 without an error, a sign is accepted, and text
      behind a negative number is ignored. */
  function ParseIntBytes(s: string): (r: Option<int>)
    ensures r.Some? ==> -MAX_INT64 - 1 <= r.value <= MAX_INT64
  {
    if s == "" then Some(0)
    else
      var neg := s[0] == '-';
      match AccumulateDigits(s, if s[0] == '+' || s[0] == '-' then 1 else 0, 0)
      case None => None
      case Some((n, i)) =>
        if (!neg && n > MAX_INT64) || n > MAX_INT64 + 1 then None
        else if neg then Some(-(n as int))
        else if i != |s| then None
        else Some(n as int)
  }

  lemma {:induction false} CountSlashZero(s: string)
    ensures CountSlash(s) == 0 <==> NoSlash(s, 0, |s|)
  {
    if s == "" {
    } else {
      CountSlashZero(s[..|s| - 1]);
      assert forall k | 0 <= k < |s| - 1 :: s[..|s| - 1][k] == s[k];
    }
  }

  lemma {:induction false} CountSlashSum(a: string, b: string)
    ensures CountSlash(a + b) == CountSlash(a) + CountSlash(b)
  {
    if b == "" {
      assert a + b == a;
    } else {
      CountSlashSum(a, b[..|b| - 1]);
      assert (a + b)[..|a + b| - 1] == a + b[..|b| - 1];
    }
  }

  lemma NoSlashSlice(s: string, from: nat, to: nat)
    requires from <= to <= |s| && NoSlash(s, from, to)
    ensures CountSlash(s[from..to]) == 0
  {
    CountSlashZero(s[from..to]);
  }

  lemma OneSlash()
    ensures CountSlash("/") == 1
  {
    assert "/"[..0] == "";
  }

  lemma CountAcrossSlash(s: string, from: nat, i: nat, to: nat)
    requires from <= i < to <= |s| && s[i] == '/' && CountSlash(s[from..i]) == 0
    ensures CountSlash(s[from..to]) == 1 + CountSlash(s[i + 1..to])
  {
    hide CountSlash;
    assert s[i..to] == "/" + s[i + 1..to] && s[from..to] == s[from..i] + s[i..to];
    CountSlashSum(s[from..i], s[i..to]);
    CountSlashSum("/", s[i + 1..to]);
    OneSlash();
  }

  lemma TwoSlashes(text: string)
    requires CountSlash(text) >= 2
    ensures IndexSlash(text, 0) >= 0 && IndexSlash(text, IndexSlash(text, 0) + 1) >= 0
  {
    CountSlashZero(text);
    var i := IndexSlash(text, 0);
    NoSlashSlice(text, 0, i);
    CountAcrossSlash(text, 0, i, |text|);
    assert text[0..|text|] == text;
    if IndexSlash(text, i + 1) == -1 { NoSlashSlice(text, i + 1, |text|); }
  }

  /** The three pieces of a text with at least two slashes: before the first slash, between
      the first two, and behind the second. */
  function SplitHeader(text: string): (string, string, string)
    requires CountSlash(text) >= 2
  {
    TwoSlashes(text);
    var i := IndexSlash(text, 0);
    var j := IndexSlash(text, i + 1);
    (text[..i], text[i + 1..j], text[j + 1..])
  }

  /** Path.Parse on an already reset path and a text without environment suffix. */
  function ParseStripped(rt: Runes, p: PathValue, text: string): (PathValue, Option<Error>) {
    if CountSlash(text) < PATH_LEVELS - 1 then (p, Some(NotValid))
    else
      var (scopeStr, idStr, rest) := SplitHeader(text);
      var plain := p.(route := text, scopeID := Scope.DEFAULT_TYPE_ID);
      if !rt.digitsOnly(idStr) then (plain, IsValid(rt, plain))
      else if ParseInt(idStr).None? then (plain, Some(NotValid))
      else if !Scope.ValidStr(scopeStr) then (plain, Some(NotSupported))
      else
        var q := p.(route := rest, scopeID := Scope.MakeTypeID(Scope.FromString(scopeStr), ParseInt(idStr).value));
        (q, IsValid(rt, q))
  }

  /** Path.Parse: the path afterwards and the error. */
  function ParseText(rt: Runes, p: PathValue, text: string): (PathValue, Option<Error>) {
    match StripEnvSuffix(p.envSuffix, text)
    case Err(e) => (Reset(p), Some(e))
    case Ok(t) => ParseStripped(rt, Reset(p), t)
  }

  /** Path.UnmarshalText: the path afterwards and the error. */
  function Unmarshal(rt: Runes, p: PathValue, text: string): (PathValue, Option<Error>) {
    match StripEnvSuffix(p.envSuffix, text)
    case Err(e) => (Reset(p), Some(e))
    case Ok(t) =>
      if CountSlash(t) < PATH_LEVELS + 1 then (Reset(p), Some(NotValid))
      else
        var (scopeStr, idStr, rest) := SplitHeader(t);
        if !Scope.ValidStr(scopeStr) then (Reset(p), Some(NotSupported))
        else
          match ParseIntBytes(idStr)
          case None => (Reset(p), Some(NotValid))
          case Some(id) =>
            var q := Reset(p).(route := rest, scopeID := Scope.MakeTypeID(Scope.FromString(scopeStr), id));
            (q, if Valid(rt, q) then None else Some(NotValid))
  }

  function ByteChar(n: nat): char
    requires n < 256
  {
    n as char
  }

  /** binary.LittleEndian.PutUint64 */
  function LittleEndian(n: nat, bytes: nat): (s: string)
    ensures |s| == bytes
  {
    if bytes == 0 then "" else [ByteChar(n % 256)] + LittleEndian(n / 256, bytes - 1)
  }

  /** binary.LittleEndian.Uint64 */
  function FromLittleEndian(s: string): nat {
    if s == "" then 0 else s[0] as nat % 256 + 256 * FromLittleEndian(s[1..])
  }

  /** Path.MarshalBinary (it never fails and does not validate). */
  function MarshalBinary(p: PathValue): string {
    LittleEndian(p.scopeID, 8) + p.route + PrintedSuffix(p)
  }

  /** Path.UnmarshalBinary: the scope keeps the lower 32 bits. */
  function UnmarshalBinary(rt: Runes, p: PathValue, data: string): (PathValue, Option<Error>) {
    if |data| < 8 + 5 then (Reset(p), Some(TooShort))
    else
      var scoped := Reset(p).(scopeID := FromLittleEndian(data[..8]) % 0x1_0000_0000);
      match StripEnvSuffix(p.envSuffix, data[8..])
      case Err(e) => (scoped, Some(e))
      case Ok(t) => var q := scoped.(route := t); (q, IsValid(rt, q))
  }

  /** Path.ScopeRoute: the storage key of a path. */
  function ScopeRoute(p: PathValue): (Scope.TypeID, string) {
    (p.scopeID, p.route + PrintedSuffix(p))
  }

  /** The key under which the trie is asked about a path. */
  function TrieKey(p: PathValue): (key: string)
    ensures Canonical(key)
  {
    BuildTrieKey("/" + p.route + PrintedSuffix(p), p.scopeID)
  }

  /** Position of the n-th slash (n > 0) from `from` on, or the length of the text. */
  function NthSlash(s: string, from: nat, n: nat): (e: nat)
    requires n > 0 && from <= |s|
    ensures from <= e <= |s|
    decreases n
  {
    var i := IndexSlash(s, from);
    if i == -1 then |s| else if n == 1 then i else NthSlash(s, i + 1, n - 1)
  }

  /** Path.Level on a fully qualified text: its first `depth` parts, all of them if depth is
      negative. */
  function LevelOf(fq: string, depth: int): string {
    if depth < 0 then fq else if depth == 0 then "" else fq[..NthSlash(fq, 0, depth)]
  }

  /** The first n parts hold n-1 slashes and end where the n-th slash stands. */
  lemma {:induction false} NthSlashShape(s: string, from: nat, n: nat)
    requires n > 0 && from <= |s|
    ensures var e := NthSlash(s, from, n);
            if CountSlash(s[from..]) < n then e == |s|
            else e < |s| && s[e] == '/' && CountSlash(s[from..e]) == n - 1
    decreases n
  {
    hide CountSlash, NoSlash;
    var i := IndexSlash(s, from);
    if i == -1 {
      NoSlashSlice(s, from, |s|);
      assert s[from..|s|] == s[from..];
    } else {
      NoSlashSlice(s, from, i);
      CountAcrossSlash(s, from, i, |s|);
      assert s[from..|s|] == s[from..] && s[i + 1..|s|] == s[i + 1..];
      if n > 1 {
        NthSlashShape(s, i + 1, n - 1);
        CountAcrossSlash(s, from, i, NthSlash(s, i + 1, n - 1));
      }
    }
  }
}

/** Go's mutable Path: methods that change it in place, each proved against the functions of
    module Path. */
module PathObject {
  import opened Common
  import opened RouteKey
  import opened Path
  import Scope

  class PathRef {
    var route: string
    var scopeID: Scope.TypeID
    var routeValidated: bool
    var useEnvSuffix: bool
    var envSuffix: string

    function Value(): PathValue
      reads this
    {
      PathValue(route, scopeID, routeValidated, useEnvSuffix, envSuffix)
    }

    constructor (route: string, scopeID: Scope.TypeID)
      ensures Value() == PathValue(route, scopeID, false, false, "")
    {
      this.route, this.scopeID := route, scopeID;
      routeValidated, useEnvSuffix, envSuffix := false, false, "";
    }

    method Separators() returns (count: nat)
      ensures count == CountSlash(route)
    {
      count := 0;
      for i := 0 to |route|
        invariant count == CountSlash(route[..i])
      {
        assert route[..i + 1][..i] == route[..i];
        if route[i] == '/' { count := count + 1; }
      }
      assert route[..|route|] == route;
    }

    method CheckValid(rt: Runes) returns (err: Option<Error>)
      ensures err == IsValid(rt, Value())
    {
      var seps := Separators();
      if !routeValidated {
        if route == "" { return Some(Empty); }
        if seps == |route| { return Some(NotValid); }
        if !rt.legal(route) { return Some(NotValid); }
        if !Scope.ValidTypeID(scopeID) { return Some(NotValid); }
        if |route| > 7 && HasPrefix(route, "default") { return Some(NotValid); }
        if |route| > 8 && HasPrefix(route, "websites") { return Some(NotValid); }
        if |route| > 6 && HasPrefix(route, "stores") { return Some(NotValid); }
      }
      if seps < PATH_LEVELS - 1 || rt.count(route) < 8 { return Some(NotValid); }
      return None;
    }

    /** Appends the fully qualified path to the buffer, or reports why it cannot. */
    method AppendFQ(rt: Runes, buf: string) returns (out: string, err: Option<Error>)
      ensures match FQ(rt, Value())
              case Ok(fq) => err == None && out == buf + fq
              case Err(e) => err == Some(e) && out == buf
    {
      err := CheckValid(rt);
      if err.Some? { return buf, err; }
      var (scp, id) := Scope.Unpack(scopeID);
      if scp != Scope.WEBSITE && scp != Scope.STORE {
        scp, id := Scope.DEFAULT, 0;
      }
      out := Scope.StrType(scp) + "/";
      out := out + Decimal.Print(id) + "/";
      assert out == Header(scopeID);
      out := out + route;
      if useEnvSuffix && envSuffix != "" {
        out := out + ("/" + envSuffix);
      } else {
        assert out == out + "";
      }
      out := buf + out;
    }

    method ResetFields()
      modifies this
      ensures Value() == Reset(old(Value()))
    {
      route, scopeID, routeValidated, useEnvSuffix := "", 0, false, false;
    }

    method Parse(rt: Runes, routeOrFQPath: string) returns (err: Option<Error>)
      modifies this
      ensures (Value(), err) == ParseText(rt, old(Value()), routeOrFQPath)
    {
      ResetFields();
      var stripped := StripEnvSuffix(envSuffix, routeOrFQPath);
      if stripped.Err? { return Some(stripped.error); }
      var text := stripped.value;
      if CountSlash(text) < PATH_LEVELS - 1 { return Some(NotValid); }
      var (scopeStr, scopeIDStr, rest) := SplitHeader(text);
      route := text;
      scopeID := Scope.DEFAULT_TYPE_ID;
      if rt.digitsOnly(scopeIDStr) {
        var id := ParseInt(scopeIDStr);
        if id.None? { return Some(NotValid); }
        if !Scope.ValidStr(scopeStr) { return Some(NotSupported); }
        route := rest;
        scopeID := Scope.MakeTypeID(Scope.FromString(scopeStr), id.value);
      }
      err := CheckValid(rt);
    }

    method UnmarshalText(rt: Runes, txt: string) returns (err: Option<Error>)
      modifies this
      ensures (Value(), err) == Unmarshal(rt, old(Value()), txt)
    {
      ResetFields();
      var stripped := StripEnvSuffix(envSuffix, txt);
      if stripped.Err? { return Some(stripped.error); }
      var text := stripped.value;
      if CountSlash(text) < PATH_LEVELS + 1 { return Some(NotValid); }
      var (scopeStr, idStr, rest) := SplitHeader(text);
      if !Scope.ValidStr(scopeStr) { return Some(NotSupported); }
      var id := ParseIntBytes(idStr);
      if id.None? { return Some(NotValid); }
      route := rest;
      scopeID := Scope.MakeTypeID(Scope.FromString(scopeStr), id.value);
      err := CheckValid(rt);
      if err.Some? { err := Some(NotValid); }
    }

    method UnmarshalBytes(rt: Runes, data: string) returns (err: Option<Error>)
      modifies this
      ensures (Value(), err) == UnmarshalBinary(rt, old(Value()), data)
    {
      ResetFields();
      if |data| < 8 + 5 { return Some(TooShort); }
      scopeID := FromLittleEndian(data[..8]) % 0x1_0000_0000;
      var stripped := StripEnvSuffix(envSuffix, data[8..]);
      if stripped.Err? { return Some(stripped.error); }
      route := stripped.value;
      err := CheckValid(rt);
    }

    /** Walks from separator to separator until `depth` parts are passed. */
    method Level(rt: Runes, depth: int) returns (r: Result<string>)
      ensures r == match FQ(rt, Value())
                   case Ok(fq) => Ok(LevelOf(fq, depth))
                   case Err(e) => Err(e)
    {
      var fq, err := AppendFQ(rt, "");
      if err.Some? { return Err(err.value); }
      ghost var text := FQ(rt, Value()).value;
      assert "" + text == text && text[0] != '/';
      var level := TextLevel(fq, depth);
      return Ok(level);
    }
  }

  method TextLevel(fq: string, depth: int) returns (level: string)
    requires |fq| > 0 && fq[0] != '/'
    ensures level == LevelOf(fq, depth)
  {
    if depth < 0 { return fq; }
    if depth == 0 { return ""; }
    if depth >= |fq| {
      FewSlashes(fq);
      NthSlashShape(fq, 0, depth);
      return fq;
    }
    var pos, i := 0, 1;
    while true
      invariant 0 <= pos <= |fq| && 1 <= i <= depth
      invariant NthSlash(fq, 0, depth) == NthSlash(fq, pos, depth - i + 1)
      decreases |fq| - pos
    {
      var sc := IndexSlash(fq, pos);
      if sc == -1 { return fq; }
      pos := sc + 1;
      if i == depth { return fq[..pos - 1]; }
      i := i + 1;
    }
  }

  /** A fully qualified text starts with a letter, so it has fewer slashes than bytes. */
  lemma {:induction false} FewSlashes(s: string)
    requires |s| > 0 && s[0] != '/'
    ensures CountSlash(s) < |s|
  {
    if |s| > 1 {
      FewSlashes(s[..|s| - 1]);
    } else {
      CountSlashZero(s);
    }
  }
}

/** Finding fields by path and validating sections (config/elements.go, Split of
    config/path.go). */
module ElementSearch {
  import opened Common
  import opened RouteKey
  import opened Path
  import opened KeyedMerge
  import opened Elements
  import PathCodec
  import PathParsers
  import PathTexts
  import Scope

  /** Path.Split on a route: its first two parts and the rest. With one separator only, or one
      in front, the result is nil. */
  function Split(route: string): Result<seq<string>> {
    var i := IndexSlash(route, 0);
    if i == -1 then Err(NotValid)
    else
      var j := IndexSlash(route, i + 1);
      if i == 0 || j == -1 then Ok([]) else Ok([route[..i], route[i + 1..j], route[j + 1..]])
  }

  method SplitRoute(route: string) returns (parts: Result<seq<string>>)
    ensures parts == Split(route)
  {
    var sepPos := new int[2][0, 0];
    var sp := 0;
    for i := 0 to |route|
      invariant 0 <= sp <= 2
      invariant sp == 0 ==> NoSlash(route, 0, i) && sepPos[0] == 0
      invariant sp >= 1 ==> 0 <= sepPos[0] < i && route[sepPos[0]] == '/' && NoSlash(route, 0, sepPos[0])
      invariant sp <= 1 ==> sepPos[1] == 0
      invariant sp == 1 ==> NoSlash(route, sepPos[0] + 1, i)
      invariant sp == 2 ==>
                sepPos[0] < sepPos[1] < i && route[sepPos[1]] == '/' && NoSlash(route, sepPos[0] + 1, sepPos[1])
    {
      if route[i] == '/' && sp < 2 {
        sepPos[sp] := i;
        sp := sp + 1;
      }
    }
    if sp < 1 { return Err(NotValid); }
    FirstSlash(route, 0, sepPos[0]);
    if sp == 2 { FirstSlash(route, sepPos[0] + 1, sepPos[1]); }
    var ret: seq<string> := [];
    var min := 0;
    for i := 0 to 3
      invariant |ret| == i && (i == 0 ==> min == 0)
      invariant i > 0 ==> sepPos[0] > 0 && ret[0] == route[..sepPos[0]]
      invariant i > 1 ==> sp == 2 && ret[1] == route[sepPos[0] + 1..sepPos[1]]
      invariant i > 2 ==> ret[2] == route[sepPos[1] + 1..]
      invariant i == 1 ==> min == sepPos[0] + 1
      invariant i == 2 ==> min == sepPos[1] + 1
    {
      var max := if i < 2 && sepPos[i] > 0 then sepPos[i] else |route|;
      ret := ret + [route[min..max]];
      if i < 2 && sepPos[i] == 0 { return Ok([]); }
      min := max + 1;
    }
    assert ret == [ret[0], ret[1], ret[2]];
    return Ok(ret);
  }

  /** Sections.FindField: the field and its index, or a negative index. */
  function FindField(ss: seq<Section>, route: string): (Option<Field>, int) {
    match Split(route)
    case Err(_) => (None, -10)
    case Ok(parts) =>
      if |parts| < 3 then (None, -10)
      else
        var i := Index(SECTIONS, ss, parts[0]);
        if i < 0 then (None, -1)
        else
          var j := Index(GROUPS, ss[i].groups, parts[1]);
          if j < 0 then (None, -2)
          else
            var k := Index(FIELDS, ss[i].groups[j].fields, parts[2]);
            if k < 0 then (None, -3) else (Some(ss[i].groups[j].fields[k]), k)
  }

  predicate Word(s: string) { s != "" && CountSlash(s) == 0 }

  function Key(s: string, g: string, f: string): string { s + "/" + g + "/" + f }

  lemma SplitKey(s: string, g: string, f: string)
    requires Word(s) && Word(g)
    ensures Split(Key(s, g, f)) == Ok([s, g, f])
  {
    var key := Key(s, g, f);
    var i, j := |s|, |s| + 1 + |g|;
    assert key[0..i] == s && key[i + 1..j] == g && key[j + 1..] == f;
    PathCodec.PieceAt(key, 0, s);
    PathCodec.PieceAt(key, i + 1, g);
  }

  /** FindField finds a field in merged sections exactly if some section was given with its
      path, and what it finds is the update of all fields given with that path. */
  lemma FindsMergedField(more: seq<Section>, s: string, g: string, f: string)
    requires Word(s) && Word(g) && f != ""
    ensures var (r, k) := FindField(Merge(SECTIONS, [], more), Key(s, g, f));
            && r == Fold(FIELDS, None, Inputs(more, s, g, f))
            && (k >= 0 <==> HasPath(more, s, g, f))
            && (k >= 0 <==> r.Some?)
  {
    hide Merge, Having, Fold, Split, Key;
    SplitKey(s, g, f);
    var ss := Merge(SECTIONS, [], more);
    assert FindField(ss, Key(s, g, f)).0 == FieldAt(ss, s, g, f);
    MergedField([], more, s, g, f);
    FoldSome(FIELDS, None, Inputs(more, s, g, f));
    if HasPath(more, s, g, f) { PathHasInputs(more, s, g, f); }
    if Inputs(more, s, g, f) != [] { InputsHavePath(more, s, g, f); }
  }

  // ---- Validate ----

  function FieldKeys(s: string, g: string, fs: seq<Field>): seq<string> {
    if fs == [] then [] else [Key(s, g, fs[0].id)] + FieldKeys(s, g, fs[1..])
  }

  function GroupKeys(s: string, gs: seq<Group>): seq<string> {
    if gs == [] then [] else FieldKeys(s, gs[0].id, gs[0].fields) + GroupKeys(s, gs[1..])
  }

  function Keys(ss: seq<Section>): seq<string> {
    if ss == [] then [] else GroupKeys(ss[0].id, ss[0].groups) + Keys(ss[1..])
  }

  const NEW_PATH := PathValue("", 0, false, false, "")

  function ParseError(rt: Runes, key: string): Option<Error> { ParseText(rt, NEW_PATH, key).1 }

  /** The first problem with the keys, given the ones already seen. */
  function Check(rt: Runes, seen: set<string>, keys: seq<string>): Option<Error>
    decreases |keys|
  {
    if keys == [] then None
    else if keys[0] in seen then Some(Duplicated)
    else if ParseError(rt, keys[0]).Some? then ParseError(rt, keys[0])
    else Check(rt, seen + {keys[0]}, keys[1..])
  }

  /** The innermost loop of Sections.Validate. */
  method ValidateFields(rt: Runes, s: string, g: string, fs: seq<Field>, seen: set<string>, ghost rest: seq<string>)
    returns (dups: set<string>, err: Option<Error>)
    ensures Check(rt, seen, FieldKeys(s, g, fs) + rest) == if err.Some? then err else Check(rt, dups, rest)
  {
    hide ParseError, Key;
    dups, err := seen, None;
    assert fs[0..] == fs;
    for k := 0 to |fs|
      invariant err == None
      invariant Check(rt, seen, FieldKeys(s, g, fs) + rest) == Check(rt, dups, FieldKeys(s, g, fs[k..]) + rest)
    {
      var key := Key(s, g, fs[k].id);
      ghost var after := FieldKeys(s, g, fs[k + 1..]) + rest;
      assert fs[k..][1..] == fs[k + 1..];
      assert FieldKeys(s, g, fs[k..]) + rest == [key] + after;
      assert ([key] + after)[1..] == after;
      if key in dups { return dups, Some(Duplicated); }
      err := ParseError(rt, key);
      if err.Some? { return; }
      dups := dups + {key};
    }
    assert FieldKeys(s, g, fs[|fs|..]) + rest == rest;
  }

  method ValidateGroups(rt: Runes, s: string, gs: seq<Group>, seen: set<string>, ghost rest: seq<string>)
    returns (dups: set<string>, err: Option<Error>)
    ensures Check(rt, seen, GroupKeys(s, gs) + rest) == if err.Some? then err else Check(rt, dups, rest)
  {
    hide Check, FieldKeys;
    dups, err := seen, None;
    assert gs[0..] == gs;
    for j := 0 to |gs|
      invariant err == None
      invariant Check(rt, seen, GroupKeys(s, gs) + rest) == Check(rt, dups, GroupKeys(s, gs[j..]) + rest)
    {
      assert gs[j..][1..] == gs[j + 1..];
      ghost var after := GroupKeys(s, gs[j + 1..]) + rest;
      assert GroupKeys(s, gs[j..]) + rest == FieldKeys(s, gs[j].id, gs[j].fields) + after;
      dups, err := ValidateFields(rt, s, gs[j].id, gs[j].fields, dups, after);
      if err.Some? { return; }
    }
    assert GroupKeys(s, gs[|gs|..]) + rest == rest;
  }

  /** Sections.Validate reports the first path that is repeated or does not parse. */
  method Validate(rt: Runes, ss: seq<Section>) returns (err: Option<Error>)
    ensures err == Check(rt, {}, Keys(ss))
  {
    hide GroupKeys;
    var dups: set<string> := {};
    assert ss[0..] == ss;
    for i := 0 to |ss|
      invariant Check(rt, {}, Keys(ss)) == Check(rt, dups, Keys(ss[i..]))
    {
      assert ss[i..][1..] == ss[i + 1..];
      dups, err := ValidateGroups(rt, ss[i].id, ss[i].groups, dups, Keys(ss[i + 1..]));
      if err.Some? { return; }
    }
    err := None;
  }

  /** What Check finds: nothing exactly if the keys are new, all different and parse; and no
      duplicate if they are new and all different. */
  lemma {:induction false} CheckMeans(rt: Runes, seen: set<string>, keys: seq<string>)
    ensures Check(rt, seen, keys) == None <==>
              Distinct(keys) && forall i | 0 <= i < |keys| :: keys[i] !in seen && ParseError(rt, keys[i]) == None
    ensures Distinct(keys) && (forall i | 0 <= i < |keys| :: keys[i] !in seen) && Check(rt, seen, keys).Some? ==>
              exists i :: 0 <= i < |keys| && ParseError(rt, keys[i]) == Check(rt, seen, keys)
    decreases |keys|
  {
    hide ParseError;
    if keys == [] {
    } else {
      var rest := keys[1..];
      CheckMeans(rt, seen + {keys[0]}, rest);
      assert forall i | 0 <= i < |rest| :: rest[i] == keys[i + 1];
      assert forall i | 1 <= i < |keys| :: keys[i] == rest[i - 1];
    }
  }

  lemma KeyInjective(s: string, g: string, f: string, s': string, g': string, f': string)
    requires Word(s) && Word(g) && Word(s') && Word(g') && Key(s, g, f) == Key(s', g', f')
    ensures s == s' && g == g' && f == f'
  {
    PathCodec.SplitHeaderUnique(s, g, f);
    PathCodec.SplitHeaderUnique(s', g', f');
  }

  lemma {:induction false} InFieldKeys(s: string, g: string, fs: seq<Field>, key: string)
    ensures key in FieldKeys(s, g, fs) <==> exists f :: HasField(fs, f) && key == Key(s, g, f)
  {
    hide Key;
    if fs == [] {
    } else {
      InFieldKeys(s, g, fs[1..], key);
      forall f ensures HasField(fs, f) <==> fs[0].id == f || HasField(fs[1..], f) {
        assert forall i | 1 <= i < |fs| :: fs[i] == fs[1..][i - 1];
      }
    }
  }

  lemma {:induction false} InGroupKeys(s: string, gs: seq<Group>, key: string)
    ensures key in GroupKeys(s, gs) <==> exists g, f :: HasPair(gs, g, f) && key == Key(s, g, f)
  {
    hide Key, HasField, FieldKeys;
    if gs == [] {
    } else {
      InGroupKeys(s, gs[1..], key);
      InFieldKeys(s, gs[0].id, gs[0].fields, key);
      forall g, f
        ensures HasPair(gs, g, f) <==> (gs[0].id == g && HasField(gs[0].fields, f)) || HasPair(gs[1..], g, f)
      {
        assert forall i | 1 <= i < |gs| :: gs[i] == gs[1..][i - 1];
      }
    }
  }

  lemma {:induction false} InKeys(ss: seq<Section>, key: string)
    ensures key in Keys(ss) <==> exists s, g, f :: HasPath(ss, s, g, f) && key == Key(s, g, f)
  {
    hide Key, HasPair, GroupKeys;
    if ss == [] {
    } else {
      InKeys(ss[1..], key);
      InGroupKeys(ss[0].id, ss[0].groups, key);
      forall s, g, f
        ensures HasPath(ss, s, g, f) <==> (ss[0].id == s && HasPair(ss[0].groups, g, f)) || HasPath(ss[1..], s, g, f)
      {
        assert forall i | 1 <= i < |ss| :: ss[i] == ss[1..][i - 1];
      }
    }
  }

  /** Section and group ids hold no slash. */
  ghost predicate Words(ss: seq<Section>) {
    forall s, g, f | HasPath(ss, s, g, f) :: Word(s) && Word(g)
  }

  lemma {:induction false} DistinctFieldKeys(s: string, g: string, fs: seq<Field>)
    requires Unique(FIELDS, fs)
    ensures Distinct(FieldKeys(s, g, fs))
  {
    if fs == [] {
    } else {
      assert forall i | 0 <= i < |fs[1..]| :: fs[1..][i] == fs[i + 1];
      assert forall i | 1 <= i < |fs| :: FIELDS.id(fs[0]) != FIELDS.id(fs[i]);
      DistinctFieldKeys(s, g, fs[1..]);
      var key := Key(s, g, fs[0].id);
      InFieldKeys(s, g, fs[1..], key);
      forall f | HasField(fs[1..], f) ensures Key(s, g, f) != key {
        var i :| 0 <= i < |fs[1..]| && fs[1..][i].id == f;
        assert f != fs[0].id;
        assert Key(s, g, f)[|s| + |g| + 2..] == f && key[|s| + |g| + 2..] == fs[0].id;
      }
    }
  }

  lemma Append(a: seq<string>, b: seq<string>)
    requires Distinct(a) && Distinct(b) && forall key | key in a :: key !in b
    ensures Distinct(a + b)
  {
    forall i, j | 0 <= i < j < |a + b| ensures (a + b)[i] != (a + b)[j] {
      if i < |a| && j >= |a| { assert a[i] in a && b[j - |a|] in b; }
    }
  }

  lemma PairAt(gs: seq<Group>, i: nat, f: string)
    requires i < |gs| && HasField(gs[i].fields, f)
    ensures HasPair(gs, gs[i].id, f)
  {
  }

  lemma PairInTail(gs: seq<Group>, g: string, f: string)
    requires gs != [] && HasPair(gs[1..], g, f)
    ensures HasPair(gs, g, f)
    ensures exists i :: 1 <= i < |gs| && gs[i].id == g
  {
    var i :| 0 <= i < |gs[1..]| && gs[1..][i].id == g && HasField(gs[1..][i].fields, f);
    assert gs[i + 1] == gs[1..][i];
  }

  lemma {:induction false} DistinctGroupKeys(s: string, gs: seq<Group>)
    requires GroupsUnique(gs) && Word(s) && forall g, f | HasPair(gs, g, f) :: Word(g)
    ensures Distinct(GroupKeys(s, gs))
  {
    hide Key, HasPair, HasField, FieldKeys, Word, Distinct;
    if gs != [] {
      var g0, rest := gs[0], gs[1..];
      assert forall i | 0 <= i < |rest| :: rest[i] == gs[i + 1] && rest[i] in gs;
      forall g, f | HasPair(rest, g, f) ensures HasPair(gs, g, f) && g != g0.id {
        PairInTail(gs, g, f);
        var i :| 1 <= i < |gs| && gs[i].id == g;
        assert GROUPS.id(gs[0]) != GROUPS.id(gs[i]);
      }
      DistinctGroupKeys(s, rest);
      DistinctFieldKeys(s, g0.id, g0.fields);
      forall key | key in FieldKeys(s, g0.id, g0.fields) && key in GroupKeys(s, rest) ensures false {
        InFieldKeys(s, g0.id, g0.fields, key);
        InGroupKeys(s, rest, key);
        var f :| HasField(g0.fields, f) && key == Key(s, g0.id, f);
        var g, f' :| HasPair(rest, g, f') && key == Key(s, g, f');
        PairAt(gs, 0, f);
        KeyInjective(s, g0.id, f, s, g, f');
      }
      Append(FieldKeys(s, g0.id, g0.fields), GroupKeys(s, rest));
    } else {
      Nothing();
    }
  }

  lemma PathAt(ss: seq<Section>, i: nat, g: string, f: string)
    requires i < |ss| && HasPair(ss[i].groups, g, f)
    ensures HasPath(ss, ss[i].id, g, f)
  {
  }

  lemma PathInTail(ss: seq<Section>, s: string, g: string, f: string)
    requires ss != [] && HasPath(ss[1..], s, g, f)
    ensures HasPath(ss, s, g, f)
    ensures exists i :: 1 <= i < |ss| && ss[i].id == s
  {
    var i :| 0 <= i < |ss[1..]| && ss[1..][i].id == s && HasPair(ss[1..][i].groups, g, f);
    assert ss[i + 1] == ss[1..][i];
  }

  lemma {:induction false} DistinctKeys(ss: seq<Section>)
    requires AllUnique(ss) && Words(ss)
    ensures Distinct(Keys(ss))
  {
    hide Key, HasPath, HasPair, GroupKeys, Word, Distinct, GroupsUnique;
    if ss != [] {
      var s0, rest := ss[0], ss[1..];
      assert forall i | 0 <= i < |rest| :: rest[i] == ss[i + 1] && rest[i] in ss;
      forall s, g, f | HasPath(rest, s, g, f) ensures HasPath(ss, s, g, f) && s != s0.id {
        PathInTail(ss, s, g, f);
        var i :| 1 <= i < |ss| && ss[i].id == s;
        assert SECTIONS.id(ss[0]) != SECTIONS.id(ss[i]);
      }
      DistinctKeys(rest);
      forall g, f | HasPair(s0.groups, g, f) ensures Word(s0.id) && Word(g) { PathAt(ss, 0, g, f); }
      assert Distinct(GroupKeys(s0.id, s0.groups)) by {
        if exists g, f :: HasPair(s0.groups, g, f) {
          DistinctGroupKeys(s0.id, s0.groups);
        } else {
          NoKeys(s0.id, s0.groups);
        }
      }
      forall key | key in GroupKeys(s0.id, s0.groups) && key in Keys(rest) ensures false {
        InGroupKeys(s0.id, s0.groups, key);
        InKeys(rest, key);
        var g, f :| HasPair(s0.groups, g, f) && key == Key(s0.id, g, f);
        var s', g', f' :| HasPath(rest, s', g', f') && key == Key(s', g', f');
        KeyInjective(s0.id, g, f, s', g', f');
      }
      Append(GroupKeys(s0.id, s0.groups), Keys(rest));
    } else {
      Nothing();
    }
  }

  lemma Nothing()
    ensures Distinct<string>([])
  {
  }

  lemma NoKeys(s: string, gs: seq<Group>)
    requires !exists g, f :: HasPair(gs, g, f)
    ensures Distinct(GroupKeys(s, gs))
  {
    if GroupKeys(s, gs) != [] {
      InGroupKeys(s, gs, GroupKeys(s, gs)[0]);
      assert false;
    }
  }

  lemma NeverDuplicated(rt: Runes, key: string)
    ensures ParseError(rt, key) != Some(Duplicated)
  {
  }

  /** MakeSectionsMerged: for named sections with slash-free ids and no field id twice in one
      given group, validating the merged sections never reports a duplicate, and succeeds
      exactly if every given path parses. */
  lemma MergedValidates(rt: Runes, more: seq<Section>)
    requires Named(more) && FieldsUnique(more) && Words(more)
    ensures var err := Check(rt, {}, Keys(Merge(SECTIONS, [], more)));
            && err != Some(Duplicated)
            && (err == None <==> forall s, g, f | HasPath(more, s, g, f) :: ParseError(rt, Key(s, g, f)) == None)
  {
    hide ParseError, Key, HasPair, Merge, GroupKeys;
    var r := Merge(SECTIONS, [], more);
    MergedUnique([], more);
    forall s, g, f ensures HasPath(r, s, g, f) <==> HasPath(more, s, g, f) { MergedPaths([], more, s, g, f); }
    DistinctKeys(r);
    CheckMeans(rt, {}, Keys(r));
    forall key ensures ParseError(rt, key) != Some(Duplicated) { NeverDuplicated(rt, key); }
    forall key
      ensures key in Keys(r) <==> exists s, g, f :: HasPath(more, s, g, f) && key == Key(s, g, f)
    {
      InKeys(r, key);
    }
    assert forall s, g, f | HasPath(more, s, g, f) :: Key(s, g, f) in Keys(r);
    if forall s, g, f | HasPath(more, s, g, f) :: ParseError(rt, Key(s, g, f)) == None {
      forall i | 0 <= i < |Keys(r)| ensures ParseError(rt, Keys(r)[i]) == None {
        assert Keys(r)[i] in Keys(r);
      }
    }
  }

  /** What the route of a field must look like. A group id of digits makes the section id a scope
      and the field id a whole route. */
  ghost predicate GoodPath(rt: Runes, s: string, g: string, f: string) {
    if rt.digitsOnly(g) then PathParsers.InRange(g) && Scope.ValidStr(s) && PathTexts.GoodRoute(rt, f)
    else PathTexts.GoodRoute(rt, s + "/" + g + "/" + f)
  }

  lemma ParsesIff(rt: Runes, s: string, g: string, f: string)
    requires Word(s) && Word(g)
    ensures ParseError(rt, Key(s, g, f)) == None <==> GoodPath(rt, s, g, f)
  {
    hide CountSlash, ParseText, PathTexts.GoodRoute, PathParsers.InRange;
    if rt.digitsOnly(g) {
      PathTexts.ParseQualified(rt, NEW_PATH, s, g, f);
    } else {
      PathTexts.ParseBareRoute(rt, NEW_PATH, s, g, f);
    }
  }

  /** So merged sections validate exactly if every given section/group/field is a good route. */
  lemma MergedValidatesIff(rt: Runes, more: seq<Section>)
    requires Named(more) && FieldsUnique(more) && Words(more)
    ensures Check(rt, {}, Keys(Merge(SECTIONS, [], more))) == None <==>
              forall s, g, f | HasPath(more, s, g, f) :: GoodPath(rt, s, g, f)
  {
    hide ParseError, Key, HasPath, Merge, Check, Keys, GoodPath, Word, Named, FieldsUnique;
    MergedValidates(rt, more);
    forall s, g, f | HasPath(more, s, g, f)
      ensures ParseError(rt, Key(s, g, f)) == None <==> GoodPath(rt, s, g, f)
    {
      ParsesIff(rt, s, g, f);
    }
  }

  /** Validate reports the problem of the first bad key: Duplicated if it was seen before, else why
      it does not parse. */
  lemma {:induction false} CheckFirst(rt: Runes, seen: set<string>, keys: seq<string>, i: nat)
    requires i < |keys|
    requires forall j | 0 <= j < i :: keys[j] !in seen && keys[j] !in keys[..j] && ParseError(rt, keys[j]) == None
    ensures keys[i] in seen || keys[i] in keys[..i] ==> Check(rt, seen, keys) == Some(Duplicated)
    ensures keys[i] !in seen && keys[i] !in keys[..i] && ParseError(rt, keys[i]).Some? ==>
              Check(rt, seen, keys) == ParseError(rt, keys[i])
    decreases |keys|
  {
    hide ParseError;
    if i == 0 {
    } else {
      var rest := keys[1..];
      assert keys[..0] == [];
      forall j | 0 <= j < |rest| ensures forall key :: key in keys[..j + 1] <==> key == keys[0] || key in rest[..j] {
        assert keys[..j + 1] == [keys[0]] + rest[..j];
      }
      forall j | 0 <= j < i - 1
        ensures rest[j] !in seen + {keys[0]} && rest[j] !in rest[..j] && ParseError(rt, rest[j]) == None
      {
        assert rest[j] == keys[j + 1];
      }
      CheckFirst(rt, seen + {keys[0]}, rest, i - 1);
    }
  }

  ghost predicate FirstSection(ss: seq<Section>, s: string, i: nat) {
    i < |ss| && ss[i].id == s && forall k | 0 <= k < i :: ss[k].id != s
  }

  ghost predicate FirstGroup(gs: seq<Group>, g: string, j: nat) {
    j < |gs| && gs[j].id == g && forall k | 0 <= k < j :: gs[k].id != g
  }

  /** The negative results of FindField: -1 without the section, -2 without the group, -3 without the
      field, each looked up in the first section or group that has the id. */
  lemma FindMisses(ss: seq<Section>, s: string, g: string, f: string, i: nat, j: nat)
    requires Word(s) && Word(g) && f != ""
    ensures var k := FindField(ss, s + "/" + g + "/" + f).1;
            && (k == -1 <==> forall n | 0 <= n < |ss| :: ss[n].id != s)
            && (FirstSection(ss, s, i) ==> (k == -2 <==> forall n | 0 <= n < |ss[i].groups| :: ss[i].groups[n].id != g))
            && (FirstSection(ss, s, i) && FirstGroup(ss[i].groups, g, j) ==>
                  (k == -3 <==> forall n | 0 <= n < |ss[i].groups[j].fields| :: ss[i].groups[j].fields[n].id != f))
  {
    hide Split, CountSlash;
    SplitKey(s, g, f);
  }

  /** And -10 for a route of fewer than three parts or with a slash in front. */
  lemma FindShort(ss: seq<Section>, route: string)
    requires route == "" || route[0] == '/' || CountSlash(route) < 2
    ensures FindField(ss, route) == (None, -10)
  {
    hide CountSlash;
    var i := IndexSlash(route, 0);
    if i > 0 && IndexSlash(route, i + 1) != -1 { TwoCut(route, i, IndexSlash(route, i + 1)); }
  }

  lemma TwoCut(route: string, i: nat, j: nat)
    requires i < j < |route| && route[i] == '/' && route[j] == '/'
    ensures CountSlash(route) >= 2
  {
    PathTexts.TwoOrMore(route);
  }
}

/** The nested IFNULL expression of eav/sql.go: what it prints, that the print parses back, and
    what it evaluates to. */
module IfNull {
  import opened Common

  const DEFAULT_SCOPE_NAMES := ["Store", "Group", "Website", "Default"]

  datatype Token =
    | Open                                  // IFNULL(
    | Column(table: string, column: string)
    | Comma
    | Literal(text: string)
    | Close
    | As(alias: string)

  datatype Expr =
    | Col(table: string, column: string)
    | Lit(text: string)
    | Or(first: Expr, second: Expr)         // IFNULL(first, second)

  function Print(t: Token): string {
    match t
    case Open => "IFNULL("
    case Column(table, column) => "`" + table + "`.`" + column + "`"
    case Comma => ","
    case Literal(text) => text
    case Close => ")"
    case As(alias) => " AS `" + alias + "`"
  }

  function PrintAll(ts: seq<Token>): string {
    if ts == [] then "" else PrintAll(ts[..|ts| - 1]) + Print(ts[|ts| - 1])
  }

  // ---- the SQL reading ----

  /** expr := column | literal | IFNULL( expr , expr ) */
  function Parse(ts: seq<Token>): (r: Option<(Expr, seq<Token>)>)
    ensures r.Some? ==> |r.value.1| < |ts|
    decreases |ts|
  {
    if ts == [] then None
    else match ts[0]
      case Column(table, column) => Some((Col(table, column), ts[1..]))
      case Literal(text) => Some((Lit(text), ts[1..]))
      case Open =>
        (match Parse(ts[1..])
         case None => None
         case Some((first, rest)) =>
           if rest == [] || rest[0] != Comma then None
           else match Parse(rest[1..])
             case None => None
             case Some((second, rest')) =>
               if rest' == [] || rest'[0] != Close then None else Some((Or(first, second), rest'[1..])))
      case _ => None
  }

  function Eval(e: Expr, row: (string, string) -> Option<string>): Option<string> {
    match e
    case Col(table, column) => row(table, column)
    case Lit(text) => Some(text)
    case Or(first, second) => if Eval(first, row).Some? then Eval(first, row) else Eval(second, row)
  }

  function Depth(ts: seq<Token>): int {
    if ts == [] then 0
    else Depth(ts[..|ts| - 1]) + (match ts[|ts| - 1] case Open => 1 case Close => -1 case _ => 0)
  }

  // ---- the generator ----

  function Scopes(names: seq<string>): seq<string> { if names == [] then DEFAULT_SCOPE_NAMES else names }

  function DefaultText(text: string): string { if text == "" then "''" else text }

  /** One IFNULL inside the other. */
  function Nested(alias: string, column: string, text: string, names: seq<string>): Expr {
    if names == [] then Lit(text) else Or(Col(alias + names[0], column), Nested(alias, column, text, names[1..]))
  }

  function Heads(alias: string, column: string, names: seq<string>): seq<Token> {
    if names == [] then []
    else Heads(alias, column, names[..|names| - 1]) + [Open, Column(alias + names[|names| - 1], column), Comma]
  }

  function Closes(n: nat): seq<Token> { if n == 0 then [] else Closes(n - 1) + [Close] }

  /** The tokens in the order the two loops write them. */
  function Tokens(alias: string, column: string, text: string, names: seq<string>): seq<Token> {
    Heads(alias, column, names) + [Literal(text)] + Closes(|names|)
  }

  lemma PrintNext(ts: seq<Token>, t: Token)
    ensures PrintAll(ts + [t]) == PrintAll(ts) + Print(t)
  {
    assert (ts + [t])[..|ts|] == ts;
  }

  /** The body of the first loop up to the comma. */
  method WriteHead(buf: string, alias: string, name: string, column: string, ghost ts: seq<Token>) returns (out: string)
    requires buf == PrintAll(ts)
    ensures out == PrintAll(ts + [Open] + [Column(alias + name, column)])
  {
    var col := "`" + alias + name + "`" + "." + "`" + column + "`";
    assert col == Print(Column(alias + name, column));
    out := buf + "IFNULL(" + col;
    PrintNext(ts, Open);
    PrintNext(ts + [Open], Column(alias + name, column));
  }

  /** The first loop; the last comma is still missing behind it. */
  method WriteHeads(alias: string, column: string, names: seq<string>, ghost ts: seq<Token>)
      returns (buf: string, brackets: nat)
    requires names != [] && ts + [Comma] == Heads(alias, column, names)
    ensures buf == PrintAll(ts) && brackets == |names|
  {
    hide PrintAll, Print;
    buf, brackets := "", 0;
    PrintNone();
    ghost var done: seq<Token> := [];
    for i := 0 to |names|
      invariant brackets == i && buf == PrintAll(done)
      invariant if i == |names| then done + [Comma] == Heads(alias, column, names)
                else done == Heads(alias, column, names[..i])
    {
      assert names[..i + 1][..i] == names[..i] && names[..|names|] == names;
      buf := WriteHead(buf, alias, names[i], column, done);
      done := done + [Open] + [Column(alias + names[i], column)];
      if brackets < |names| - 1 {
        buf := buf + ",";
        PrintNext(done, Comma);
        PrintComma();
        done := done + [Comma];
      }
      brackets := brackets + 1;
    }
    assert done == (done + [Comma])[..|done|] == ts;
  }

  lemma PrintNone()
    ensures PrintAll([]) == ""
  {
  }

  lemma PrintClose()
    ensures Print(Close) == ")"
  {
  }

  lemma PrintComma()
    ensures Print(Comma) == ","
  {
  }

  /** The second loop. */
  method WriteCloses(buf: string, n: nat, ghost ts: seq<Token>) returns (out: string)
    requires buf == PrintAll(ts)
    ensures out == PrintAll(ts + Closes(n))
  {
    hide PrintAll, Print;
    PrintClose();
    out := buf;
    assert ts + [] == ts;
    for i := 0 to n
      invariant out == PrintAll(ts + Closes(i))
    {
      out := out + ")";
      PrintNext(ts + Closes(i), Close);
      assert ts + Closes(i) + [Close] == ts + Closes(i + 1);
    }
  }

  method WriteAs(buf: string, alias: string, ghost ts: seq<Token>) returns (out: string)
    requires buf == PrintAll(ts)
    ensures out == PrintAll(ts + [As(alias)])
  {
    var tail := " AS " + "`" + alias + "`";
    assert tail == Print(As(alias));
    out := buf + tail;
    PrintNext(ts, As(alias));
  }

  method WriteDefault(buf: string, text: string, ghost ts: seq<Token>) returns (out: string)
    requires buf == PrintAll(ts)
    ensures out == PrintAll(ts + [Comma] + [Literal(text)])
  {
    out := buf + "," + text;
    PrintNext(ts, Comma);
    PrintNext(ts + [Comma], Literal(text));
  }

  /** eav.IfNull writes the tokens and the alias. */
  method IfNull(alias: string, column: string, defaultVal: string, scopeNames: seq<string>) returns (buf: string)
    ensures buf == PrintAll(Tokens(alias, column, DefaultText(defaultVal), Scopes(scopeNames)) + [As(alias)])
  {
    hide PrintAll;
    var names := if |scopeNames| == 0 then DEFAULT_SCOPE_NAMES else scopeNames;
    var text := if defaultVal == "" then "''" else defaultVal;
    ghost var heads := Heads(alias, column, names);
    ghost var ts := heads[..|heads| - 1];
    assert ts + [Comma] == heads;
    hide Heads;
    var brackets;
    buf, brackets := WriteHeads(alias, column, names, ts);
    buf := WriteDefault(buf, text, ts);
    buf := WriteCloses(buf, brackets, heads + [Literal(text)]);
    buf := WriteAs(buf, alias, Tokens(alias, column, text, names));
  }

  // ---- what it means ----

  lemma {:induction false} HeadsFront(alias: string, column: string, names: seq<string>)
    requires names != []
    ensures Heads(alias, column, names) ==
            [Open, Column(alias + names[0], column), Comma] + Heads(alias, column, names[1..])
  {
    if |names| > 1 {
      var before := names[..|names| - 1];
      HeadsFront(alias, column, before);
      assert before[1..] == names[1..][..|names[1..]| - 1];
    } else {
      assert names[..0] == [] && names[1..] == [];
    }
  }

  lemma {:induction false} ClosesFront(n: nat)
    requires n > 0
    ensures Closes(n) == [Close] + Closes(n - 1)
  {
    if n == 1 {
    } else {
      ClosesFront(n - 1);
    }
  }

  lemma ParseOr(col: Token, inner: seq<Token>, e: Expr, rest: seq<Token>)
    requires col.Column? && Parse(inner) == Some((e, [Close] + rest))
    ensures Parse([Open, col, Comma] + inner) == Some((Or(Col(col.table, col.column), e), rest))
  {
    var ts := [Open, col, Comma] + inner;
    assert ts[1..] == [col, Comma] + inner && ts[1..][1..] == [Comma] + inner && ([Comma] + inner)[1..] == inner;
    assert ([Close] + rest)[1..] == rest;
  }

  /** Reading the tokens back gives the nested expression and leaves what follows. */
  lemma {:induction false} ParseUndoes(alias: string, column: string, text: string, names: seq<string>,
      rest: seq<Token>)
    ensures Parse(Tokens(alias, column, text, names) + rest) == Some((Nested(alias, column, text, names), rest))
  {
    var ts := Tokens(alias, column, text, names) + rest;
    if names == [] {
      assert ts == [Literal(text)] + rest;
    } else {
      var col := Column(alias + names[0], column);
      var inner := Tokens(alias, column, text, names[1..]) + ([Close] + rest);
      HeadsFront(alias, column, names);
      assert Closes(|names|) == Closes(|names| - 1) + [Close];
      assert ts == [Open, col, Comma] + inner;
      ParseUndoes(alias, column, text, names[1..], [Close] + rest);
      ParseOr(col, inner, Nested(alias, column, text, names[1..]), rest);
    }
  }

  /** The scope at i is the first whose column is not NULL. */
  predicate FirstSet(alias: string, column: string, names: seq<string>, row: (string, string) -> Option<string>, i: nat)
  {
    && i < |names| && row(alias + names[i], column).Some?
    && forall k | 0 <= k < i :: row(alias + names[k], column).None?
  }

  lemma {:induction false} EvalNested(alias: string, column: string, text: string, names: seq<string>,
      row: (string, string) -> Option<string>)
    ensures forall i: nat | FirstSet(alias, column, names, row, i) ::
              Eval(Nested(alias, column, text, names), row) == row(alias + names[i], column)
    ensures (forall k | 0 <= k < |names| :: row(alias + names[k], column).None?) ==>
              Eval(Nested(alias, column, text, names), row) == Some(text)
  {
    if names == [] {
    } else {
      var rest := names[1..];
      EvalNested(alias, column, text, rest, row);
      assert forall k | 0 <= k < |rest| :: rest[k] == names[k + 1];
      forall i: nat | FirstSet(alias, column, names, row, i)
        ensures Eval(Nested(alias, column, text, names), row) == row(alias + names[i], column)
      {
        if i > 0 { assert FirstSet(alias, column, rest, row, i - 1); }
      }
    }
  }

  lemma {:induction false} DepthSum(a: seq<Token>, b: seq<Token>)
    ensures Depth(a + b) == Depth(a) + Depth(b)
  {
    if b == [] {
      assert a + b == a;
    } else {
      DepthSum(a, b[..|b| - 1]);
      assert (a + b)[..|a + b| - 1] == a + b[..|b| - 1];
    }
  }

  ghost predicate Balanced(ts: seq<Token>) {
    Depth(ts) == 0 && forall k | 0 <= k <= |ts| :: Depth(ts[..k]) >= 0
  }

  lemma Wrapped(col: Token, inner: seq<Token>)
    requires col.Column? && Balanced(inner)
    ensures Balanced([Open, col, Comma] + inner + [Close])
  {
    var front, ts := [Open, col, Comma], [Open, col, Comma] + inner + [Close];
    FrontDepth(col);
    DepthSum(front, inner);
    assert ts[..|ts| - 1] == front + inner;
    forall k | 0 <= k <= |ts| ensures Depth(ts[..k]) >= 0 {
      if k <= 3 {
        assert ts[..k] == front[..k];
      } else if k < |ts| {
        assert ts[..k] == front + inner[..k - 3];
        DepthSum(front, inner[..k - 3]);
      } else {
        assert ts[..k] == ts;
      }
    }
  }

  lemma FrontDepth(col: Token)
    requires col.Column?
    ensures Depth([Open, col, Comma]) == 1 && forall k | 0 <= k <= 3 :: Depth([Open, col, Comma][..k]) >= 0
  {
    var ts := [Open, col, Comma];
    assert [Open][..0] == [] && Depth([Open]) == 1;
    assert [Open, col][..1] == [Open] && Depth([Open, col]) == 1;
    assert ts[..2] == [Open, col] && Depth(ts) == 1;
    assert ts[..0] == [] && ts[..1] == [Open] && ts[..3] == ts;
  }

  lemma {:induction false} TokensBalanced(alias: string, column: string, text: string, names: seq<string>)
    ensures Balanced(Tokens(alias, column, text, names))
  {
    var ts := Tokens(alias, column, text, names);
    if names == [] {
      assert ts == [Literal(text)] && ts[..0] == [] && ts[..1] == ts;
      assert Depth(ts) == 0;
    } else {
      var inner := Tokens(alias, column, text, names[1..]);
      TokensBalanced(alias, column, text, names[1..]);
      HeadsFront(alias, column, names);
      assert ts == [Open, Column(alias + names[0], column), Comma] + inner + [Close];
      Wrapped(Column(alias + names[0], column), inner);
    }
  }

  /** What IfNull writes is balanced, reads as one expression followed by the alias, and
      evaluates to the first non-NULL column in scope order, else to the default. */
  lemma IfNullMeans(alias: string, column: string, defaultVal: string, scopeNames: seq<string>,
      row: (string, string) -> Option<string>)
    ensures var text, names := DefaultText(defaultVal), Scopes(scopeNames);
            var ts := Tokens(alias, column, text, names);
            var r := Parse(ts + [As(alias)]);
            && Balanced(ts)
            && r.Some? && r.value.1 == [As(alias)]
            && (forall i: nat | FirstSet(alias, column, names, row, i) ::
                  Eval(r.value.0, row) == row(alias + names[i], column))
            && ((forall k | 0 <= k < |names| :: row(alias + names[k], column).None?) ==>
                  Eval(r.value.0, row) == Some(text))
  {
    hide Tokens, Parse, Eval, Nested, Balanced;
    var text, names := DefaultText(defaultVal), Scopes(scopeNames);
    TokensBalanced(alias, column, text, names);
    ParseUndoes(alias, column, text, names, [As(alias)]);
    EvalNested(alias, column, text, names, row);
  }
}

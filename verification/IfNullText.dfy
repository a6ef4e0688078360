/** Reading the text of eav.IfNull (eav/sql.go) back: a lexer for the SQL it writes, and when the
    text lexes to the tokens it was written from. */
module IfNullText {
  import opened Common
  import opened IfNull

  /** The first place from `from` on that holds c, or the length of the text. */
  function Find(s: string, from: nat, c: char): (i: nat)
    requires from <= |s|
    ensures from <= i <= |s| && (i < |s| ==> s[i] == c) && forall k | from <= k < i :: s[k] != c
    decreases |s| - from
  {
    if from == |s| || s[from] == c then from else Find(s, from + 1, c)
  }

  function Cons(t: Token, rest: Option<seq<Token>>): Option<seq<Token>> {
    if rest.Some? then Some([t] + rest.value) else None
  }

  /** Names stand between backticks; whatever starts no other token is a literal up to the next
      closing bracket. */
  function Lex(s: string): Option<seq<Token>>
    decreases |s|
  {
    if s == "" then Some([])
    else if "IFNULL(" <= s then Cons(Open, Lex(s[7..]))
    else if s[0] == ',' then Cons(Comma, Lex(s[1..]))
    else if s[0] == ')' then Cons(Close, Lex(s[1..]))
    else if s[0] == '`' then
      var e := Find(s, 1, '`');
      if |s| < e + 3 || s[e + 1] != '.' || s[e + 2] != '`' then None
      else
        var f := Find(s, e + 3, '`');
        if f == |s| then None else Cons(Column(s[1..e], s[e + 3..f]), Lex(s[f + 1..]))
    else if " AS `" <= s then
      var e := Find(s, 5, '`');
      if e == |s| then None else Cons(As(s[5..e]), Lex(s[e + 1..]))
    else
      var e := Find(s, 0, ')');
      Cons(Literal(s[..e]), Lex(s[e..]))
  }

  predicate NoTick(name: string) { forall k | 0 <= k < |name| :: name[k] != '`' }

  /** A default value that the lexer takes for a literal. */
  predicate Plain(text: string) {
    && text != "" && text[0] != ',' && text[0] != '`'
    && !("IFNULL(" <= text) && !(" AS `" <= text)
    && (forall k | 0 <= k < |text| :: text[k] != ')')
  }

  predicate Clean(t: Token) {
    match t
    case Column(table, column) => NoTick(table) && NoTick(column)
    case As(alias) => NoTick(alias)
    case Literal(text) => Plain(text)
    case _ => true
  }

  /** Clean tokens, each literal before a closing bracket. */
  predicate Readable(ts: seq<Token>) {
    ts == [] ||
    (Clean(ts[0]) && (ts[0].Literal? ==> |ts| > 1 && ts[1] == Close) && Readable(ts[1..]))
  }

  lemma FindIs(s: string, from: nat, i: nat, c: char)
    requires from <= i < |s| && s[i] == c && forall k | from <= k < i :: s[k] != c
    ensures Find(s, from, c) == i
  {
    var j := Find(s, from, c);
    assert j >= i;
  }

  lemma ColumnShape(table: string, column: string, rest: string)
    ensures var s, e, f := Print(Column(table, column)) + rest, 1 + |table|, |table| + 4 + |column|;
            && |s| > f && s[0] == '`' && s[e] == '`' && s[e + 1] == '.' && s[e + 2] == '`' && s[f] == '`'
            && s[1..e] == table && s[e + 3..f] == column && s[f + 1..] == rest
            && (forall k | 1 <= k < e :: s[k] == table[k - 1])
            && (forall k | e + 3 <= k < f :: s[k] == column[k - e - 3])
  {
  }

  lemma LexColumn(table: string, column: string, rest: string)
    requires NoTick(table) && NoTick(column)
    ensures Lex(Print(Column(table, column)) + rest) == Cons(Column(table, column), Lex(rest))
  {
    hide Print, Find;
    var s, e, f := Print(Column(table, column)) + rest, 1 + |table|, |table| + 4 + |column|;
    ColumnShape(table, column, rest);
    FindIs(s, 1, e, '`');
    FindIs(s, e + 3, f, '`');
    assert "IFNULL("[0] == 'I';
  }

  lemma LexAs(alias: string, rest: string)
    requires NoTick(alias)
    ensures Lex(Print(As(alias)) + rest) == Cons(As(alias), Lex(rest))
  {
    var s := Print(As(alias)) + rest;
    var e := 5 + |alias|;
    assert s[..5] == " AS `" && s[0] == ' ' && s[5..e] == alias && s[e] == '`' && s[e + 1..] == rest;
    assert forall k | 5 <= k < e :: s[k] == alias[k - 5];
    FindIs(s, 5, e, '`');
    assert "IFNULL("[0] == 'I';
  }

  lemma LexLiteral(text: string, rest: string)
    requires Plain(text) && rest != "" && rest[0] == ')'
    ensures Lex(Print(Literal(text)) + rest) == Cons(Literal(text), Lex(rest))
  {
    var s := text + rest;
    assert s[0] == text[0] && s[..|text|] == text && s[|text|..] == rest && s[|text|] == ')';
    assert forall k | 0 <= k < |text| :: s[k] == text[k];
    FindIs(s, 0, |text|, ')');
    NoKeyword(text, rest, "IFNULL(");
    NoKeyword(text, rest, " AS `");
  }

  /** A literal and the bracket behind it do not form a keyword. */
  lemma NoKeyword(text: string, rest: string, word: string)
    requires rest != "" && rest[0] == ')' && !(word <= text) && forall k | 0 <= k < |word| :: word[k] != ')'
    ensures !(word <= text + rest)
  {
    var s := text + rest;
    assert s[|text|] == ')';
    assert |word| <= |text| ==> s[..|word|] == text[..|word|];
  }

  lemma LexFixed(t: Token, rest: string)
    requires t.Open? || t.Comma? || t.Close?
    ensures Lex(Print(t) + rest) == Cons(t, Lex(rest))
  {
    var s := Print(t) + rest;
    assert s[|Print(t)|..] == rest && s[..|Print(t)|] == Print(t);
    if !t.Open? { assert s[0] == Print(t)[0] && "IFNULL("[0] == 'I'; }
  }

  lemma {:induction false} PrintFront(t: Token, ts: seq<Token>)
    ensures PrintAll([t] + ts) == Print(t) + PrintAll(ts)
  {
    hide Print;
    if ts == [] {
      assert [t] + ts == [t] && [t][..0] == [];
    } else {
      PrintFront(t, ts[..|ts| - 1]);
      assert ([t] + ts)[..|ts|] == [t] + ts[..|ts| - 1];
    }
  }

  lemma LexToken(t: Token, rest: string)
    requires Clean(t) && (t.Literal? ==> rest != "" && rest[0] == ')')
    ensures Lex(Print(t) + rest) == Cons(t, Lex(rest))
  {
    hide Lex, Print, NoTick, Plain;
    match t {
      case Column(table, column) => LexColumn(table, column, rest);
      case As(alias) => LexAs(alias, rest);
      case Literal(text) => LexLiteral(text, rest);
      case _ => LexFixed(t, rest);
    }
  }

  /** The text of readable tokens lexes back to them. */
  lemma {:induction false} LexUndoes(ts: seq<Token>)
    requires Readable(ts)
    ensures Lex(PrintAll(ts)) == Some(ts)
  {
    hide Lex, Clean;
    if ts == [] {
      LexNothing();
    } else {
      var t, rest := ts[0], ts[1..];
      assert ts == [t] + rest;
      PrintFront(t, rest);
      if t.Literal? { StartsWithClose(rest); }
      LexToken(t, PrintAll(rest));
      LexUndoes(rest);
    }
  }

  lemma LexNothing()
    ensures PrintAll([]) == "" && Lex("") == Some([])
  {
  }

  lemma StartsWithClose(ts: seq<Token>)
    requires ts != [] && ts[0] == Close
    ensures PrintAll(ts) != "" && PrintAll(ts)[0] == ')'
  {
    assert ts == [Close] + ts[1..];
    PrintFront(Close, ts[1..]);
  }

  lemma {:induction false} TokensAreReadable(alias: string, column: string, text: string, names: seq<string>,
      rest: seq<Token>)
    requires NoTick(alias) && NoTick(column) && Plain(text) && forall n | n in names :: NoTick(n)
    requires Readable(rest) && (names == [] ==> rest != [] && rest[0] == Close)
    ensures Readable(Tokens(alias, column, text, names) + rest)
  {
    hide Plain, Readable, Tokens, NoTick;
    if names == [] {
      ReadableLiteral(alias, column, text, rest);
    } else {
      assert names[0] in names;
      ReadableClose(rest);
      TokensAreReadable(alias, column, text, names[1..], [Close] + rest);
      TokensFront(alias, column, text, names, rest);
      CleanColumn(alias, names[0], column);
      ReadableThree(Column(alias + names[0], column), Tokens(alias, column, text, names[1..]) + ([Close] + rest));
    }
  }

  lemma ReadableLiteral(alias: string, column: string, text: string, rest: seq<Token>)
    requires Plain(text) && Readable(rest) && rest != [] && rest[0] == Close
    ensures Readable(Tokens(alias, column, text, []) + rest)
  {
    hide Plain;
    var ts := Tokens(alias, column, text, []) + rest;
    assert ts == [Literal(text)] + rest && ts[1..] == rest;
  }

  lemma ReadableClose(rest: seq<Token>)
    requires Readable(rest)
    ensures Readable([Close] + rest)
  {
    assert ([Close] + rest)[1..] == rest;
  }

  lemma CleanColumn(alias: string, name: string, column: string)
    requires NoTick(alias) && NoTick(name) && NoTick(column)
    ensures Clean(Column(alias + name, column))
  {
  }

  lemma TokensFront(alias: string, column: string, text: string, names: seq<string>, rest: seq<Token>)
    requires names != []
    ensures Tokens(alias, column, text, names) + rest ==
            [Open, Column(alias + names[0], column), Comma] +
            (Tokens(alias, column, text, names[1..]) + ([Close] + rest))
  {
    HeadsFront(alias, column, names);
    assert Closes(|names|) == Closes(|names| - 1) + [Close];
  }

  lemma ReadableThree(col: Token, inner: seq<Token>)
    requires col.Column? && Clean(col) && Readable(inner)
    ensures Readable([Open, col, Comma] + inner)
  {
    var ts := [Open, col, Comma] + inner;
    assert ts[1..] == [col, Comma] + inner && ([col, Comma] + inner)[1..] == [Comma] + inner;
    assert ([Comma] + inner)[1..] == inner;
  }

  /** The string IfNull returns, read as SQL: if no name holds a backtick and the default is a
      plain literal, it lexes, parses as one expression followed by the alias, and evaluates to
      the first non-NULL column in scope order, else to the default. */
  lemma TextMeans(alias: string, column: string, defaultVal: string, scopeNames: seq<string>,
                  row: (string, string) -> Option<string>)
    requires NoTick(alias) && NoTick(column) && Plain(DefaultText(defaultVal))
    requires forall n | n in Scopes(scopeNames) :: NoTick(n)
    ensures var text, names := DefaultText(defaultVal), Scopes(scopeNames);
            var lexed := Lex(PrintAll(Tokens(alias, column, text, names) + [As(alias)]));
            && lexed.Some?
            && var r := Parse(lexed.value);
               && r.Some? && r.value.1 == [As(alias)]
               && (forall i: nat | FirstSet(alias, column, names, row, i) ::
                     Eval(r.value.0, row) == row(alias + names[i], column))
               && ((forall k | 0 <= k < |names| :: row(alias + names[k], column).None?) ==>
                     Eval(r.value.0, row) == Some(text))
  {
    hide Lex, Parse, Eval, Tokens, PrintAll, Plain;
    var text, names := DefaultText(defaultVal), Scopes(scopeNames);
    assert Readable([As(alias)]) by { assert [As(alias)][1..] == []; }
    TokensAreReadable(alias, column, text, names, [As(alias)]);
    LexUndoes(Tokens(alias, column, text, names) + [As(alias)]);
    IfNullMeans(alias, column, defaultVal, scopeNames, row);
  }

  // ---- the text itself ----

  /** The nested expression as SQL. */
  function Sql(alias: string, column: string, text: string, names: seq<string>): string {
    if names == [] then text
    else "IFNULL(`" + alias + names[0] + "`.`" + column + "`," + Sql(alias, column, text, names[1..]) + ")"
  }

  lemma {:induction false} PrintSum(a: seq<Token>, b: seq<Token>)
    ensures PrintAll(a + b) == PrintAll(a) + PrintAll(b)
  {
    hide Print, PrintAll;
    if b == [] {
      assert a + b == a;
      PrintNone();
    } else {
      var front, last := b[..|b| - 1], b[|b| - 1];
      PrintSum(a, front);
      assert a + b == (a + front) + [last] && b == front + [last];
      PrintNext(a + front, last);
      PrintNext(front, last);
    }
  }

  lemma PrintOne(t: Token)
    ensures PrintAll([t]) == Print(t) && PrintAll([]) == ""
  {
    assert [t][..0] == [];
  }

  lemma PrintThree(a: Token, b: Token, c: Token)
    ensures PrintAll([a, b, c]) == Print(a) + Print(b) + Print(c)
  {
    hide PrintAll, Print;
    assert [a, b, c] == [a] + [b] + [c];
    PrintSum([a] + [b], [c]);
    PrintSum([a], [b]);
    PrintOne(a);
    PrintOne(b);
    PrintOne(c);
  }

  /** The tokens written one after the other are that SQL. */
  lemma {:induction false} PrintsSql(alias: string, column: string, text: string, names: seq<string>)
    ensures PrintAll(Tokens(alias, column, text, names)) == Sql(alias, column, text, names)
  {
    hide PrintAll;
    if names == [] {
      assert Tokens(alias, column, text, names) == [Literal(text)];
      PrintOne(Literal(text));
    } else {
      var col, inner := Column(alias + names[0], column), Tokens(alias, column, text, names[1..]);
      HeadsFront(alias, column, names);
      assert Tokens(alias, column, text, names) == [Open, col, Comma] + inner + [Close];
      PrintSum([Open, col, Comma] + inner, [Close]);
      PrintSum([Open, col, Comma], inner);
      PrintOne(Close);
      PrintThree(Open, col, Comma);
      PrintsSql(alias, column, text, names[1..]);
      assert "IFNULL(" + ("`" + (alias + names[0]) + "`.`" + column + "`") + "," ==
             "IFNULL(`" + alias + names[0] + "`.`" + column + "`,";
    }
  }

  /** IfNull without scope names: store, group, website and default, in this order, and '' where
      no default is given. */
  lemma DefaultSql(alias: string, column: string, defaultVal: string)
    ensures var text := if defaultVal == "" then "''" else defaultVal;
            PrintAll(Tokens(alias, column, DefaultText(defaultVal), Scopes([])) + [As(alias)]) ==
              "IFNULL(`" + alias + "Store" + "`.`" + column + "`," +
                ("IFNULL(`" + alias + "Group" + "`.`" + column + "`," +
                  ("IFNULL(`" + alias + "Website" + "`.`" + column + "`," +
                    ("IFNULL(`" + alias + "Default" + "`.`" + column + "`," + text + ")") + ")") + ")") + ")" +
              (" AS `" + alias + "`")
  {
    hide PrintAll, Tokens;
    var text := DefaultText(defaultVal);
    PrintsSql(alias, column, text, Scopes([]));
    PrintSum(Tokens(alias, column, text, Scopes([])), [As(alias)]);
    PrintOne(As(alias));
    FourNames(alias, column, text);
  }

  lemma FourNames(alias: string, column: string, text: string)
    ensures Sql(alias, column, text, Scopes([])) ==
              "IFNULL(`" + alias + "Store" + "`.`" + column + "`," +
                ("IFNULL(`" + alias + "Group" + "`.`" + column + "`," +
                  ("IFNULL(`" + alias + "Website" + "`.`" + column + "`," +
                    ("IFNULL(`" + alias + "Default" + "`.`" + column + "`," + text + ")") + ")") + ")") + ")"
  {
    hide Sql;
    assert Scopes([]) == ["Store"] + (["Group"] + (["Website"] + (["Default"] + [])));
    SqlStep(alias, column, text, "Store", ["Group"] + (["Website"] + (["Default"] + [])));
    SqlStep(alias, column, text, "Group", ["Website"] + (["Default"] + []));
    SqlStep(alias, column, text, "Website", ["Default"] + []);
    SqlStep(alias, column, text, "Default", []);
  }

  lemma SqlStep(alias: string, column: string, text: string, name: string, rest: seq<string>)
    ensures Sql(alias, column, text, [name] + rest) ==
              "IFNULL(`" + alias + name + "`.`" + column + "`," + Sql(alias, column, text, rest) + ")"
    ensures Sql(alias, column, text, []) == text
  {
    assert ([name] + rest)[1..] == rest;
  }
}

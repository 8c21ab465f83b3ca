/** The toy's SQL: statements that make or drop one thing, written so that each says which thing. */
module ToyCode {
  import opened Wrappers
  import S = Sequences
  import T = MigrationNames

  /** What a toy database consists of. */
  datatype Thing =
    | TableThing(name: string)
    | IndexThing(table: string, name: string, columns: seq<string>, unique: bool, primary: bool, partial: bool)

  function Unary(n: nat): string {
    if n == 0 then "." else "a" + Unary(n - 1)
  }

  function Spell(s: string): string {
    if s == "" then "," else Unary(s[0] as nat) + Spell(s[1..])
  }

  function SpellAll(names: seq<string>): string {
    if names == [] then "!" else Spell(names[0]) + SpellAll(names[1..])
  }

  function Bit(b: bool): string { if b then "1" else "0" }

  function Describe(x: Thing): string {
    match x
    case TableThing(name) => "t" + Spell(name)
    case IndexThing(table, name, columns, unique, primary, partial) =>
      "i" + (Spell(table) + (Spell(name) + (SpellAll(columns) + (Bit(unique) + (Bit(primary) + Bit(partial))))))
  }

  function Make(x: Thing): string { "+" + Describe(x) }

  function Drop(x: Thing): string { "-" + Describe(x) }

  // ---------------------------------------------------------------- each statement says which thing

  lemma {:induction false} UnaryReads(m: nat, n: nat, u: string, v: string)
    requires Unary(m) + u == Unary(n) + v
    ensures m == n && u == v
  {
    assert (Unary(m) + u)[0] == (Unary(n) + v)[0];
    assert (Unary(m) + u)[1..] == (if m == 0 then u else Unary(m - 1) + u);
    assert (Unary(n) + v)[1..] == (if n == 0 then v else Unary(n - 1) + v);
    if m > 0 { UnaryReads(m - 1, n - 1, u, v); }
  }

  lemma {:induction false} UnaryStart(n: nat)
    ensures Unary(n) != "" && (Unary(n)[0] == 'a' || Unary(n)[0] == '.')
  {
  }

  lemma {:induction false} SpellStart(s: string)
    ensures Spell(s) != "" && (Spell(s)[0] == ',' <==> s == "") && Spell(s)[0] != '!'
  {
    if s != "" { UnaryStart(s[0] as nat); }
  }

  lemma {:induction false} SpellReads(s: string, t: string, u: string, v: string)
    requires Spell(s) + u == Spell(t) + v
    ensures s == t && u == v
  {
    SpellStart(s);
    SpellStart(t);
    assert (Spell(s) + u)[0] == (Spell(t) + v)[0];
    if s == "" {
      assert (Spell(s) + u)[1..] == u && (Spell(t) + v)[1..] == v;
    } else {
      assert Spell(s) + u == Unary(s[0] as nat) + (Spell(s[1..]) + u);
      assert Spell(t) + v == Unary(t[0] as nat) + (Spell(t[1..]) + v);
      UnaryReads(s[0] as nat, t[0] as nat, Spell(s[1..]) + u, Spell(t[1..]) + v);
      SpellReads(s[1..], t[1..], u, v);
      assert s == [s[0]] + s[1..] && t == [t[0]] + t[1..];
    }
  }

  lemma {:induction false} SpellAllReads(a: seq<string>, b: seq<string>, u: string, v: string)
    requires SpellAll(a) + u == SpellAll(b) + v
    ensures a == b && u == v
  {
    if a != [] { SpellStart(a[0]); }
    if b != [] { SpellStart(b[0]); }
    assert (SpellAll(a) + u)[0] == (SpellAll(b) + v)[0];
    if a == [] {
      assert (SpellAll(a) + u)[1..] == u && (SpellAll(b) + v)[1..] == v;
    } else {
      assert SpellAll(a) + u == Spell(a[0]) + (SpellAll(a[1..]) + u);
      assert SpellAll(b) + v == Spell(b[0]) + (SpellAll(b[1..]) + v);
      SpellReads(a[0], b[0], SpellAll(a[1..]) + u, SpellAll(b[1..]) + v);
      SpellAllReads(a[1..], b[1..], u, v);
      assert a == [a[0]] + a[1..] && b == [b[0]] + b[1..];
    }
  }

  lemma {:induction false} BitsRead(a: bool, b: bool, c: bool, a': bool, b': bool, c': bool)
    requires Bit(a) + (Bit(b) + Bit(c)) == Bit(a') + (Bit(b') + Bit(c'))
    ensures a == a' && b == b' && c == c'
  {
    var x, y := Bit(a) + (Bit(b) + Bit(c)), Bit(a') + (Bit(b') + Bit(c'));
    assert x[0] == y[0] && x[1] == y[1] && x[2] == y[2];
  }

  lemma {:induction false} DescribeReads(x: Thing, y: Thing)
    requires Describe(x) == Describe(y)
    ensures x == y
  {
    hide Spell, SpellAll, Bit;
    assert Describe(x)[0] == Describe(y)[0];
    assert Describe(x)[1..] == Describe(y)[1..];
    if x.TableThing? {
      assert Describe(x)[1..] == Spell(x.name) + "" && Describe(y)[1..] == Spell(y.name) + "";
      SpellReads(x.name, y.name, "", "");
    } else {
      IndexReads(x, y);
    }
  }

  lemma {:induction false} IndexReads(x: Thing, y: Thing)
    requires x.IndexThing? && y.IndexThing? && Describe(x)[1..] == Describe(y)[1..]
    ensures x == y
  {
    hide Spell, SpellAll, Bit;
    var bits := Bit(x.unique) + (Bit(x.primary) + Bit(x.partial));
    var bits' := Bit(y.unique) + (Bit(y.primary) + Bit(y.partial));
    var end, end' := SpellAll(x.columns) + bits, SpellAll(y.columns) + bits';
    assert Describe(x)[1..] == Spell(x.table) + (Spell(x.name) + end);
    assert Describe(y)[1..] == Spell(y.table) + (Spell(y.name) + end');
    SpellReads(x.table, y.table, Spell(x.name) + end, Spell(y.name) + end');
    SpellReads(x.name, y.name, end, end');
    SpellAllReads(x.columns, y.columns, bits, bits');
    BitsRead(x.unique, x.primary, x.partial, y.unique, y.primary, y.partial);
  }

  /** What a statement says, if anything: `true` to make the thing, `false` to drop it. */
  ghost function Meaning(statement: string): Option<(bool, Thing)> {
    if exists x :: statement == Make(x) then
      var x :| statement == Make(x);
      Some((true, x))
    else if exists x :: statement == Drop(x) then
      var x :| statement == Drop(x);
      Some((false, x))
    else None
  }

  lemma {:induction false} MakeMeans(x: Thing)
    ensures Meaning(Make(x)) == Some((true, x))
  {
    hide Describe;
    forall y | Make(x) == Make(y) ensures x == y {
      assert Make(x)[1..] == Describe(x) && Make(y)[1..] == Describe(y);
      DescribeReads(x, y);
    }
  }

  lemma {:induction false} DropMeans(x: Thing)
    ensures Meaning(Drop(x)) == Some((false, x))
  {
    hide Describe;
    assert forall y :: Make(y)[0] == '+' && Drop(y)[0] == '-';
    assert !exists y :: Drop(x) == Make(y);
    forall y | Drop(x) == Drop(y) ensures x == y {
      assert Drop(x)[1..] == Describe(x) && Drop(y)[1..] == Describe(y);
      DescribeReads(x, y);
    }
  }

  // ---------------------------------------------------------------- texts of statements

  /** The statements, dropping what is listed last first. */
  function Drops(things: seq<Thing>): (r: seq<string>)
    ensures |r| == |things|
  {
    if things == [] then [] else Drops(things[1..]) + [Drop(things[0])]
  }

  function Makes(things: seq<Thing>): (r: seq<string>)
    ensures |r| == |things|
  {
    if things == [] then [] else Makes(S.Init(things)) + [Make(S.Last(things))]
  }

  function Text(statements: seq<string>): string {
    if statements == [] then "" else statements[0] + ";" + Text(statements[1..])
  }

  /** The pieces before the semicolons; what follows the last one is dropped. */
  function Split(text: string, pending: string): seq<string>
    decreases |text|
  {
    if text == "" then []
    else if text[0] == ';' then [pending] + Split(text[1..], "")
    else Split(text[1..], pending + [text[0]])
  }

  predicate Plain(s: string) {
    forall c :: c in s ==> c in {'a', '.', ',', '!', '0', '1', 't', 'i', '+', '-'}
  }

  lemma {:induction false} UnaryPlain(n: nat)
    ensures Plain(Unary(n))
  {
    if n > 0 { UnaryPlain(n - 1); }
  }

  lemma {:induction false} SpellPlain(s: string)
    ensures Plain(Spell(s))
  {
    if s != "" {
      UnaryPlain(s[0] as nat);
      SpellPlain(s[1..]);
    }
  }

  lemma {:induction false} SpellAllPlain(names: seq<string>)
    ensures Plain(SpellAll(names))
  {
    if names != [] {
      SpellPlain(names[0]);
      SpellAllPlain(names[1..]);
    }
  }

  lemma {:induction false} JoinPlain(a: string, b: string)
    requires Plain(a) && Plain(b)
    ensures Plain(a + b)
  {
  }

  lemma {:induction false} MarksPlain(b: bool)
    ensures Plain(Bit(b)) && Plain("t") && Plain("i") && Plain("+") && Plain("-")
  {
  }

  lemma {:induction false} DescribePlain(x: Thing)
    ensures Plain(Make(x)) && Plain(Drop(x))
  {
    hide Plain, Spell, SpellAll, Bit;
    MarksPlain(true);
    match x {
    case TableThing(name) =>
      SpellPlain(name);
      JoinPlain("t", Spell(name));
    case IndexThing(table, name, columns, unique, primary, partial) =>
      SpellPlain(table);
      SpellPlain(name);
      SpellAllPlain(columns);
      MarksPlain(unique);
      MarksPlain(primary);
      MarksPlain(partial);
      JoinPlain(Bit(primary), Bit(partial));
      JoinPlain(Bit(unique), Bit(primary) + Bit(partial));
      JoinPlain(SpellAll(columns), Bit(unique) + (Bit(primary) + Bit(partial)));
      var end := SpellAll(columns) + (Bit(unique) + (Bit(primary) + Bit(partial)));
      JoinPlain(Spell(name), end);
      JoinPlain(Spell(table), Spell(name) + end);
      JoinPlain("i", Spell(table) + (Spell(name) + end));
    }
    JoinPlain("+", Describe(x));
    JoinPlain("-", Describe(x));
  }

  ghost predicate AllPlain(statements: seq<string>) {
    forall k :: 0 <= k < |statements| ==> Plain(statements[k]) && statements[k] != ""
  }

  lemma {:induction false} DropsPlain(things: seq<Thing>)
    ensures AllPlain(Drops(things))
  {
    hide Plain, Describe;
    if things != [] {
      DropsPlain(things[1..]);
      DescribePlain(things[0]);
    }
  }

  lemma {:induction false} MakesPlain(things: seq<Thing>)
    ensures AllPlain(Makes(things))
  {
    hide Plain, Describe;
    if things != [] {
      MakesPlain(S.Init(things));
      DescribePlain(S.Last(things));
    }
  }

  lemma {:induction false} SplitOne(s: string, rest: string, pending: string)
    requires Plain(s)
    ensures Split(s + ";" + rest, pending) == [pending + s] + Split(rest, "")
    decreases |s|
  {
    if s == "" {
      assert s + ";" + rest == ";" + rest && pending + s == pending;
    } else {
      assert forall c :: c in s[1..] ==> c in s;
      assert s[0] in s && (s + ";" + rest)[1..] == s[1..] + ";" + rest;
      SplitOne(s[1..], rest, pending + [s[0]]);
      assert pending + [s[0]] + s[1..] == pending + s;
    }
  }

  lemma {:induction false} SplitText(statements: seq<string>)
    requires AllPlain(statements)
    ensures Split(Text(statements) + "\n", "") == statements
  {
    hide Plain;
    if statements == [] {
      assert ("" + "\n")[1..] == "";
    } else {
      var rest := statements[1..];
      SplitText(rest);
      assert Text(statements) + "\n" == statements[0] + ";" + (Text(rest) + "\n");
      SplitOne(statements[0], Text(rest) + "\n", "");
      assert "" + statements[0] == statements[0] && [statements[0]] + rest == statements;
    }
  }

  /** Neither the rewriting of published SQL nor its policy touches such texts. */
  ghost predicate Harmless(text: string) {
    forall c :: c in text ==> c !in {'D', 'R', 'r', ' '}
  }

  lemma {:induction false} TextHarmless(statements: seq<string>)
    requires AllPlain(statements)
    ensures Harmless(Text(statements)) && Harmless(Text(statements) + "\n")
    ensures statements != [] ==> ';' in Text(statements)
  {
    if statements != [] { TextHarmless(statements[1..]); }
  }

  lemma {:induction false} HarmlessUnchanged(text: string)
    requires Harmless(text)
    ensures T.NormalizeSql(text) == text
  {
    if text != "" {
      assert forall c :: c in text[1..] ==> c in text;
      assert text[0] in text && text[0] != "DROP INDEX \""[0];
      HarmlessUnchanged(text[1..]);
    }
  }

  lemma {:induction false} ContainsFirst(s: string, part: string)
    requires part != "" && part[0] !in s
    ensures !T.Contains(s, part)
  {
    if s != "" { ContainsFirst(s[1..], part); }
  }

  lemma {:induction false} UpperLacks(s: string)
    requires Harmless(s)
    ensures 'R' !in T.Upper(s) && ' ' !in T.Upper(s)
  {
    if s != "" {
      assert forall c :: c in s[1..] ==> c in s;
      assert s[0] in s;
      UpperLacks(s[1..]);
    }
  }

  lemma {:induction false} HarmlessIsValid(text: string)
    requires Harmless(text) && ';' in text
    ensures T.ValidSql(text)
  {
    hide Harmless, T.Contains, T.Upper, T.Blank;
    T.BlankIff(text);
    assert !T.IsSpace(';');
    UpperLacks(text);
    ContainsFirst(T.Upper(text), "REFERENCES");
    ContainsFirst(T.Upper(text), " ON DELETE CASCADE");
    ContainsFirst(T.Upper(text), " ON UPDATE CASCADE");
  }
}

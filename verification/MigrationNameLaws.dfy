/** What slugs, extensions, the SQL policy and the rewriting of published SQL come to, position by
    position. */
module MigrationNameLaws {
  import opened Wrappers
  import opened MigrationNames

  // ---------------------------------------------------------------- slugs

  predicate AsciiAlphanumeric(c: char) {
    'a' <= c <= 'z' || 'A' <= c <= 'Z' || '0' <= c <= '9'
  }

  /** The same letter in lower case, and any other character as it is. */
  predicate LowerOf(low: char, c: char) {
    if 'A' <= c <= 'Z' then low as int == c as int + 32 else low == c
  }

  /** The ASCII letters and digits of the text stand at `at`, in order. */
  ghost predicate LettersAt(s: string, at: seq<nat>) {
    && (forall i :: 0 <= i < |at| ==> at[i] < |s| && AsciiAlphanumeric(s[at[i]]))
    && (forall i, j :: 0 <= i < j < |at| ==> at[i] < at[j])
    && forall k: nat :: k < |s| && AsciiAlphanumeric(s[k]) ==> k in at
  }

  /** The slug consists of these letters in lower case, at `pos`: next to each other where they were, and
      with one underscore between them where anything else came between. */
  ghost predicate SpacedOut(r: string, s: string, at: seq<nat>, pos: seq<nat>) {
    && |at| == |pos| > 0 && pos[0] == 0 && pos[|pos| - 1] == |r| - 1
    && (forall i :: 0 <= i < |pos| ==> pos[i] < |r| && at[i] < |s| && LowerOf(r[pos[i]], s[at[i]]))
    && forall i :: 0 <= i < |pos| - 1 ==>
         if at[i + 1] == at[i] + 1 then pos[i + 1] == pos[i] + 1
         else pos[i + 1] == pos[i] + 2 && pos[i] + 1 < |r| && r[pos[i] + 1] == '_'
  }

  lemma {:induction false} LowerIs(c: char)
    ensures LowerOf(Lower(c), c)
  {
  }

  /** One letter more, next to the last one or after an underscore. */
  lemma {:induction false} OneLetterMore(r: string, s: string, at: seq<nat>, pos: seq<nat>, n: nat, gap: string, low: char)
    requires SpacedOut(r, s, at, pos) && n < |s| && LowerOf(low, s[n])
    requires gap == if n == at[|at| - 1] + 1 then "" else "_"
    ensures SpacedOut(r + gap + [low], s, at + [n], pos + [|r| + |gap|])
  {
    var r', pos' := r + gap + [low], pos + [|r| + |gap|];
    assert forall k :: 0 <= k < |r| ==> r'[k] == r[k];
    assert r'[|r| + |gap|] == low && (gap == "_" ==> r'[|r|] == '_');
    forall i | 0 <= i < |pos'| - 1
      ensures if (at + [n])[i + 1] == (at + [n])[i] + 1 then pos'[i + 1] == pos'[i] + 1
              else pos'[i + 1] == pos'[i] + 2 && pos'[i] + 1 < |r'| && r'[pos'[i] + 1] == '_'
    {
      if i == |pos| - 1 { assert pos'[i] == |r| - 1; }
    }
  }

  /** The letters among the first `n` characters. */
  ghost predicate LettersBelow(s: string, n: nat, at: seq<nat>) {
    && (forall i :: 0 <= i < |at| ==> at[i] < n && at[i] < |s| && AsciiAlphanumeric(s[at[i]]))
    && (forall i, j :: 0 <= i < j < |at| ==> at[i] < at[j])
    && forall k: nat :: k < n && k < |s| && AsciiAlphanumeric(s[k]) ==> k in at
  }

  lemma {:induction false} OneMoreLetter(s: string, n: nat, at: seq<nat>)
    requires n < |s| && LettersBelow(s, n, at) && AsciiAlphanumeric(s[n])
    ensures LettersBelow(s, n + 1, at + [n])
  {
    hide AsciiAlphanumeric;
    var at' := at + [n];
    assert at'[|at|] == n && forall i :: 0 <= i < |at| ==> at'[i] == at[i];
    forall k: nat | k < n + 1 && k < |s| && AsciiAlphanumeric(s[k]) ensures k in at' {
      if k < n { assert k in at; }
    }
  }

  lemma {:induction false} NoMoreLetter(s: string, n: nat, at: seq<nat>)
    requires n < |s| && LettersBelow(s, n, at) && !AsciiAlphanumeric(s[n])
    ensures LettersBelow(s, n + 1, at)
  {
    hide AsciiAlphanumeric;
  }

  lemma {:induction false} LastLetter(s: string, n: nat, at: seq<nat>)
    requires 0 < n <= |s| && LettersBelow(s, n, at)
    ensures AsciiAlphanumeric(s[n - 1]) ==> at != [] && at[|at| - 1] == n - 1
    ensures !AsciiAlphanumeric(s[n - 1]) && at != [] ==> at[|at| - 1] != n - 1
  {
    hide AsciiAlphanumeric;
    if AsciiAlphanumeric(s[n - 1]) {
      assert n - 1 in at && at[|at| - 1] <= n - 1;
      assert forall i :: 0 <= i < |at| ==> at[i] <= at[|at| - 1];
    }
  }

  lemma {:induction false} LettersStep(s: string, n: nat, at: seq<nat>)
    requires n < |s| && LettersBelow(s, n, at)
    ensures LettersBelow(s, n + 1, if AsciiAlphanumeric(s[n]) then at + [n] else at)
    ensures n > 0 && AsciiAlphanumeric(s[n - 1]) ==> at != [] && at[|at| - 1] == n - 1
    ensures n > 0 && !AsciiAlphanumeric(s[n - 1]) && at != [] ==> at[|at| - 1] != n - 1
  {
    hide AsciiAlphanumeric, LettersBelow;
    if n > 0 { LastLetter(s, n, at); }
    if AsciiAlphanumeric(s[n]) { OneMoreLetter(s, n, at); } else { NoMoreLetter(s, n, at); }
  }

  lemma {:induction false} WordsNext(s: string, n: nat)
    requires n < |s|
    ensures var before, after, c := Words(s, n), Words(s, n + 1), s[n];
            if !AsciiAlphanumeric(c) then after == before
            else
              && after != []
              && (before == [] ==> after == [[Lower(c)]])
              && (before != [] ==>
                    Join(after) == Join(before) + (if n > 0 && AsciiAlphanumeric(s[n - 1]) then "" else "_") + [Lower(c)])
  {
    hide Join, Lower, IsWord;
    var before, c := Words(s, n), s[n];
    if AsciiAlphanumeric(c) && before != [] {
      if n > 0 && AsciiAlphanumeric(s[n - 1]) {
        JoinExtendsLast(before, Lower(c));
        assert Join(before) + "" + [Lower(c)] == Join(before) + [Lower(c)];
      } else {
        JoinAppends(before, [Lower(c)]);
      }
    }
  }

  lemma {:induction false} NoLetters(s: string)
    ensures LettersBelow(s, 0, []) && Words(s, 0) == []
  {
  }

  lemma {:induction false} WordsSpacedOut(s: string, n: nat) returns (at: seq<nat>, pos: seq<nat>)
    requires n <= |s|
    ensures LettersBelow(s, n, at)
    ensures Words(s, n) == [] <==> at == []
    ensures at != [] ==> SpacedOut(Join(Words(s, n)), s, at, pos)
  {
    hide SpacedOut, LettersBelow, Join, Words, Lower, LowerOf, AsciiAlphanumeric;
    at, pos := [], [];
    NoLetters(s);
    if n > 0 {
      at, pos := WordsSpacedOut(s, n - 1);
      var before, c := Words(s, n - 1), s[n - 1];
      LettersStep(s, n - 1, at);
      WordsNext(s, n - 1);
      if AsciiAlphanumeric(c) {
        LowerIs(c);
        if before == [] {
          JoinOne([Lower(c)]);
          FirstLetter(s, n - 1, Lower(c));
          assert at + [n - 1] == [n - 1];
          pos := [0];
        } else {
          var gap := if n > 1 && AsciiAlphanumeric(s[n - 2]) then "" else "_";
          OneLetterMore(Join(before), s, at, pos, n - 1, gap, Lower(c));
          pos := pos + [|Join(before)| + |gap|];
        }
        at := at + [n - 1];
      }
    }
  }

  lemma {:induction false} FirstLetter(s: string, n: nat, low: char)
    requires n < |s| && LowerOf(low, s[n])
    ensures SpacedOut([low], s, [n], [0])
  {
  }

  lemma {:induction false} TrimStartIs(s: string, drop: char -> bool) returns (a: nat)
    ensures a <= |s| && TrimStart(s, drop) == s[a..] && forall k :: 0 <= k < a ==> drop(s[k])
  {
    a := 0;
    if s != "" && drop(s[0]) {
      a := TrimStartIs(s[1..], drop);
      assert s[1..][a..] == s[a + 1..];
      a := a + 1;
    }
  }

  lemma {:induction false} TrimEndIs(s: string, drop: char -> bool) returns (b: nat)
    ensures b <= |s| && TrimEnd(s, drop) == s[..b] && forall k :: b <= k < |s| ==> drop(s[k])
  {
    b := |s|;
    if s != "" && drop(s[|s| - 1]) {
      b := TrimEndIs(s[..|s| - 1], drop);
      assert s[..|s| - 1][..b] == s[..b];
    }
  }

  lemma {:induction false} TrimIs(s: string) returns (a: nat, b: nat)
    ensures a <= b <= |s| && Trim(s, IsSpace) == s[a..b]
    ensures forall k :: 0 <= k < |s| && !(a <= k < b) ==> !AsciiAlphanumeric(s[k])
  {
    hide IsSpace, TrimStart, TrimEnd;
    SpaceIsNoLetter();
    a := TrimStartIs(s, IsSpace);
    var n := TrimEndIs(s[a..], IsSpace);
    b := a + n;
    forall k | b <= k < |s| ensures IsSpace(s[k]) { assert s[a..][k - a] == s[k]; }
    assert s[a..][..n] == s[a..b];
  }

  lemma {:induction false} SpaceIsNoLetter()
    ensures forall c :: IsSpace(c) ==> !AsciiAlphanumeric(c)
  {
  }

  lemma {:induction false} LetterCovered(name: string, a: nat, b: nat, inner: seq<nat>, k: nat)
    requires a <= b <= |name| && LettersBelow(name[a..b], b - a, inner) && a <= k < b && AsciiAlphanumeric(name[k])
    ensures k - a in inner
  {
    hide AsciiAlphanumeric;
    assert name[a..b][k - a] == name[k];
  }

  lemma {:induction false} LetterInside(name: string, a: nat, b: nat, inner: seq<nat>, i: nat)
    requires a <= b <= |name| && LettersBelow(name[a..b], b - a, inner) && i < |inner|
    ensures inner[i] + a < |name| && AsciiAlphanumeric(name[inner[i] + a])
  {
    hide AsciiAlphanumeric;
    assert name[a..b][inner[i]] == name[inner[i] + a];
  }

  function Shift(inner: seq<nat>, a: nat): (at: seq<nat>)
    ensures |at| == |inner| && forall i :: 0 <= i < |at| ==> at[i] == inner[i] + a
  {
    if inner == [] then [] else [inner[0] + a] + Shift(inner[1..], a)
  }

  lemma {:induction false} ShiftHas(inner: seq<nat>, a: nat, x: nat)
    requires x in inner
    ensures x + a in Shift(inner, a)
  {
    var i :| 0 <= i < |inner| && inner[i] == x;
    assert Shift(inner, a)[i] == x + a;
  }

  lemma {:induction false} LettersShifted(name: string, a: nat, b: nat, inner: seq<nat>)
    requires a <= b <= |name| && LettersBelow(name[a..b], b - a, inner)
    requires forall k :: 0 <= k < |name| && !(a <= k < b) ==> !AsciiAlphanumeric(name[k])
    ensures LettersAt(name, Shift(inner, a))
  {
    hide AsciiAlphanumeric, Shift;
    var at := Shift(inner, a);
    forall k: nat | k < |name| && AsciiAlphanumeric(name[k]) ensures k in at {
      LetterCovered(name, a, b, inner, k);
      ShiftHas(inner, a, k - a);
    }
    forall i | 0 <= i < |at| ensures at[i] < |name| && AsciiAlphanumeric(name[at[i]]) {
      LetterInside(name, a, b, inner, i);
    }
  }

  lemma {:induction false} SomeLetter(name: string, at: seq<nat>)
    requires LettersAt(name, at)
    ensures at == [] <==> forall k :: 0 <= k < |name| ==> !AsciiAlphanumeric(name[k])
  {
    hide AsciiAlphanumeric;
    if at != [] { assert AsciiAlphanumeric(name[at[0]]); }
  }

  /** A name is refused exactly when it has no ASCII letter or digit; otherwise its slug is its letters and
      digits in lower case, with one underscore wherever anything else came between two of them. */
  lemma {:induction false} SlugIs(name: string) returns (at: seq<nat>, pos: seq<nat>)
    ensures LettersAt(name, at)
    ensures Slug(name).None? <==> forall k :: 0 <= k < |name| ==> !AsciiAlphanumeric(name[k])
    ensures Slug(name).Some? ==> SpacedOut(Slug(name).value, name, at, pos)
  {
    hide Trim, Words, Join, SpacedOut, LettersAt, LettersBelow, AsciiAlphanumeric;
    var a, b := TrimIs(name);
    var text := name[a..b];
    var inner;
    inner, pos := WordsSpacedOut(text, |text|);
    LettersShifted(name, a, b, inner);
    at := Shift(inner, a);
    SomeLetter(name, at);
    if inner != [] { Shifted(Join(Words(text, |text|)), name, a, b, inner, at, pos); }
  }

  lemma {:induction false} Shifted(r: string, name: string, a: nat, b: nat, inner: seq<nat>, at: seq<nat>, pos: seq<nat>)
    requires a <= b <= |name| && |at| == |inner| && (forall i :: 0 <= i < |at| ==> at[i] == inner[i] + a)
    requires SpacedOut(r, name[a..b], inner, pos)
    ensures SpacedOut(r, name, at, pos)
  {
  }

  // ---------------------------------------------------------------- extensions and numbers

  /** The extension is what follows the last dot, when something precedes it. */
  lemma {:induction false} ExtensionIff(name: string, extension: string)
    ensures Extension(name) == Some(extension)
            <==> exists stem :: stem != "" && name == stem + "." + extension && '.' !in extension
  {
    if Extension(name) == Some(extension) {
      var k := LastDot(name).value;
      assert name == name[..k] + "." + name[k + 1..];
    }
    if exists stem :: stem != "" && name == stem + "." + extension && '.' !in extension {
      var stem :| stem != "" && name == stem + "." + extension && '.' !in extension;
      ExtensionIs(stem, extension);
    }
  }

  /** The number that a row of digits stands for. */
  function Value(digits: string): int {
    if digits == "" then 0
    else 10 * Value(digits[..|digits| - 1]) + (digits[|digits| - 1] as int - '0' as int)
  }

  /** Ids are written in decimal, without leading zeros. */
  lemma {:induction false} DigitsAre(n: nat)
    ensures Value(DecimalDigits(n)) == n && DecimalDigits(n) != ""
    ensures forall k :: 0 <= k < |DecimalDigits(n)| ==> '0' <= DecimalDigits(n)[k] <= '9'
    ensures n > 0 ==> DecimalDigits(n)[0] != '0'
  {
    if n >= 10 { DigitsAre(n / 10); }
  }

  // ---------------------------------------------------------------- SQL policy

  lemma {:induction false} SpaceIff(c: char)
    ensures IsSpace(c) <==>
              c as int in {9, 10, 11, 12, 13, 0x20, 0x85, 0xA0, 0x1680, 0x2000, 0x2001, 0x2002, 0x2003, 0x2004, 0x2005,
                           0x2006, 0x2007, 0x2008, 0x2009, 0x200A, 0x2028, 0x2029, 0x202F, 0x205F, 0x3000}
  {
  }

  /** The upper-case phrase stands at `k`, in whatever case. */
  predicate StandsAt(phrase: string, s: string, k: nat) {
    && k + |phrase| <= |s|
    && forall j :: 0 <= j < |phrase| ==>
         s[k + j] == phrase[j] || ('a' <= s[k + j] <= 'z' && s[k + j] as int == phrase[j] as int + 32)
  }

  lemma {:induction false} UpperAt(s: string)
    ensures forall k :: 0 <= k < |s| ==>
              Upper(s)[k] == if 'a' <= s[k] <= 'z' then (s[k] as int - 32) as char else s[k]
  {
    if s != "" { UpperAt(s[1..]); }
  }

  lemma {:induction false} ContainsIff(s: string, part: string)
    ensures Contains(s, part) <==> exists k :: 0 <= k <= |s| && part <= s[k..]
  {
    assert s[0..] == s;
    if s != "" {
      ContainsIff(s[1..], part);
      assert forall k :: 0 <= k <= |s[1..]| ==> s[1..][k..] == s[k + 1..];
      if exists k :: 0 <= k <= |s| && part <= s[k..] {
        var k :| 0 <= k <= |s| && part <= s[k..];
        if k > 0 { assert part <= s[1..][k - 1..]; }
      }
      if Contains(s[1..], part) {
        var k :| 0 <= k <= |s[1..]| && part <= s[1..][k..];
        assert part <= s[k + 1..];
      }
    }
  }

  predicate UpperCase(phrase: string) {
    forall j :: 0 <= j < |phrase| ==> 'A' <= phrase[j] <= 'Z' || phrase[j] == ' '
  }

  lemma {:induction false} UpperContainsIff(s: string, phrase: string)
    requires UpperCase(phrase)
    ensures Contains(Upper(s), phrase) <==> exists k: nat :: StandsAt(phrase, s, k)
  {
    ContainsIff(Upper(s), phrase);
    UpperAt(s);
    var u := Upper(s);
    forall k: nat | k <= |s| ensures phrase <= u[k..] <==> StandsAt(phrase, s, k) {
      if phrase <= u[k..] {
        forall j | 0 <= j < |phrase| ensures u[k + j] == phrase[j] { assert u[k..][j] == phrase[j]; }
      }
      if StandsAt(phrase, s, k) {
        forall j | 0 <= j < |phrase| ensures u[k..][j] == phrase[j] { assert u[k..][j] == u[k + j]; }
        assert u[k..][..|phrase|] == phrase;
      }
    }
    if exists k: nat :: StandsAt(phrase, s, k) {
      var k: nat :| StandsAt(phrase, s, k);
      assert phrase <= u[k..];
    }
  }

  /** SQL is accepted exactly when it is not blank and none of three clauses occurs in it, in any case. */
  lemma {:induction false} ValidSqlIff(sql: string)
    ensures ValidSql(sql) <==>
              && (exists c :: c in sql && !IsSpace(c))
              && forall phrase, k: nat :: phrase in {"REFERENCES", " ON DELETE CASCADE", " ON UPDATE CASCADE"} ==>
                   !StandsAt(phrase, sql, k)
  {
    hide IsSpace, Contains, Upper, StandsAt, Blank;
    BlankIff(sql);
    UpperContainsIff(sql, "REFERENCES");
    UpperContainsIff(sql, " ON DELETE CASCADE");
    UpperContainsIff(sql, " ON UPDATE CASCADE");
  }

  // ---------------------------------------------------------------- published SQL

  const DROP := "DROP INDEX \""

  const DROP_IF_EXISTS := "DROP INDEX IF EXISTS \""

  /** SQL without such a clause is published as it is. */
  lemma {:induction false} NothingRewritten(sql: string)
    requires forall k :: 0 <= k <= |sql| ==> !(DROP <= sql[k..])
    ensures NormalizeSql(sql) == sql
  {
    if sql != "" {
      assert sql[0..] == sql;
      assert forall k :: 0 <= k <= |sql[1..]| ==> sql[1..][k..] == sql[k + 1..];
      NothingRewritten(sql[1..]);
    }
  }

  lemma {:induction false} OneCharacter(sql: string)
    requires sql != "" && !(DROP <= sql)
    ensures NormalizeSql(sql) == [sql[0]] + NormalizeSql(sql[1..])
  {
  }

  lemma {:induction false} OneClause(after: string)
    ensures NormalizeSql(DROP + after) == DROP_IF_EXISTS + NormalizeSql(after)
  {
    assert (DROP + after)[12..] == after;
  }

  /** The first such clause is made conditional, and so is what follows it. */
  lemma {:induction false} FirstRewritten(before: string, after: string)
    requires forall k :: 0 <= k < |before| ==> !(DROP <= (before + DROP)[k..])
    ensures NormalizeSql(before + DROP + after) == before + DROP_IF_EXISTS + NormalizeSql(after)
  {
    hide NormalizeSql;
    var sql, end := before + DROP + after, DROP_IF_EXISTS + NormalizeSql(after);
    assert before + DROP_IF_EXISTS + NormalizeSql(after) == before + end;
    if before == "" {
      OneClause(after);
      assert sql == DROP + after && before + end == end;
    } else {
      NotHere(before, after);
      var rest := before[1..];
      assert sql[1..] == rest + DROP + after && sql[0] == before[0];
      forall k | 0 <= k < |rest| ensures (rest + DROP)[k..] == (before + DROP)[k + 1..] {}
      FirstRewritten(rest, after);
      OneCharacter(sql);
      assert [before[0]] + (rest + end) == before + end;
      assert rest + DROP_IF_EXISTS + NormalizeSql(after) == rest + end;
    }
  }

  lemma {:induction false} NotHere(before: string, after: string)
    requires before != "" && !(DROP <= (before + DROP)[0..])
    ensures !(DROP <= before + DROP + after)
  {
    assert (before + DROP)[0..] == before + DROP;
    assert (before + DROP + after)[..|before + DROP|] == before + DROP;
  }

  // ---------------------------------------------------------------- published SQL is still accepted

  /** Begins nowhere as a rewritten clause does. */
  predicate Unmixed(tail: string) {
    forall j :: 0 <= j < |tail| && tail[j] == 'D' ==> j + 1 < |tail| && tail[j + 1] != 'R'
  }

  lemma {:induction false} StandsFirst(tail: string, s: string)
    requires tail != "" && s != ""
    ensures StandsAt(tail, s, 0) <==> StandsAt([tail[0]], s, 0) && StandsAt(tail[1..], s[1..], 0)
  {
    if StandsAt(tail, s, 0) {
      assert s[0 + 0] == s[0];
      forall j | 0 <= j < |tail| - 1
        ensures s[1..][0 + j] == tail[1..][j]
                || ('a' <= s[1..][0 + j] <= 'z' && s[1..][0 + j] as int == tail[1..][j] as int + 32)
      {
        assert s[1..][0 + j] == s[0 + (j + 1)];
      }
    }
    if StandsAt([tail[0]], s, 0) && StandsAt(tail[1..], s[1..], 0) {
      forall j | 0 <= j < |tail|
        ensures s[0 + j] == tail[j] || ('a' <= s[0 + j] <= 'z' && s[0 + j] as int == tail[j] as int + 32)
      {
        if j > 0 {
          assert s[0 + j] == s[1..][0 + (j - 1)];
        } else {
          assert [tail[0]][0] == tail[0] && s[0 + 0] == s[0];
        }
      }
    }
  }

  lemma {:induction false} RewrittenStart(tail: string, sql: string)
    requires tail != "" && Unmixed(tail) && DROP <= sql
    ensures !StandsAt(tail, NormalizeSql(sql), 0)
  {
    OneClause(sql[12..]);
    assert DROP + sql[12..] == sql;
    var text := NormalizeSql(sql);
    assert text[0 + 0] == 'D' && text[0 + 1] == 'R';
    if tail[0] == 'D' { assert tail[1] != 'R'; }
  }

  lemma {:induction false} TailStands(tail: string, sql: string)
    requires Unmixed(tail) && StandsAt(tail, NormalizeSql(sql), 0)
    ensures StandsAt(tail, sql, 0)
  {
    hide NormalizeSql;
    if tail != "" {
      NothingIsNothing(sql);
      if DROP <= sql {
        RewrittenStart(tail, sql);
      } else {
        OneCharacter(sql);
        var rest := NormalizeSql(sql[1..]);
        assert ([sql[0]] + rest)[1..] == rest;
        StandsFirst(tail, [sql[0]] + rest);
        assert Unmixed(tail[1..]);
        TailStands(tail[1..], sql[1..]);
        StandsFirst(tail, sql);
        SameFirst([tail[0]], [sql[0]] + rest, sql);
      }
    }
  }

  lemma {:induction false} SameFirst(letter: string, a: string, b: string)
    requires |letter| == 1 && a != "" && b != "" && a[0] == b[0] && StandsAt(letter, a, 0)
    ensures StandsAt(letter, b, 0)
  {
    assert a[0 + 0] == b[0 + 0];
  }

  lemma {:induction false} NothingIsNothing(sql: string)
    ensures NormalizeSql(sql) != "" ==> sql != ""
  {
  }

  /** A phrase with which no part of the inserted words begins. */
  predicate Apart(phrase: string) {
    && Unmixed(phrase) && |phrase| >= 2
    && ((phrase[0] == 'R' && phrase[1] == 'E') || (phrase[0] == ' ' && phrase[1] == 'O'))
  }

  lemma {:induction false} NotInClause(phrase: string, after: string, k: nat)
    requires Apart(phrase)
    ensures StandsAt(phrase, DROP_IF_EXISTS + after, k) ==> k >= |DROP_IF_EXISTS|
  {
    var s := DROP_IF_EXISTS + after;
    assert k < |DROP_IF_EXISTS| ==> s[k + 0] == DROP_IF_EXISTS[k];
    assert k + 1 < |DROP_IF_EXISTS| ==> s[k + 1] == DROP_IF_EXISTS[k + 1];
  }

  lemma {:induction false} StandsLater(phrase: string, before: string, after: string, k: nat)
    ensures StandsAt(phrase, before + after, |before| + k) <==> StandsAt(phrase, after, k)
  {
    var s := before + after;
    forall i: nat | i < |after| ensures s[|before| + i] == after[i] {}
  }

  /** Rewriting brings in no occurrence of such a phrase. */
  lemma {:induction false} StoodBefore(phrase: string, sql: string, k: nat) returns (k': nat)
    requires Apart(phrase) && StandsAt(phrase, NormalizeSql(sql), k)
    ensures StandsAt(phrase, sql, k')
  {
    hide NormalizeSql, StandsAt;
    Occupies(phrase, NormalizeSql(sql), k);
    NothingIsNothing(sql);
    if DROP <= sql {
      var after := sql[12..];
      assert DROP + after == sql;
      OneClause(after);
      NotInClause(phrase, NormalizeSql(after), k);
      StandsLater(phrase, DROP_IF_EXISTS, NormalizeSql(after), k - |DROP_IF_EXISTS|);
      var j := StoodBefore(phrase, after, k - |DROP_IF_EXISTS|);
      StandsLater(phrase, DROP, after, j);
      k' := |DROP| + j;
    } else if k == 0 {
      TailStands(phrase, sql);
      k' := 0;
    } else {
      OneCharacter(sql);
      StandsLater(phrase, [sql[0]], NormalizeSql(sql[1..]), k - 1);
      var j := StoodBefore(phrase, sql[1..], k - 1);
      assert [sql[0]] + sql[1..] == sql;
      StandsLater(phrase, [sql[0]], sql[1..], j);
      k' := 1 + j;
    }
  }

  lemma {:induction false} Occupies(phrase: string, s: string, k: nat)
    requires StandsAt(phrase, s, k) && phrase != ""
    ensures k < |s|
  {
  }

  lemma {:induction false} NotAcrossEnd(phrase: string, s: string, k: nat)
    requires phrase != "" && UpperCase(phrase) && StandsAt(phrase, s + "\n", k)
    ensures StandsAt(phrase, s, k)
  {
    var t, last := s + "\n", |phrase| - 1;
    assert t[k + last] == phrase[last] || 'a' <= t[k + last] <= 'z';
    assert k + last < |s| + 1;
    assert t[|s|] == '\n';
    forall i: nat | i < |s| ensures t[i] == s[i] {}
  }

  lemma {:induction false} PhrasesApart()
    ensures forall phrase :: phrase in {"REFERENCES", " ON DELETE CASCADE", " ON UPDATE CASCADE"} ==>
              Apart(phrase) && UpperCase(phrase)
  {
  }

  lemma {:induction false} StandsNowhereNew(phrase: string, sql: string, k: nat)
    requires Apart(phrase) && UpperCase(phrase) && forall j: nat :: !StandsAt(phrase, sql, j)
    ensures !StandsAt(phrase, NormalizeSql(sql) + "\n", k)
  {
    hide NormalizeSql, StandsAt, UpperCase;
    if StandsAt(phrase, NormalizeSql(sql) + "\n", k) {
      NotAcrossEnd(phrase, NormalizeSql(sql), k);
      var j := StoodBefore(phrase, sql, k);
    }
  }

  /** What the policy admits, it still admits as it is published: no migration that was written is
      refused when it is applied or rolled back. */
  lemma {:induction false} PublishedStaysValid(sql: string)
    requires ValidSql(sql)
    ensures ValidSql(NormalizeSql(sql) + "\n")
  {
    hide ValidSql, NormalizeSql, StandsAt, IsSpace, Apart, UpperCase;
    var text := NormalizeSql(sql) + "\n";
    ValidSqlIff(sql);
    ValidSqlIff(text);
    PhrasesApart();
    forall phrase, k: nat | phrase in {"REFERENCES", " ON DELETE CASCADE", " ON UPDATE CASCADE"}
      ensures !StandsAt(phrase, text, k)
    {
      StandsNowhereNew(phrase, sql, k);
    }
    BlankIff(sql);
    PublishedSqlNotBlank(sql);
    BlankIff(text);
  }
}

/** Names and texts of generated artifacts: slugs, file names, extensions and the SQL policy. */
module MigrationNames {
  import opened Wrappers

  // ---------------------------------------------------------------- slugs

  predicate IsAlphanumeric(c: char) {
    'a' <= c <= 'z' || 'A' <= c <= 'Z' || '0' <= c <= '9'
  }

  predicate IsWord(w: string) {
    w != "" && forall k :: 0 <= k < |w| ==> IsAlphanumeric(w[k])
  }

  function Lower(c: char): char {
    if 'A' <= c <= 'Z' then c - 'A' + 'a' else c
  }

  /** Unicode white space, as trimming uses it. */
  predicate IsSpace(c: char) {
    || '\t' <= c <= '\r' || c == ' ' || c == '\U{85}' || c == '\U{A0}' || c == '\U{1680}'
    || '\U{2000}' <= c <= '\U{200A}' || c == '\U{2028}' || c == '\U{2029}'
    || c == '\U{202F}' || c == '\U{205F}' || c == '\U{3000}'
  }

  function TrimStart(s: string, drop: char -> bool): string {
    if s != "" && drop(s[0]) then TrimStart(s[1..], drop) else s
  }

  function TrimEnd(s: string, drop: char -> bool): string {
    if s != "" && drop(s[|s| - 1]) then TrimEnd(s[..|s| - 1], drop) else s
  }

  function Trim(s: string, drop: char -> bool): string {
    TrimEnd(TrimStart(s, drop), drop)
  }

  /** The maximal alphanumeric runs among the first `n` characters, in lower case. */
  function Words(s: string, n: nat): (r: seq<string>)
    requires n <= |s|
    ensures forall k :: 0 <= k < |r| ==> IsWord(r[k])
    ensures n > 0 && IsAlphanumeric(s[n - 1]) ==> r != []
  {
    if n == 0 then []
    else
      var before := Words(s, n - 1);
      var c := s[n - 1];
      if !IsAlphanumeric(c) then before
      else if n > 1 && IsAlphanumeric(s[n - 2]) then
        before[..|before| - 1] + [before[|before| - 1] + [Lower(c)]]
      else before + [[Lower(c)]]
  }

  function Join(words: seq<string>): (r: string)
  {
    if words == [] then ""
    else if |words| == 1 then words[0]
    else Join(words[..|words| - 1]) + "_" + words[|words| - 1]
  }

  /** The slug of a name: its words, joined by underscores; a name without words is refused. */
  function Slug(name: string): Option<string> {
    var trimmed := Trim(name, IsSpace);
    var words := Words(trimmed, |trimmed|);
    if words == [] then None else Some(Join(words))
  }

  lemma {:induction false} JoinEnds(words: seq<string>)
    requires words != [] && forall k :: 0 <= k < |words| ==> IsWord(words[k])
    ensures Join(words) != ""
    ensures IsAlphanumeric(Join(words)[0]) && IsAlphanumeric(Join(words)[|Join(words)| - 1])
  {
    if |words| > 1 { JoinEnds(words[..|words| - 1]); }
  }

  lemma {:induction false} JoinExtendsLast(words: seq<string>, c: char)
    requires words != []
    ensures Join(words[..|words| - 1] + [words[|words| - 1] + [c]]) == Join(words) + [c]
  {
    var longer := words[..|words| - 1] + [words[|words| - 1] + [c]];
    assert longer[..|longer| - 1] == words[..|words| - 1];
  }

  lemma {:induction false} JoinOne(w: string)
    ensures Join([w]) == w
  {
  }

  lemma {:induction false} JoinAppends(words: seq<string>, w: string)
    requires words != []
    ensures Join(words + [w]) == Join(words) + "_" + w
  {
    assert (words + [w])[..|words|] == words;
  }

  lemma {:induction false} TrimStartAt(s: string, k: nat, drop: char -> bool)
    requires k <= |s| && (forall j :: 0 <= j < k ==> drop(s[j])) && (k < |s| ==> !drop(s[k]))
    ensures TrimStart(s, drop) == s[k..]
  {
    if k > 0 {
      TrimStartAt(s[1..], k - 1, drop);
      assert s[1..][k - 1..] == s[k..];
    }
  }

  lemma {:induction false} TrimEndAt(s: string, k: nat, drop: char -> bool)
    requires k <= |s| && (forall j :: k <= j < |s| ==> drop(s[j])) && (k > 0 ==> !drop(s[k - 1]))
    ensures TrimEnd(s, drop) == s[..k]
  {
    if k < |s| {
      TrimEndAt(s[..|s| - 1], k, drop);
      assert s[..|s| - 1][..k] == s[..k];
    }
  }

  lemma {:induction false} NotUnderscore(c: char)
    requires IsAlphanumeric(c)
    ensures c != '_'
  {
  }

  lemma {:induction false} TrimsUnderscores(lead: string, core: string, tail: string)
    requires core != "" && IsAlphanumeric(core[0]) && IsAlphanumeric(core[|core| - 1])
    requires (lead == "" || lead == "_") && (tail == "" || tail == "_")
    ensures Trim(lead + core + tail, c => c == '_') == core
  {
    hide TrimStart, TrimEnd, IsAlphanumeric;
    NotUnderscore(core[0]);
    NotUnderscore(core[|core| - 1]);
    var drop := c => c == '_';
    var s := lead + core + tail;
    assert s[|lead|] == core[0];
    TrimStartAt(s, |lead|, drop);
    var front := s[|lead|..];
    assert front == core + tail;
    TrimEndAt(front, |core|, drop);
  }

  lemma {:induction false} TrimsToNothing(s: string)
    requires forall k :: 0 <= k < |s| ==> s[k] == '_'
    ensures Trim(s, c => c == '_') == ""
  {
    TrimStartAt(s, |s|, c => c == '_');
  }

  /** What the loop below has pushed after `n` characters. */
  ghost function Pushed(s: string, n: nat): string
    requires n <= |s|
  {
    var words := Words(s, n);
    if n == 0 then ""
    else if words == [] then "_"
    else (if IsAlphanumeric(s[0]) then "" else "_") + Join(words) + if IsAlphanumeric(s[n - 1]) then "" else "_"
  }

  lemma {:induction false} PushedStep(s: string, n: nat)
    requires n < |s|
    ensures var c := s[n];
            Pushed(s, n + 1) ==
              if IsAlphanumeric(c) then Pushed(s, n) + [Lower(c)]
              else if n > 0 && !IsAlphanumeric(s[n - 1]) then Pushed(s, n) else Pushed(s, n) + "_"
  {
    hide IsAlphanumeric, Lower, IsWord, Join;
    var words := Words(s, n);
    assert Join([[Lower(s[n])]]) == [Lower(s[n])] by { JoinOne([Lower(s[n])]); }
    if IsAlphanumeric(s[n]) && words != [] {
      if IsAlphanumeric(s[n - 1]) {
        JoinExtendsLast(words, Lower(s[n]));
      } else {
        JoinAppends(words, [Lower(s[n])]);
      }
    }
    if words == [] {
      NoWords(s, n);
      if IsAlphanumeric(s[n]) { assert Words(s, n + 1) == [[Lower(s[n])]]; }
    }
  }

  lemma {:induction false} NoWords(s: string, n: nat)
    requires n <= |s| && Words(s, n) == []
    ensures forall k :: 0 <= k < n ==> !IsAlphanumeric(s[k])
  {
    if n > 0 { NoWords(s, n - 1); }
  }

  lemma {:induction false} NothingPushed(s: string)
    ensures Pushed(s, 0) == ""
  {
  }

  /** Trimming what has been pushed leaves the joined words. */
  lemma {:induction false} PushedTrims(s: string)
    ensures var words := Words(s, |s|);
            var trimmed := Trim(Pushed(s, |s|), c => c == '_');
            if words == [] then trimmed == "" else trimmed == Join(words) && trimmed != ""
  {
    hide Trim, Join;
    var words := Words(s, |s|);
    if words == [] {
      TrimsToNothing(Pushed(s, |s|));
    } else {
      JoinEnds(words);
      TrimsUnderscores(if IsAlphanumeric(s[0]) then "" else "_", Join(words), if IsAlphanumeric(s[|s| - 1]) then "" else "_");
    }
  }

  method SanitizeName(name: string) returns (r: Option<string>)
    ensures r == Slug(name)
  {
    hide Trim, Words, Join, Pushed;
    var text := Trim(name, IsSpace);
    NothingPushed(text);
    var slug := "";
    var underscore := false;
    for i := 0 to |text|
      invariant slug == Pushed(text, i)
      invariant underscore == (i > 0 && !IsAlphanumeric(text[i - 1]))
    {
      PushedStep(text, i);
      var next := if IsAlphanumeric(text[i]) then Lower(text[i]) else '_';
      if next == '_' {
        if !underscore {
          slug := slug + [next];
        }
        underscore := true;
      } else {
        slug := slug + [next];
        underscore := false;
      }
    }
    PushedTrims(text);
    slug := Trim(slug, c => c == '_');
    r := if slug == "" then None else Some(slug);
  }

  // ---------------------------------------------------------------- file names

  /** The part after the last dot, if something precedes that dot. */
  function Extension(name: string): Option<string> {
    match LastDot(name)
    case None => None
    case Some(k) => if k == 0 then None else Some(name[k + 1..])
  }

  function LastDot(name: string): (r: Option<nat>)
    ensures r.Some? ==> r.value < |name| && name[r.value] == '.' && forall k :: r.value < k < |name| ==> name[k] != '.'
    ensures r.None? ==> '.' !in name
  {
    if name == "" then None
    else if name[|name| - 1] == '.' then Some(|name| - 1)
    else LastDot(name[..|name| - 1])
  }

  lemma {:induction false} ExtensionIs(stem: string, extension: string)
    requires stem != "" && '.' !in extension
    ensures Extension(stem + "." + extension) == Some(extension)
  {
    var name := stem + "." + extension;
    assert name[|stem|] == '.';
    var k := LastDot(name).value;
    assert forall j :: |stem| < j < |name| ==> name[j] == extension[j - |stem| - 1];
    assert name[|stem| + 1..] == extension;
  }

  function DecimalDigits(n: nat): string {
    if n < 10 then [n as char + '0'] else DecimalDigits(n / 10) + [(n % 10) as char + '0']
  }

  // ---------------------------------------------------------------- SQL policy

  predicate Blank(sql: string) {
    Trim(sql, IsSpace) == ""
  }

  function Upper(s: string): (r: string)
    ensures |r| == |s|
  {
    if s == "" then "" else [if 'a' <= s[0] <= 'z' then s[0] - 'a' + 'A' else s[0]] + Upper(s[1..])
  }

  predicate Contains(s: string, part: string) {
    part <= s || (s != "" && Contains(s[1..], part))
  }

  predicate ValidSql(sql: string) {
    && !Blank(sql)
    && !Contains(Upper(sql), "REFERENCES")
    && !Contains(Upper(sql), " ON DELETE CASCADE")
    && !Contains(Upper(sql), " ON UPDATE CASCADE")
  }

  function NormalizeSql(sql: string): string {
    if sql == "" then ""
    else if "DROP INDEX \"" <= sql then "DROP INDEX IF EXISTS \"" + NormalizeSql(sql[12..])
    else [sql[0]] + NormalizeSql(sql[1..])
  }

  lemma {:induction false} BlankIff(s: string)
    ensures Blank(s) <==> forall c :: c in s ==> IsSpace(c)
  {
    hide IsSpace, TrimStart, TrimEnd;
    if forall c :: c in s ==> IsSpace(c) {
      TrimStartAt(s, |s|, IsSpace);
      TrimEndAt("", 0, IsSpace);
    } else {
      var k: nat :| k < |s| && !IsSpace(s[k]);
      var a := FirstInk(s, k);
      TrimStartAt(s, a, IsSpace);
      var front := s[a..];
      var b := LastInk(front, k - a);
      TrimEndAt(front, b + 1, IsSpace);
    }
  }

  lemma {:induction false} FirstInk(s: string, k: nat) returns (a: nat)
    requires k < |s| && !IsSpace(s[k])
    ensures a <= k && !IsSpace(s[a]) && forall j :: 0 <= j < a ==> IsSpace(s[j])
  {
    hide IsSpace;
    a := k;
    if !(forall j :: 0 <= j < k ==> IsSpace(s[j])) {
      var j: nat :| j < k && !IsSpace(s[j]);
      a := FirstInk(s, j);
    }
  }

  lemma {:induction false} LastInk(s: string, k: nat) returns (b: nat)
    requires k < |s| && !IsSpace(s[k])
    ensures k <= b < |s| && !IsSpace(s[b]) && forall j :: b < j < |s| ==> IsSpace(s[j])
    decreases |s| - k
  {
    hide IsSpace;
    b := k;
    if !(forall j :: k < j < |s| ==> IsSpace(s[j])) {
      var j: nat :| k < j < |s| && !IsSpace(s[j]);
      b := LastInk(s, j);
    }
  }

  /** The published text of a migration is not blank. */
  lemma {:induction false} PublishedSqlNotBlank(sql: string)
    requires !Blank(sql)
    ensures !Blank(NormalizeSql(sql) + "\n")
  {
    BlankIff(sql);
    BlankIff(NormalizeSql(sql) + "\n");
    NormalizeKeepsInk(sql);
    var c :| c in NormalizeSql(sql) && !IsSpace(c);
    assert c in NormalizeSql(sql) + "\n";
  }

  lemma {:induction false} NormalizeKeepsInk(sql: string)
    requires exists c :: c in sql && !IsSpace(c)
    ensures exists c :: c in NormalizeSql(sql) && !IsSpace(c)
  {
    if "DROP INDEX \"" <= sql {
      assert NormalizeSql(sql)[0] == 'D' && 'D' in NormalizeSql(sql);
    } else if IsSpace(sql[0]) {
      var c :| c in sql && !IsSpace(c);
      assert sql == [sql[0]] + sql[1..];
      assert c in sql[1..];
      NormalizeKeepsInk(sql[1..]);
      var d :| d in NormalizeSql(sql[1..]) && !IsSpace(d);
      assert d in NormalizeSql(sql);
    } else {
      assert NormalizeSql(sql)[0] == sql[0];
    }
  }
}

/** What each lexical construct looks like, written out without scanning: delimiters and their bodies,
    quoted strings as sequences of units, block comments as balanced markers. The lexer takes exactly
    these for tokens (sections 4.1.2, 4.1.4 and 4.1.5 of the PostgreSQL manual). */
module PostgresConstructs {
  import opened Wrappers
  import opened PostgresLexer
  import Q = Sequences
  import R = PostgresRoundTrip
  import opened PostgresSplitter
  import opened PostgresSplitterLaws

  predicate Letter(c: char) {
    'a' <= c <= 'z' || 'A' <= c <= 'Z' || c == '_' || c as int >= 128
  }

  predicate Digit(c: char) { '0' <= c <= '9' }

  // ---------------------------------------------------------------- dollar quotes

  /** Nothing, or an identifier without dollar signs. */
  predicate IsTag(tag: string) {
    tag == "" || (Letter(tag[0]) && forall k :: 0 < k < |tag| ==> Letter(tag[k]) || Digit(tag[k]))
  }

  function Delimiter(tag: string): string { "$" + tag + "$" }

  /** The part does not occur before the end of `body` when it is put there. */
  ghost predicate EndsFirst(body: string, part: string) {
    forall k :: 0 <= k < |body| ==> !(part <= (body + part)[k..])
  }

  ghost predicate Occurs(part: string, s: string) {
    exists k :: 0 <= k <= |s| && part <= s[k..]
  }

  lemma {:induction false} TagEndAt(s: string, i: nat, k: nat)
    requires i <= k < |s| && s[k] == '$'
    requires forall j :: i <= j < k ==> Letter(s[j]) || Digit(s[j])
    ensures TagEnd(s, i) == Some(k + 1)
    decreases k - i
  {
    if i < k { TagEndAt(s, i + 1, k); }
  }

  lemma {:induction false} TagEndIs(s: string, i: nat)
    requires i <= |s| && TagEnd(s, i).Some?
    ensures forall j :: i <= j < TagEnd(s, i).value - 1 ==> Letter(s[j]) || Digit(s[j])
    decreases |s| - i
  {
    if s[i] != '$' { TagEndIs(s, i + 1); }
  }

  lemma {:induction false} DelimiterFound(s: string, tag: string)
    requires IsTag(tag) && Delimiter(tag) <= s
    ensures DelimiterLen(s) == Some(|tag| + 2)
  {
    var d := Delimiter(tag);
    assert forall j :: 0 <= j < |d| ==> s[j] == d[j];
    assert forall j :: 0 <= j < |tag| ==> d[j + 1] == tag[j];
    if tag != "" {
      assert s[1] == tag[0];
      forall j | 2 <= j < |tag| + 1 ensures Letter(s[j]) || Digit(s[j]) { assert s[j] == tag[j - 1]; }
      TagEndAt(s, 2, |tag| + 1);
    }
  }

  lemma {:induction false} DelimiterHasTag(s: string) returns (tag: string)
    requires s != "" && s[0] == '$' && DelimiterLen(s).Some?
    ensures IsTag(tag) && Delimiter(tag) <= s && DelimiterLen(s) == Some(|tag| + 2)
  {
    var n := DelimiterLen(s).value;
    tag := s[1..n - 1];
    if s[1] != '$' { TagEndIs(s, 2); }
    assert Delimiter(tag) == s[..n];
  }

  lemma {:induction false} DollarLenAt(s: string, d: string, k: nat)
    requires d != "" && k <= |s| && d <= s[k..] && forall j :: 0 <= j < k ==> !(d <= s[j..])
    ensures DollarLen(s, d) == Some(k + |d|)
  {
    if k > 0 {
      assert s[0..] == s && s[1..][k - 1..] == s[k..];
      assert forall j :: 0 <= j < k - 1 ==> s[1..][j..] == s[j + 1..];
      DollarLenAt(s[1..], d, k - 1);
    } else {
      assert s[0..] == s;
    }
  }

  lemma {:induction false} DollarNever(s: string, d: string)
    requires d != "" && !Occurs(d, s)
    ensures DollarLen(s, d) == None
  {
    assert s[0..] == s;
    if s != "" {
      assert forall j :: 0 <= j <= |s[1..]| ==> s[1..][j..] == s[j + 1..];
      DollarNever(s[1..], d);
    }
  }

  lemma {:induction false} DollarBodyLen(body: string, d: string, rest: string)
    requires d != "" && EndsFirst(body, d)
    ensures DollarLen(body + (d + rest), d) == Some(|body| + |d|)
  {
    hide DollarLen;
    var t := body + (d + rest);
    assert t[|body|..] == d + rest;
    forall j | 0 <= j < |body| ensures !(d <= t[j..]) {
      assert (body + d)[j..] == t[j..][..|body| + |d| - j];
    }
    DollarLenAt(t, d, |body|);
  }

  lemma {:induction false} DelimitedNext(back: string, tag: string, t: string)
    requires IsTag(tag)
    ensures NextToken(back, Delimiter(tag) + t)
         == Close(Code, |tag| + 2, DollarLen(t, Delimiter(tag)), OpenDollarQuote(Delimiter(tag)))
  {
    hide TagEnd, DelimiterLen, DollarLen, SingleLen, DoubleLen, LineLen, BlockLen, QuoteUsesBackslash, IsTag;
    var d := Delimiter(tag);
    var s := d + t;
    assert d <= s && s[0] == '$' && s[..|d|] == d && s[|d|..] == t;
    DelimiterFound(s, tag);
  }

  /** A delimiter, a body without it, and the delimiter again are one token, whatever the body holds. */
  lemma {:induction false} DollarQuoted(back: string, tag: string, body: string, rest: string)
    requires IsTag(tag) && EndsFirst(body, Delimiter(tag))
    ensures var d := Delimiter(tag);
            NextToken(back, d + body + d + rest) == Complete(Code, 2 * |d| + |body|)
  {
    hide NextToken, DollarLen, IsTag, EndsFirst;
    var d := Delimiter(tag);
    DollarBodyLen(body, d, rest);
    DelimitedNext(back, tag, body + (d + rest));
    assert d + body + d + rest == d + (body + (d + rest));
  }

  lemma {:induction false} DollarLeftOpen(back: string, tag: string, rest: string)
    requires IsTag(tag) && !Occurs(Delimiter(tag), rest)
    ensures NextToken(back, Delimiter(tag) + rest) == Open(OpenDollarQuote(Delimiter(tag)))
  {
    hide NextToken, DollarLen, IsTag, Occurs;
    DelimitedNext(back, tag, rest);
    DollarNever(rest, Delimiter(tag));
  }

  /** A dollar sign that begins no delimiter opens nothing. */
  lemma {:induction false} DollarAlone(back: string, s: string)
    requires s != "" && s[0] == '$' && forall tag :: IsTag(tag) ==> !(Delimiter(tag) <= s)
    ensures NextToken(back, s) == Complete(Code, 1)
  {
    hide TagEnd, DelimiterLen, DollarLen, SingleLen, DoubleLen, LineLen, BlockLen, QuoteUsesBackslash;
    if DelimiterLen(s).Some? {
      var tag := DelimiterHasTag(s);
      assert false;
    }
  }

  /** So a dollar-quoted function body is never cut. */
  lemma {:induction false} DollarQuotedIsOneStatement(tag: string, body: string)
    requires IsTag(tag) && EndsFirst(body, Delimiter(tag))
    ensures var s := Delimiter(tag) + body + Delimiter(tag); Split(s) == Ok([s])
  {
    hide NextToken, Trim, EndsFirst, IsTag;
    var d := Delimiter(tag);
    var s := d + body + d;
    DollarQuoted([], tag, body, []);
    assert d + body + d + [] == s;
    OneToken(s);
    OneStatementSplits(s);
    assert s[0] == '$' && s[|s| - 1] == '$';
    DollarsStay(s);
  }

  lemma {:induction false} OneToken(s: string)
    requires s != "" && NextToken([], s) == Complete(Code, |s|)
    ensures OneStatement(s)
  {
    hide NextToken;
    LexOne([], s);
    assert s[..|s|] == s && s[|s|..] == [];
    NothingLexed([] + s);
    assert [Token(Code, s)] + [] == [Token(Code, s)];
  }

  lemma {:induction false} DollarsStay(s: string)
    requires s != "" && s[0] == '$' && s[|s| - 1] == '$'
    ensures Trim(s) == s
  {
    hide Trim, SpaceAtStart, SpaceAtEnd;
    R.SpaceAtStartBytes(s);
    R.SpaceAtEndBytes(s);
    NoSpaceInFront(s, SpaceAtStart(s));
    NoSpaceBehind(s, SpaceAtEnd(s));
    NothingToTrim(s);
  }

  lemma {:induction false} SuffixLast(s: string, n: nat)
    requires 0 < n <= |s|
    ensures s[|s| - n..][n - 1] == s[|s| - 1]
  {
  }

  lemma {:induction false} NoSpaceBehind(s: string, n: nat)
    requires n <= |s| && s != "" && s[|s| - 1] == '$' && R.Spaces(s[|s| - n..])
    ensures n == 0
  {
    if n > 0 {
      SuffixLast(s, n);
      assert false;
    }
  }

  lemma {:induction false} NoSpaceInFront(s: string, n: nat)
    requires n <= |s| && s != "" && s[0] == '$' && R.Spaces(s[..n])
    ensures n == 0
  {
  }

  // ---------------------------------------------------------------- quoted strings

  /** One character of the quoted string: itself, the quote doubled, or any after a backslash. */
  predicate IsUnit(u: string, quote: char, escapes: bool) {
    || (|u| == 1 && u[0] != quote && !(escapes && u[0] == '\\'))
    || u == [quote, quote]
    || (escapes && |u| == 2 && u[0] == '\\')
  }

  predicate Units(units: seq<string>, quote: char, escapes: bool) {
    forall k :: 0 <= k < |units| ==> IsUnit(units[k], quote, escapes)
  }

  function Flat(units: seq<string>): string {
    if units == [] then "" else units[0] + Flat(units[1..])
  }

  /** `s` begins with a quoted string of these units, and `rest` is what follows. */
  predicate IsQuoted(s: string, quote: char, escapes: bool, units: seq<string>, rest: string) {
    && s == [quote] + (Flat(units) + ([quote] + rest)) && Units(units, quote, escapes)
    && (rest == "" || rest[0] != quote)
  }

  lemma {:induction false} MoreUnits(u: string, more: seq<string>, quote: char, escapes: bool)
    requires IsUnit(u, quote, escapes) && Units(more, quote, escapes)
    ensures Units([u] + more, quote, escapes)
  {
    hide IsUnit;
  }

  lemma {:induction false} NoUnits(quote: char, escapes: bool)
    ensures Units([], quote, escapes) && Flat([]) == ""
  {
  }

  lemma {:induction false} AddsUnit(s: string, size: nat, more: seq<string>, quote: char, n: nat)
    requires 0 < size <= n <= |s| && s[size..] == Flat(more) + ([quote] + s[size..][n - size..])
    ensures var units := [s[..size]] + more;
            s == Flat(units) + ([quote] + s[n..]) && |Flat(units)| == size + |Flat(more)|
  {
    var units := [s[..size]] + more;
    assert units[1..] == more && s == s[..size] + s[size..] && s[size..][n - size..] == s[n..];
  }

  lemma {:induction false} SingleOneUnit(u: string, tail: string, escapes: bool)
    requires IsUnit(u, '\'', escapes)
    ensures SingleLen(u + tail, escapes) == Plus(|u|, SingleLen(tail, escapes))
  {
    var s := u + tail;
    assert s[|u|..] == tail && s[0] == u[0] && (|u| == 2 ==> s[1] == u[1]);
  }

  lemma {:induction false} SingleCloses(rest: string, escapes: bool)
    requires rest == "" || rest[0] != '\''
    ensures SingleLen(['\''] + rest, escapes) == Some(1)
  {
  }

  lemma {:induction false} SingleUnits(units: seq<string>, escapes: bool, rest: string)
    requires Units(units, '\'', escapes) && (rest == "" || rest[0] != '\'')
    ensures SingleLen(Flat(units) + (['\''] + rest), escapes) == Some(|Flat(units)| + 1)
  {
    hide SingleLen, IsUnit;
    var end := ['\''] + rest;
    if units == [] {
      SingleCloses(rest, escapes);
      assert "" + end == end;
    } else {
      SingleUnits(units[1..], escapes, rest);
      SingleOneUnit(units[0], Flat(units[1..]) + end, escapes);
      assert Flat(units) + end == units[0] + (Flat(units[1..]) + end);
    }
  }

  lemma {:induction false} SingleFirstUnit(s: string, escapes: bool) returns (size: nat)
    requires SingleLen(s, escapes).Some?
    ensures size <= |s|
    ensures size == 0 ==> s[0] == '\'' && (|s| == 1 || s[1] != '\'') && SingleLen(s, escapes) == Some(1)
    ensures size > 0 ==> && IsUnit(s[..size], '\'', escapes)
                         && SingleLen(s, escapes) == Plus(size, SingleLen(s[size..], escapes))
  {
    size := if (escapes && s[0] == '\\') || (s[0] == '\'' && |s| > 1 && s[1] == '\'') then 2 else if s[0] == '\'' then 0 else 1;
  }

  lemma {:induction false} SingleHasUnits(s: string, escapes: bool) returns (units: seq<string>)
    requires SingleLen(s, escapes).Some?
    ensures var n := SingleLen(s, escapes).value;
            && Units(units, '\'', escapes) && s == Flat(units) + (['\''] + s[n..]) && |Flat(units)| + 1 == n
            && (s[n..] == "" || s[n] != '\'')
    decreases |s|
  {
    hide SingleLen, IsUnit, Units, Flat;
    var n := SingleLen(s, escapes).value;
    var size := SingleFirstUnit(s, escapes);
    if size == 0 {
      units := [];
      NoUnits('\'', escapes);
      assert s == "" + (['\''] + s[1..]);
    } else {
      var more := SingleHasUnits(s[size..], escapes);
      units := [s[..size]] + more;
      MoreUnits(s[..size], more, '\'', escapes);
      AddsUnit(s, size, more, '\'', n);
    }
  }

  lemma {:induction false} DoubleOneUnit(u: string, tail: string)
    requires IsUnit(u, '"', false)
    ensures DoubleLen(u + tail) == Plus(|u|, DoubleLen(tail))
  {
    var s := u + tail;
    assert s[|u|..] == tail && s[0] == u[0] && (|u| == 2 ==> s[1] == u[1]);
  }

  lemma {:induction false} DoubleCloses(rest: string)
    requires rest == "" || rest[0] != '"'
    ensures DoubleLen(['"'] + rest) == Some(1)
  {
  }

  lemma {:induction false} DoubleUnits(units: seq<string>, rest: string)
    requires Units(units, '"', false) && (rest == "" || rest[0] != '"')
    ensures DoubleLen(Flat(units) + (['"'] + rest)) == Some(|Flat(units)| + 1)
  {
    hide DoubleLen, IsUnit;
    var end := ['"'] + rest;
    if units == [] {
      DoubleCloses(rest);
      assert "" + end == end;
    } else {
      DoubleUnits(units[1..], rest);
      DoubleOneUnit(units[0], Flat(units[1..]) + end);
      assert Flat(units) + end == units[0] + (Flat(units[1..]) + end);
    }
  }

  lemma {:induction false} DoubleFirstUnit(s: string) returns (size: nat)
    requires DoubleLen(s).Some?
    ensures size <= |s|
    ensures size == 0 ==> s[0] == '"' && (|s| == 1 || s[1] != '"') && DoubleLen(s) == Some(1)
    ensures size > 0 ==> && IsUnit(s[..size], '"', false)
                         && DoubleLen(s) == Plus(size, DoubleLen(s[size..]))
  {
    size := if s[0] == '"' && |s| > 1 && s[1] == '"' then 2 else if s[0] == '"' then 0 else 1;
  }

  lemma {:induction false} DoubleHasUnits(s: string) returns (units: seq<string>)
    requires DoubleLen(s).Some?
    ensures var n := DoubleLen(s).value;
            && Units(units, '"', false) && s == Flat(units) + (['"'] + s[n..]) && |Flat(units)| + 1 == n
            && (s[n..] == "" || s[n] != '"')
    decreases |s|
  {
    hide DoubleLen, IsUnit, Units, Flat;
    var n := DoubleLen(s).value;
    var size := DoubleFirstUnit(s);
    if size == 0 {
      units := [];
      NoUnits('"', false);
      assert s == "" + (['"'] + s[1..]);
    } else {
      var more := DoubleHasUnits(s[size..]);
      units := [s[..size]] + more;
      MoreUnits(s[..size], more, '"', false);
      AddsUnit(s, size, more, '"', n);
    }
  }

  /** A prefix that makes the next string an escape string stands at the end, and is no part of a longer
      word. */
  ghost predicate EscapePrefix(back: string) {
    exists before, prefix :: HasEscapePrefix(back, before, prefix)
  }

  ghost predicate HasEscapePrefix(back: string, before: string, prefix: string) {
    && back == before + prefix && prefix in {"e", "E", "u&", "U&"}
    && (before == "" || !(Letter(before[|before| - 1]) || Digit(before[|before| - 1]) || before[|before| - 1] == '$'))
  }

  lemma {:induction false} EscapePrefixIff(back: string)
    ensures QuoteUsesBackslash(back) <==> EscapePrefix(back)
  {
    var n := |back|;
    if QuoteUsesBackslash(back) {
      var k := if back[n - 1] == '&' then 2 else 1;
      assert back == back[..n - k] + back[n - k..];
      assert back[n - k..] == if k == 1 then [back[n - 1]] else [back[n - 2], back[n - 1]];
      assert HasEscapePrefix(back, back[..n - k], back[n - k..]);
    }
    if EscapePrefix(back) {
      var before, prefix :| HasEscapePrefix(back, before, prefix);
      assert forall j :: 0 <= j < |prefix| ==> back[|before| + j] == prefix[j];
      assert before != "" ==> back[|before| - 1] == before[|before| - 1];
    }
  }

  /** A single quote begins a token that is a quoted string, with backslash escapes exactly after such a
      prefix; it is left open exactly when no quoted string begins there. */
  lemma {:induction false} SingleQuoted(back: string, s: string)
    requires s != "" && s[0] == '\''
    ensures forall units, rest :: IsQuoted(s, '\'', EscapePrefix(back), units, rest) ==>
              NextToken(back, s) == Complete(Code, |Flat(units)| + 2)
    ensures (forall units, rest :: !IsQuoted(s, '\'', EscapePrefix(back), units, rest)) ==>
              NextToken(back, s) == Open(OpenSingleQuote)
  {
    hide SingleLen, QuoteUsesBackslash, EscapePrefix, Units;
    EscapePrefixIff(back);
    var escapes := EscapePrefix(back);
    forall units, rest | IsQuoted(s, '\'', escapes, units, rest)
      ensures SingleLen(s[1..], escapes) == Some(|Flat(units)| + 1)
    {
      assert s[1..] == Flat(units) + (['\''] + rest);
      SingleUnits(units, escapes, rest);
    }
    if SingleLen(s[1..], escapes).Some? {
      var units := SingleHasUnits(s[1..], escapes);
      assert s == ['\''] + s[1..];
      assert IsQuoted(s, '\'', escapes, units, s[1..][SingleLen(s[1..], escapes).value..]);
    }
  }

  /** A double quote begins a quoted identifier, in which only the quote itself is doubled. */
  lemma {:induction false} DoubleQuoted(back: string, s: string)
    requires s != "" && s[0] == '"'
    ensures forall units, rest :: IsQuoted(s, '"', false, units, rest) ==>
              NextToken(back, s) == Complete(Code, |Flat(units)| + 2)
    ensures (forall units, rest :: !IsQuoted(s, '"', false, units, rest)) ==>
              NextToken(back, s) == Open(OpenDoubleQuote)
  {
    hide DoubleLen, Units;
    forall units, rest | IsQuoted(s, '"', false, units, rest)
      ensures DoubleLen(s[1..]) == Some(|Flat(units)| + 1)
    {
      assert s[1..] == Flat(units) + (['"'] + rest);
      DoubleUnits(units, rest);
    }
    if DoubleLen(s[1..]).Some? {
      var units := DoubleHasUnits(s[1..]);
      assert s == ['"'] + s[1..];
      assert IsQuoted(s, '"', false, units, s[1..][DoubleLen(s[1..]).value..]);
    }
  }

  // ---------------------------------------------------------------- comments

  /** A line comment goes on to the end of its line, which it includes. */
  lemma {:induction false} LineCommented(back: string, body: string, rest: string)
    requires forall k :: 0 <= k < |body| ==> body[k] != '\n' && body[k] != '\r'
    requires rest == "" || rest[0] == '\n' || rest[0] == '\r'
    ensures NextToken(back, "--" + body + rest) == Complete(Comment, |body| + if rest == "" then 2 else 3)
  {
    hide QuoteUsesBackslash, SingleLen, DoubleLen, DollarLen, BlockLen;
    var s := "--" + body + rest;
    LineLenIs(body, rest);
    assert "--" <= s && s[2..] == body + rest;
  }

  lemma {:induction false} LineLenIs(body: string, rest: string)
    requires forall k :: 0 <= k < |body| ==> body[k] != '\n' && body[k] != '\r'
    requires rest == "" || rest[0] == '\n' || rest[0] == '\r'
    ensures LineLen(body + rest) == |body| + if rest == "" then 0 else 1
  {
    if body == "" {
      assert body + rest == rest;
    } else {
      assert (body + rest)[1..] == body[1..] + rest;
      LineLenIs(body[1..], rest);
    }
  }

  /** Reading left to right, a mark that opens or closes a comment is read as one. */
  predicate IsMark(u: string) { u == "/*" || u == "*/" }

  predicate Greedy(units: seq<string>, rest: string) {
    forall k :: 0 <= k < |units| ==>
      || IsMark(units[k])
      || (|units[k]| == 1 && !("/*" <= Flat(units[k..]) + rest) && !("*/" <= Flat(units[k..]) + rest))
  }

  function Turn(u: string): int { if u == "/*" then 1 else if u == "*/" then -1 else 0 }

  /** How many more comments the units open than they close. */
  function Balance(units: seq<string>): int {
    if units == [] then 0 else Turn(units[0]) + Balance(units[1..])
  }

  /** With `depth` comments open, the units close the last of them at their end, and not before. */
  predicate Closes(units: seq<string>, depth: nat) {
    && depth + Balance(units) == 0
    && forall k :: 0 <= k < |units| ==> depth + Balance(units[..k]) > 0
  }

  /** `s` begins with these units. */
  predicate IsBlock(s: string, depth: nat, units: seq<string>, rest: string) {
    s == Flat(units) + rest && Greedy(units, rest) && Closes(units, depth)
  }

  lemma {:induction false} FlatCons(u: string, more: seq<string>)
    ensures Flat([u] + more) == u + Flat(more) && ([u] + more)[1..] == more
  {
    assert ([u] + more)[1..] == more;
  }

  predicate ReadsFirst(u: string, tail: string) {
    IsMark(u) || (|u| == 1 && !("/*" <= u + tail) && !("*/" <= u + tail))
  }

  lemma {:induction false} GreedyCons(u: string, more: seq<string>, rest: string)
    ensures Greedy([u] + more, rest) <==> ReadsFirst(u, Flat(more) + rest) && Greedy(more, rest)
  {
    hide Flat, IsMark;
    var units := [u] + more;
    FlatCons(u, more);
    assert units[0..] == units && Flat(units) + rest == u + (Flat(more) + rest);
    forall k | 0 <= k < |more| ensures units[k + 1..] == more[k..] && units[k + 1] == more[k] {}
    if ReadsFirst(u, Flat(more) + rest) && Greedy(more, rest) {
      forall k | 0 <= k < |units|
        ensures IsMark(units[k])
                || (|units[k]| == 1 && !("/*" <= Flat(units[k..]) + rest) && !("*/" <= Flat(units[k..]) + rest))
      {
        if k > 0 { assert units[k..] == more[k - 1..] && units[k] == more[k - 1]; }
      }
    }
    if Greedy(units, rest) {
      assert units[0] == u;
      forall k | 0 <= k < |more|
        ensures IsMark(more[k])
                || (|more[k]| == 1 && !("/*" <= Flat(more[k..]) + rest) && !("*/" <= Flat(more[k..]) + rest))
      {
        assert units[k + 1..] == more[k..] && units[k + 1] == more[k];
      }
    }
  }

  lemma {:induction false} BalanceCons(u: string, more: seq<string>, k: nat)
    requires k <= |more|
    ensures Balance(([u] + more)[..k + 1]) == Turn(u) + Balance(more[..k])
  {
    assert ([u] + more)[..k + 1] == [u] + more[..k] && ([u] + more[..k])[1..] == more[..k];
  }

  lemma {:induction false} ClosesCons(u: string, more: seq<string>, depth: nat)
    requires depth > 0 && depth + Turn(u) >= 0
    ensures if depth + Turn(u) == 0 then Closes([u] + more, depth) <==> more == []
            else Closes([u] + more, depth) <==> Closes(more, depth + Turn(u))
  {
    hide Turn;
    var units := [u] + more;
    BalanceCons(u, more, |more|);
    assert units[..|more| + 1] == units && more[..|more|] == more && units[..0] == [] && more[..0] == [];
    assert Balance([]) == 0;
    forall k | 0 <= k < |more| ensures Balance(units[..k + 1]) == Turn(u) + Balance(more[..k]) { BalanceCons(u, more, k); }
    if depth + Turn(u) > 0 && Closes(more, depth + Turn(u)) {
      forall k | 0 <= k < |units| ensures depth + Balance(units[..k]) > 0 {
        if k > 0 { assert Balance(units[..k - 1 + 1]) == Turn(u) + Balance(more[..k - 1]); }
      }
    }
    if Closes(units, depth) && more != [] { assert depth + Balance(units[..0 + 1]) > 0; }
  }

  lemma {:induction false} BlockStep(u: string, tail: string, depth: nat)
    requires depth > 0 && ReadsFirst(u, tail)
    ensures depth + Turn(u) >= 0
    ensures BlockLen(u + tail, depth)
         == if depth + Turn(u) == 0 then Some(|u|) else Plus(|u|, BlockLen(tail, depth + Turn(u)))
  {
    var s := u + tail;
    assert s[|u|..] == tail && (IsMark(u) ==> u <= s);
  }

  lemma {:induction false} BlockUnits(depth: nat, units: seq<string>, rest: string)
    requires depth > 0 && Greedy(units, rest) && Closes(units, depth)
    ensures BlockLen(Flat(units) + rest, depth) == Some(|Flat(units)|)
    decreases |units|
  {
    hide BlockLen, Turn, Greedy, Closes, ReadsFirst, Flat;
    NothingClosed(depth);
    var u, more := units[0], units[1..];
    assert units == [u] + more;
    FlatCons(u, more);
    GreedyCons(u, more, rest);
    BlockStep(u, Flat(more) + rest, depth);
    ClosesCons(u, more, depth);
    assert Flat(units) + rest == u + (Flat(more) + rest);
    if depth + Turn(u) > 0 {
      BlockUnits(depth + Turn(u), more, rest);
    } else {
      NoUnits('"', false);
    }
  }

  lemma {:induction false} NothingClosed(depth: nat)
    requires depth > 0
    ensures !Closes([], depth)
  {
  }

  lemma {:induction false} BlockFirstUnit(s: string, depth: nat) returns (size: nat)
    requires depth > 0 && BlockLen(s, depth).Some?
    ensures 0 < size <= |s| && ReadsFirst(s[..size], s[size..])
  {
    size := if "/*" <= s || "*/" <= s then 2 else 1;
    assert s[..size] + s[size..] == s;
    assert "/*" <= s ==> s[..2] == "/*";
    assert "*/" <= s ==> s[..2] == "*/";
  }

  lemma {:induction false} AddsBlockUnit(u: string, tail: string, depth: nat, more: seq<string>, rest: string)
    requires depth > 0 && depth + Turn(u) >= 0 && ReadsFirst(u, tail) && tail == Flat(more) + rest && Greedy(more, rest)
    requires if depth + Turn(u) == 0 then more == [] else Closes(more, depth + Turn(u))
    ensures IsBlock(u + tail, depth, [u] + more, rest)
  {
    hide Turn, Greedy, Closes, ReadsFirst, Flat;
    FlatCons(u, more);
    GreedyCons(u, more, rest);
    ClosesCons(u, more, depth);
    assert u + tail == Flat([u] + more) + rest;
  }

  lemma {:induction false} BlockHasUnits(s: string, depth: nat) returns (units: seq<string>, rest: string)
    requires depth > 0 && BlockLen(s, depth).Some?
    ensures IsBlock(s, depth, units, rest)
    decreases |s|
  {
    hide BlockLen, Turn, Greedy, Closes, ReadsFirst, Flat;
    var size := BlockFirstUnit(s, depth);
    var u, tail := s[..size], s[size..];
    assert s == u + tail;
    BlockStep(u, tail, depth);
    if depth + Turn(u) > 0 {
      var more;
      more, rest := BlockHasUnits(tail, depth + Turn(u));
      AddsBlockUnit(u, tail, depth, more, rest);
      units := [u] + more;
    } else {
      NoUnits('"', false);
      NothingGreedy(tail);
      assert tail == "" + tail;
      AddsBlockUnit(u, tail, depth, [], tail);
      units, rest := [u] + [], tail;
    }
  }

  lemma {:induction false} NothingGreedy(rest: string)
    ensures Greedy([], rest)
  {
  }

  /** A block comment is a token when its marks are balanced, and left open when they never are. */
  lemma {:induction false} BlockCommented(back: string, s: string)
    requires "/*" <= s
    ensures forall units, rest :: IsBlock(s[2..], 1, units, rest) ==>
              NextToken(back, s) == Complete(Comment, |Flat(units)| + 2)
    ensures (forall units, rest :: !IsBlock(s[2..], 1, units, rest)) ==> NextToken(back, s) == Open(OpenBlockComment)
  {
    hide BlockLen, Greedy, Closes, QuoteUsesBackslash, SingleLen, DoubleLen, DollarLen, LineLen;
    assert s[0] == '/' && !("--" <= s);
    forall units, rest | IsBlock(s[2..], 1, units, rest) ensures BlockLen(s[2..], 1) == Some(|Flat(units)|) {
      BlockUnits(1, units, rest);
    }
    if BlockLen(s[2..], 1).Some? {
      var units, rest := BlockHasUnits(s[2..], 1);
    }
  }

  // ---------------------------------------------------------------- single bytes

  /** Everything else is one byte: a separator, ASCII white space, or code. */
  lemma {:induction false} SingleByte(back: string, s: string)
    requires s != "" && !("--" <= s) && !("/*" <= s) && s[0] !in {'\'', '"', '$'}
    ensures NextToken(back, s)
         == Complete(if s[0] == ';' then Semicolon
                     else if s[0] in {' ', '\t', '\n', '\r', '\U{000C}'} then Blank else Code, 1)
  {
  }

  // ---------------------------------------------------------------- what is emitted

  /** The code points with the White_Space property of Unicode. */
  predicate WhiteSpace(c: nat) {
    || 0x9 <= c <= 0xD || c == 0x20 || c == 0x85 || c == 0xA0 || c == 0x1680 || 0x2000 <= c <= 0x200A
    || c == 0x2028 || c == 0x2029 || c == 0x202F || c == 0x205F || c == 0x3000
  }

  /** The UTF-8 form of a code point of the basic plane (section 3 of RFC 3629). */
  function Utf8(c: nat): string
    requires c < 0x1_0000
  {
    if c < 0x80 then [c as char]
    else if c < 0x800 then [(0xC0 + c / 0x40) as char, (0x80 + c % 0x40) as char]
    else [(0xE0 + c / 0x1000) as char, (0x80 + c / 0x40 % 0x40) as char, (0x80 + c % 0x40) as char]
  }

  /** A text begins with white space exactly when it begins with the form of such a code point. */
  lemma {:induction false} SpaceIsWhiteSpace(c: nat, rest: string)
    requires c < 0x1_0000
    ensures WhiteSpace(c) ==> SpaceAtStart(Utf8(c) + rest) == |Utf8(c)|
    ensures !WhiteSpace(c) ==> SpaceAtStart(Utf8(c) + rest) == 0
  {
    var s := Utf8(c) + rest;
    assert forall k :: 0 <= k < |Utf8(c)| ==> s[k] == Utf8(c)[k];
    if c >= 0x800 { ThreeBytes(c); }
  }

  lemma {:induction false} ThreeBytes(c: nat)
    requires 0x800 <= c < 0x1_0000
    ensures var a, b, d := 0xE0 + c / 0x1000, 0x80 + c / 0x40 % 0x40, 0x80 + c % 0x40;
            IsWideSpace(a, b, d) <==> WhiteSpace(c)
  {
    var high, middle, low := c / 0x1000, c / 0x40 % 0x40, c % 0x40;
    assert c == c / 0x40 * 0x40 + low && c / 0x40 == c / 0x40 / 0x40 * 0x40 + middle && c / 0x40 / 0x40 == high;
    assert c == high * 0x1000 + middle * 0x40 + low;
  }

  lemma {:induction false} SpaceHasCodePoint(s: string) returns (c: nat)
    requires SpaceAtStart(s) > 0
    ensures c < 0x1_0000 && WhiteSpace(c) && s[..SpaceAtStart(s)] == Utf8(c)
  {
    if SpaceAtStart(s) == 1 {
      c := s[0] as nat;
    } else if SpaceAtStart(s) == 2 {
      c := s[1] as nat;
    } else {
      c := (s[0] as nat - 0xE0) * 0x1000 + (s[1] as nat - 0x80) * 0x40 + (s[2] as nat - 0x80);
    }
  }

  /** White space only. */
  ghost predicate SpacesOf(w: string, chars: seq<nat>)
    decreases |chars|
  {
    if chars == [] then w == ""
    else
      && chars[0] < 0x1_0000 && WhiteSpace(chars[0]) && Utf8(chars[0]) <= w
      && SpacesOf(w[|Utf8(chars[0])|..], chars[1..])
  }

  lemma {:induction false} BlankMore(c: nat, w: string, chars: seq<nat>)
    requires c < 0x1_0000 && WhiteSpace(c) && SpacesOf(w, chars)
    ensures SpacesOf(Utf8(c) + w, [c] + chars)
  {
    hide WhiteSpace, Utf8;
    assert ([c] + chars)[1..] == chars && (Utf8(c) + w)[|Utf8(c)|..] == w;
  }

  lemma {:induction false} BlankThen(w: string, chars: seq<nat>, c: nat)
    requires c < 0x1_0000 && WhiteSpace(c) && SpacesOf(w, chars)
    ensures SpacesOf(w + Utf8(c), chars + [c])
  {
    hide WhiteSpace, Utf8;
    if chars == [] {
      BlankMore(c, "", []);
      assert "" + Utf8(c) == Utf8(c) + "" && [] + [c] == [c] + [];
    } else {
      var n := |Utf8(chars[0])|;
      BlankThen(w[n..], chars[1..], c);
      assert (w + Utf8(c))[n..] == w[n..] + Utf8(c) && (chars + [c])[1..] == chars[1..] + [c];
    }
  }

  lemma {:induction false} NoSpacesOf()
    ensures SpacesOf("", [])
  {
  }

  lemma {:induction false} StartTrimmed(s: string) returns (w: string, chars: seq<nat>)
    ensures s == w + TrimStart(s) && SpacesOf(w, chars)
    decreases |s|
  {
    hide SpaceAtStart, WhiteSpace, Utf8, TrimStart, SpacesOf;
    TrimStartOne(s);
    NoSpacesOf();
    w, chars := "", [];
    var n := SpaceAtStart(s);
    if n > 0 {
      var c := SpaceHasCodePoint(s);
      w, chars := StartTrimmed(s[n..]);
      BlankMore(c, w, chars);
      w, chars := s[..n] + w, [c] + chars;
      assert s == s[..n] + s[n..];
    }
  }

  lemma {:induction false} TrimStartOne(s: string)
    ensures TrimStart(s) == if SpaceAtStart(s) == 0 then s else TrimStart(s[SpaceAtStart(s)..])
  {
    hide SpaceAtStart;
  }

  lemma {:induction false} TrimEndOne(s: string)
    ensures TrimEnd(s) == if SpaceAtEnd(s) == 0 then s else TrimEnd(s[..|s| - SpaceAtEnd(s)])
  {
    hide SpaceAtEnd;
  }

  lemma {:induction false} SpaceAtEndIs(s: string)
    requires SpaceAtEnd(s) > 0
    ensures SpaceAtStart(s[|s| - SpaceAtEnd(s)..]) == SpaceAtEnd(s)
  {
    hide SpaceAtStart;
  }

  lemma {:induction false} EndTrimmed(s: string) returns (w: string, chars: seq<nat>)
    ensures s == TrimEnd(s) + w && SpacesOf(w, chars)
    decreases |s|
  {
    hide SpaceAtStart, SpaceAtEnd, WhiteSpace, Utf8, TrimEnd, SpacesOf;
    TrimEndOne(s);
    NoSpacesOf();
    w, chars := "", [];
    if SpaceAtEnd(s) > 0 {
      var n := |s| - SpaceAtEnd(s);
      SpaceAtEndIs(s);
      var c := SpaceHasCodePoint(s[n..]);
      w, chars := EndTrimmed(s[..n]);
      BlankThen(w, chars, c);
      w, chars := w + s[n..], chars + [c];
      assert s == s[..n] + s[n..] && s[n..][..|s[n..]|] == s[n..];
    }
  }

  /** Trimming takes white space off both ends, and all of it. */
  lemma {:induction false} TrimsWhiteSpace(s: string)
    returns (before: string, after: string, front: seq<nat>, back: seq<nat>)
    ensures s == before + Trim(s) + after && SpacesOf(before, front) && SpacesOf(after, back)
    ensures forall c: nat :: c < 0x1_0000 && WhiteSpace(c) ==> !(Utf8(c) <= Trim(s))
    ensures forall c: nat, t: string :: c < 0x1_0000 && WhiteSpace(c) ==> Trim(s) != t + Utf8(c)
  {
    hide SpaceAtStart, SpaceAtEnd, WhiteSpace, Utf8, TrimStart, TrimEnd;
    before, front := StartTrimmed(s);
    after, back := EndTrimmed(TrimStart(s));
    var r := Trim(s);
    TrimStartDone(s);
    TrimEndDone(TrimStart(s));
    SpacePrefix(r, TrimStart(s)[|r|..]);
    assert TrimStart(s) == r + TrimStart(s)[|r|..];
    forall c: nat | c < 0x1_0000 && WhiteSpace(c) ensures !(Utf8(c) <= r) {
      if Utf8(c) <= r { BeginsWithSpace(c, r); }
    }
    forall c: nat, t: string | c < 0x1_0000 && WhiteSpace(c) ensures r != t + Utf8(c) {
      EndsWithSpace(t, c);
    }
  }

  lemma {:induction false} BeginsWithSpace(c: nat, s: string)
    requires c < 0x1_0000 && WhiteSpace(c) && Utf8(c) <= s
    ensures SpaceAtStart(s) > 0
  {
    hide SpaceAtStart, WhiteSpace;
    SpaceIsWhiteSpace(c, s[|Utf8(c)|..]);
    assert s == Utf8(c) + s[|Utf8(c)|..];
  }

  lemma {:induction false} EndsWithSpace(t: string, c: nat)
    requires c < 0x1_0000 && WhiteSpace(c)
    ensures SpaceAtEnd(t + Utf8(c)) > 0
  {
    hide SpaceAtStart, WhiteSpace;
    var s := t + Utf8(c);
    SpaceIsWhiteSpace(c, "");
    assert Utf8(c) + "" == Utf8(c) == s[|s| - |Utf8(c)|..];
  }

  predicate HoldsCode(segment: seq<Token>) {
    exists k :: 0 <= k < |segment| && segment[k].kind.Code?
  }

  /** The statements are the trimmed texts of the segments with code, in order, and nothing else. */
  lemma {:induction false} StatementsPick(segments: seq<seq<Token>>) returns (kept: seq<seq<Token>>, at: seq<nat>)
    ensures Q.Picks(kept, segments, segment => HoldsCode(segment), at)
    ensures |Statements(segments)| == |kept|
    ensures forall i :: 0 <= i < |kept| ==> Statements(segments)[i] == Trim(Text(kept[i]))
  {
    hide HoldsCode, Trim, Text;
    if segments == [] {
      kept, at := [], [];
    } else {
      var init, last := segments[..|segments| - 1], segments[|segments| - 1];
      assert segments == init + [last];
      kept, at := StatementsPick(init);
      StatementsPush(segments);
      CodeHeld(last);
      Q.PicksMore(kept, init, segment => HoldsCode(segment), at, last);
      if HoldsCode(last) { kept, at := kept + [last], at + [|init|]; }
    }
  }

  lemma {:induction false} CodeHeld(segment: seq<Token>)
    ensures HoldsCode(segment) <==> HasCode(segment)
  {
    HasCodeIff(segment);
    if HasCode(segment) {
      var token :| token in segment && token.kind.Code?;
      var k :| 0 <= k < |segment| && segment[k] == token;
    }
  }
}

/** Reading the labels of a MySQL `enum(...)` column type. */
module MySqlEnum {
  import opened Wrappers

  datatype Error = NotAnEnum | UnquotedValue | IncompleteEscape | UnterminatedValue | NoValues

  const QUOTE: char := '\''
  const BACKSLASH: char := '\\'

  predicate IsSeparator(c: char) {
    c == ' ' || c == '\t' || c == '\n' || c == '\r' || c == '\U{0C}' || c == ','
  }

  // ---------------------------------------------------------------- the grammar

  function SkipSeparators(s: string): (r: string)
    ensures |r| <= |s| && (r != "" ==> !IsSeparator(r[0]))
  {
    if s != "" && IsSeparator(s[0]) then SkipSeparators(s[1..]) else s
  }

  datatype Value = Value(text: string, rest: string)

  function WithFirst(c: char, r: Result<Value, Error>): Result<Value, Error> {
    match r
    case Ok(v) => Ok(Value([c] + v.text, v.rest))
    case Err(e) => Err(e)
  }

  /** One value, from behind its opening quote. */
  function ParseValue(s: string): (r: Result<Value, Error>)
    ensures r.Ok? ==> |r.value.rest| < |s|
  {
    if s == "" then Err(UnterminatedValue)
    else if s[0] == BACKSLASH then
      if |s| == 1 then Err(IncompleteEscape) else WithFirst(s[1], ParseValue(s[2..]))
    else if s[0] == QUOTE then
      if |s| > 1 && s[1] == QUOTE then WithFirst(QUOTE, ParseValue(s[2..])) else Ok(Value("", s[1..]))
    else WithFirst(s[0], ParseValue(s[1..]))
  }

  function ParseValues(s: string): Result<seq<string>, Error>
    decreases |s|
  {
    if s == "" then Ok([])
    else
      var t := SkipSeparators(s);
      if t == "" || t[0] != QUOTE then Err(UnquotedValue)
      else
        match ParseValue(t[1..])
        case Err(e) => Err(e)
        case Ok(v) =>
          match ParseValues(v.rest)
          case Err(e) => Err(e)
          case Ok(values) => Ok([v.text] + values)
  }

  function Body(native: string): Option<string> {
    if "enum(" <= native && |native| > 5 && native[|native| - 1] == ')' then Some(native[5..|native| - 1]) else None
  }

  function Parse(native: string): Result<seq<string>, Error> {
    match Body(native)
    case None => Err(NotAnEnum)
    case Some(body) =>
      match ParseValues(body)
      case Err(e) => Err(e)
      case Ok(values) => if values == [] then Err(NoValues) else Ok(values)
  }

  // ---------------------------------------------------------------- the parser

  /** Two partial results agree after putting what has been read so far in front. */
  ghost predicate Continues<T>(whole: Result<seq<T>, Error>, read: seq<T>, rest: Result<seq<T>, Error>) {
    match rest
    case Ok(more) => whole == Ok(read + more)
    case Err(e) => whole == Err(e)
  }

  ghost predicate ValueContinues(whole: Result<Value, Error>, read: string, rest: Result<Value, Error>) {
    match rest
    case Ok(v) => whole == Ok(Value(read + v.text, v.rest))
    case Err(e) => whole == Err(e)
  }

  lemma {:induction false} NothingReadYet(whole: Result<Value, Error>)
    ensures ValueContinues(whole, "", whole)
  {
    if whole.Ok? { assert "" + whole.value.text == whole.value.text; }
  }

  lemma {:induction false} OneMoreRead(whole: Result<Value, Error>, read: string, c: char, rest: Result<Value, Error>)
    requires ValueContinues(whole, read, WithFirst(c, rest))
    ensures ValueContinues(whole, read + [c], rest)
  {
    if rest.Ok? { assert read + ([c] + rest.value.text) == read + [c] + rest.value.text; }
  }

  lemma {:induction false} ContinuesFurther<T>(whole: Result<seq<T>, Error>, a: seq<T>, middle: Result<seq<T>, Error>,
                                               b: seq<T>, rest: Result<seq<T>, Error>)
    requires Continues(whole, a, middle) && Continues(middle, b, rest)
    ensures Continues(whole, a + b, rest)
  {
    if rest.Ok? { assert a + (b + rest.value) == a + b + rest.value; }
  }

  /** `ParseValues` on a non-empty text: the separators, one value, and the others. */
  lemma {:induction false} OneValue(s: string)
    requires s != ""
    ensures var t := SkipSeparators(s);
            if t == "" || t[0] != QUOTE then ParseValues(s) == Err(UnquotedValue)
            else match ParseValue(t[1..])
                 case Err(e) => ParseValues(s) == Err(e)
                 case Ok(v) => Continues(ParseValues(s), [v.text], ParseValues(v.rest))
  {
    hide SkipSeparators, ParseValue;
  }

  lemma {:induction false} StartOf(body: string)
    ensures Continues(ParseValues(body), [], ParseValues(body[0..]))
  {
    hide ParseValues;
    assert body[0..] == body;
    if ParseValues(body).Ok? { assert [] + ParseValues(body).value == ParseValues(body).value; }
  }

  lemma {:induction false} ErrorPasses<T>(whole: Result<seq<T>, Error>, read: seq<T>, rest: Result<seq<T>, Error>)
    requires Continues(whole, read, rest)
    ensures rest.Err? ==> whole == rest
  {
  }

  lemma {:induction false} AllRead(whole: Result<seq<string>, Error>, read: seq<string>, rest: Result<seq<string>,
                                   Error>,
                                   tail: string)
    requires Continues(whole, read, rest) && tail == "" && rest == ParseValues(tail)
    ensures whole == Ok(read)
  {
    assert read + [] == read;
  }

  method ReadValue(body: string, start: nat) returns (r: Result<(string, nat), Error>)
    requires start <= |body|
    ensures match ParseValue(body[start..])
            case Err(e) => r == Err(e)
            case Ok(v) => r.Ok? && r.value.0 == v.text && start < r.value.1 <= |body| && body[r.value.1..] == v.rest
  {
    var value := "";
    var i := start;
    NothingReadYet(ParseValue(body[start..]));
    while true
      invariant start <= i <= |body|
      invariant ValueContinues(ParseValue(body[start..]), value, ParseValue(body[i..]))
      decreases |body| - i
    {
      ghost var rest := body[i..];
      assert |rest| > 0 ==> rest[1..] == body[i + 1..];
      assert |rest| > 1 ==> rest[2..] == body[i + 2..];
      if i == |body| {
        return Err(UnterminatedValue);
      } else if body[i] == BACKSLASH {
        if i + 1 == |body| {
          return Err(IncompleteEscape);
        }
        OneMoreRead(ParseValue(body[start..]), value, body[i + 1], ParseValue(body[i + 2..]));
        value := value + [body[i + 1]];
        i := i + 2;
      } else if body[i] == QUOTE && i + 1 < |body| && body[i + 1] == QUOTE {
        OneMoreRead(ParseValue(body[start..]), value, QUOTE, ParseValue(body[i + 2..]));
        value := value + [QUOTE];
        i := i + 2;
      } else if body[i] == QUOTE {
        return Ok((value, i + 1));
      } else {
        OneMoreRead(ParseValue(body[start..]), value, body[i], ParseValue(body[i + 1..]));
        value := value + [body[i]];
        i := i + 1;
      }
    }
  }

  method ParseEnum(native: string) returns (r: Result<seq<string>, Error>)
    ensures r == Parse(native)
  {
    hide ParseValues, ParseValue, Continues;
    if Body(native).None? {
      return Err(NotAnEnum);
    }
    var body := Body(native).value;
    var values: seq<string> := [];
    var i := 0;
    assert Continues(ParseValues(body), values, ParseValues(body[i..])) by { StartOf(body); }
    while i < |body|
      invariant i <= |body|
      invariant Continues(ParseValues(body), values, ParseValues(body[i..]))
    {
      var j := i;
      while j < |body| && IsSeparator(body[j])
        invariant i <= j <= |body|
        invariant SkipSeparators(body[i..]) == SkipSeparators(body[j..])
      {
        assert body[j..][1..] == body[j + 1..];
        j := j + 1;
      }
      assert SkipSeparators(body[i..]) == body[j..];
      OneValue(body[i..]);
      if j == |body| || body[j] != QUOTE {
        ErrorPasses(ParseValues(body), values, ParseValues(body[i..]));
        return Err(UnquotedValue);
      }
      var value := ReadValue(body, j + 1);
      assert body[j..][1..] == body[j + 1..];
      if value.Err? {
        ErrorPasses(ParseValues(body), values, ParseValues(body[i..]));
        return Err(value.error);
      }
      ContinuesFurther(ParseValues(body), values, ParseValues(body[i..]), [value.value.0], ParseValues(body[value.value.1..]));
      values := values + [value.value.0];
      i := value.value.1;
    }
    AllRead(ParseValues(body), values, ParseValues(body[i..]), body[i..]);
    if values == [] {
      return Err(NoValues);
    }
    r := Ok(values);
  }

  // ---------------------------------------------------------------- round trip

  /** A label as MySQL prints it: quotes doubled, backslashes escaped. */
  function Escape(name: string): string {
    if name == "" then ""
    else (if name[0] == QUOTE then [QUOTE, QUOTE]
          else if name[0] == BACKSLASH then [BACKSLASH, BACKSLASH]
          else [name[0]]) + Escape(name[1..])
  }

  function RenderLabels(labels: seq<string>): string
    requires labels != []
  {
    [QUOTE] + Escape(labels[0]) + [QUOTE] + if |labels| == 1 then "" else "," + RenderLabels(labels[1..])
  }

  function Render(labels: seq<string>): string
    requires labels != []
  {
    "enum(" + RenderLabels(labels) + ")"
  }

  lemma {:induction false} ParsePair(a: char, b: char, tail: string)
    requires a == BACKSLASH || (a == QUOTE && b == QUOTE)
    ensures ParseValue([a, b] + tail) == WithFirst(b, ParseValue(tail))
  {
    assert ([a, b] + tail)[2..] == tail;
  }

  lemma {:induction false} ParsePlain(c: char, tail: string)
    requires c != BACKSLASH && c != QUOTE
    ensures ParseValue([c] + tail) == WithFirst(c, ParseValue(tail))
  {
    assert ([c] + tail)[1..] == tail;
  }

  lemma {:induction false} ParseEnd(rest: string)
    requires rest == "" || rest[0] != QUOTE
    ensures ParseValue([QUOTE] + rest) == Ok(Value("", rest))
  {
    assert ([QUOTE] + rest)[1..] == rest;
  }

  lemma {:induction false} EscapedValue(name: string, rest: string)
    requires rest == "" || rest[0] != QUOTE
    ensures ParseValue(Escape(name) + [QUOTE] + rest) == Ok(Value(name, rest))
  {
    hide ParseValue;
    if name == "" {
      ParseEnd(rest);
      assert Escape(name) + [QUOTE] + rest == [QUOTE] + rest;
    } else {
      EscapedValue(name[1..], rest);
      var c := name[0];
      var tail := Escape(name[1..]) + [QUOTE] + rest;
      assert [c] + name[1..] == name;
      if c == QUOTE || c == BACKSLASH {
        ParsePair(c, c, tail);
        assert Escape(name) + [QUOTE] + rest == [c, c] + tail;
      } else {
        ParsePlain(c, tail);
        assert Escape(name) + [QUOTE] + rest == [c] + tail;
      }
    }
  }

  lemma {:induction false} SkipsToQuote(value: string)
    ensures SkipSeparators([QUOTE] + value) == [QUOTE] + value
    ensures SkipSeparators("," + ([QUOTE] + value)) == [QUOTE] + value
  {
    assert ("," + ([QUOTE] + value))[1..] == [QUOTE] + value;
  }

  lemma {:induction false} RenderedLabelsParse(labels: seq<string>)
    requires labels != []
    ensures ParseValues(RenderLabels(labels)) == Ok(labels)
    ensures ParseValues("," + RenderLabels(labels)) == Ok(labels)
    decreases |labels|
  {
    hide ParseValue, ParseValues, SkipSeparators, Escape;
    var rest := if |labels| == 1 then "" else "," + RenderLabels(labels[1..]);
    var value := Escape(labels[0]) + [QUOTE] + rest;
    var s := RenderLabels(labels);
    assert s == [QUOTE] + value && s[1..] == value;
    SkipsToQuote(value);
    EscapedValue(labels[0], rest);
    OneValue(s);
    OneValue("," + s);
    if |labels| > 1 { RenderedLabelsParse(labels[1..]); } else { NoValuesLeft(); }
    assert ParseValues(rest) == Ok(labels[1..]);
    assert [labels[0]] + labels[1..] == labels;
  }

  lemma {:induction false} NoValuesLeft()
    ensures ParseValues("") == Ok([])
  {
  }

  /** Every non-empty list of labels survives rendering and parsing. */
  lemma {:induction false} LabelsRoundTrip(labels: seq<string>)
    requires labels != []
    ensures Parse(Render(labels)) == Ok(labels)
  {
    var native := Render(labels);
    assert native[5..|native| - 1] == RenderLabels(labels);
    assert native[..5] == "enum(";
    RenderedLabelsParse(labels);
  }

  // ---------------------------------------------------------------- which texts are accepted

  /** Between its quotes, `body` stands for `word`: a backslash takes the next character as it is, a
      quote is doubled, and every other character stands for itself. */
  ghost predicate Spells(body: string, word: string)
    decreases |body|
  {
    if body == "" then word == ""
    else
      && word != ""
      && if body[0] == BACKSLASH || body[0] == QUOTE then
           && |body| > 1 && word[0] == body[1] && (body[0] == QUOTE ==> body[1] == QUOTE)
           && Spells(body[2..], word[1..])
         else word[0] == body[0] && Spells(body[1..], word[1..])
  }

  ghost predicate IsValue(s: string, v: Value, body: string) {
    && s == body + [QUOTE] + v.rest && Spells(body, v.text) && (v.rest == "" || v.rest[0] != QUOTE)
  }

  lemma {:induction false} SpelledParses(s: string, v: Value, body: string)
    requires IsValue(s, v, body)
    ensures ParseValue(s) == Ok(v)
    decreases |body|
  {
    if body == "" {
      assert s[0] == QUOTE && s[1..] == v.rest;
    } else {
      var n := if body[0] == BACKSLASH || body[0] == QUOTE then 2 else 1;
      assert s[0] == body[0] && s[n..] == body[n..] + [QUOTE] + v.rest && (n == 2 ==> s[1] == body[1]);
      SpelledParses(s[n..], Value(v.text[1..], v.rest), body[n..]);
      assert [v.text[0]] + v.text[1..] == v.text;
    }
  }

  lemma {:induction false} ParsedIsSpelled(s: string) returns (body: string)
    requires ParseValue(s).Ok?
    ensures IsValue(s, ParseValue(s).value, body)
    decreases |s|
  {
    var v := ParseValue(s).value;
    if s[0] == QUOTE && (|s| == 1 || s[1] != QUOTE) {
      body := "";
      assert s == "" + [QUOTE] + s[1..];
    } else {
      var n := if s[0] == BACKSLASH || s[0] == QUOTE then 2 else 1;
      var rest := ParsedIsSpelled(s[n..]);
      body := s[..n] + rest;
      assert body[n..] == rest && v.text[1..] == ParseValue(s[n..]).value.text;
      assert s == s[..n] + s[n..] == body + [QUOTE] + v.rest;
    }
  }

  /** Any separators, a quoted value, and so on; no separators after the last value. */
  ghost predicate Lists(text: string, labels: seq<string>)
    decreases |text|
  {
    if text == "" then labels == []
    else labels != [] && exists gap: nat, body, rest :: ListsFirst(text, labels, gap, body, rest)
  }

  /** The first `gap` characters are white space of ASCII, or commas. */
  predicate IsGap(text: string, gap: nat) {
    gap <= |text| && forall k :: 0 <= k < gap ==> text[k] in {' ', '\t', '\n', '\U{0C}', '\r', ','}
  }

  ghost predicate ListsFirst(text: string, labels: seq<string>, gap: nat, body: string, rest: string)
    requires labels != [] && text != ""
    decreases |text|, 0
  {
    && gap < |text| && IsGap(text, gap)
    && text[gap] == QUOTE && IsValue(text[gap + 1..], Value(labels[0], rest), body)
    && |rest| < |text| && Lists(rest, labels[1..])
  }

  lemma {:induction false} SkipsGap(s: string, gap: nat)
    requires gap < |s| && IsGap(s, gap) && !IsSeparator(s[gap])
    ensures SkipSeparators(s) == s[gap..]
  {
    if gap > 0 {
      assert forall k :: 0 <= k < gap - 1 ==> s[1..][k] == s[k + 1];
      SkipsGap(s[1..], gap - 1);
    }
  }

  lemma {:induction false} AllSkipped(s: string)
    requires IsGap(s, |s|)
    ensures SkipSeparators(s) == ""
  {
    if s != "" {
      assert forall k :: 0 <= k < |s| - 1 ==> s[1..][k] == s[k + 1];
      AllSkipped(s[1..]);
    }
  }

  lemma {:induction false} GapSkipped(s: string) returns (gap: nat)
    ensures IsGap(s, gap) && SkipSeparators(s) == s[gap..]
    ensures gap < |s| ==> !IsSeparator(s[gap])
  {
    gap := 0;
    if s != "" && IsSeparator(s[0]) {
      gap := GapSkipped(s[1..]);
      assert forall k :: 0 <= k < gap ==> s[1..][k] == s[k + 1];
      gap := gap + 1;
    }
  }

  lemma {:induction false} ListedParses(text: string, labels: seq<string>)
    requires Lists(text, labels)
    ensures ParseValues(text) == Ok(labels)
    decreases |text|
  {
    hide ParseValue, SkipSeparators, IsSeparator, IsValue, IsGap;
    if text != "" {
      var gap: nat, body, rest :| ListsFirst(text, labels, gap, body, rest);
      QuoteIsNoSeparator();
      SkipsGap(text, gap);
      assert text[gap..][1..] == text[gap + 1..];
      SpelledParses(text[gap + 1..], Value(labels[0], rest), body);
      ListedParses(rest, labels[1..]);
      assert [labels[0]] + labels[1..] == labels;
    }
  }

  lemma {:induction false} QuoteIsNoSeparator()
    ensures !IsSeparator(QUOTE)
  {
  }

  lemma {:induction false} ParsedIsListed(text: string)
    requires ParseValues(text).Ok?
    ensures Lists(text, ParseValues(text).value)
    decreases |text|
  {
    hide ParseValue, SkipSeparators, IsSeparator, IsValue, IsGap;
    if text != "" {
      var gap := GapSkipped(text);
      assert text[gap..][1..] == text[gap + 1..];
      var v := ParseValue(text[gap + 1..]).value;
      var body := ParsedIsSpelled(text[gap + 1..]);
      ParsedIsListed(v.rest);
      var labels := ParseValues(text).value;
      assert labels == [v.text] + ParseValues(v.rest).value;
      assert ListsFirst(text, labels, gap, body, v.rest);
    }
  }

  /** The parser accepts exactly the lists of one or more labels in this notation, and reads them right. */
  lemma {:induction false} AcceptedIff(native: string, labels: seq<string>)
    ensures Parse(native) == Ok(labels) <==> labels != [] && exists text :: native == "enum(" + text + ")" && Lists(text, labels)
  {
    hide ParseValues, Lists;
    if Parse(native) == Ok(labels) {
      var text := Body(native).value;
      ParsedIsListed(text);
      assert native == "enum(" + text + ")";
    }
    if labels != [] && exists text :: native == "enum(" + text + ")" && Lists(text, labels) {
      var text :| native == "enum(" + text + ")" && Lists(text, labels);
      assert native[5..|native| - 1] == text && native[..5] == "enum(";
      ListedParses(text, labels);
    }
  }

  // ---------------------------------------------------------------- which texts are refused, and why

  /** Behind an opening quote the text ends before the value does: after a whole number of its characters,
      or after a backslash with nothing behind it. */
  ghost predicate LeftOpen(s: string, e: Error) {
    match e
    case UnterminatedValue => SpellsSome(s)
    case IncompleteEscape => s != "" && s[|s| - 1] == BACKSLASH && SpellsSome(s[..|s| - 1])
    case _ => false
  }

  ghost predicate SpellsSome(s: string) { exists word :: Spells(s, word) }

  lemma {:induction false} LongerSpells(s: string, n: nat, tail: string, word: string)
    requires s != "" && |s| >= n && n == UnitLen(s)
    requires (s[0] == QUOTE ==> s[1] == QUOTE) && tail == s[n..] && Spells(tail, word)
    ensures Spells(s, [s[n - 1]] + word)
  {
    assert ([s[n - 1]] + word)[1..] == word;
  }

  /** How many characters of the text stand for the next one of the value. */
  function UnitLen(s: string): (n: nat)
    requires s != ""
  {
    if s[0] == BACKSLASH || s[0] == QUOTE then 2 else 1
  }

  lemma {:induction false} OpenLonger(s: string, e: Error)
    requires |s| >= 1 && |s| >= UnitLen(s) && (s[0] == QUOTE ==> s[1] == QUOTE) && LeftOpen(s[UnitLen(s)..], e)
    ensures LeftOpen(s, e)
  {
    var n := UnitLen(s);
    var tail := s[n..];
    if e.UnterminatedValue? {
      var word :| Spells(tail, word);
      LongerSpells(s, n, tail, word);
    } else {
      var init := s[..|s| - 1];
      assert init[n..] == tail[..|tail| - 1] && init[0] == s[0];
      var word :| Spells(tail[..|tail| - 1], word);
      LongerSpells(init, n, tail[..|tail| - 1], word);
    }
  }

  lemma {:induction false} FailsLater(s: string)
    requires s != "" && s != [BACKSLASH] && ParseValue(s).Err?
    ensures |s| >= UnitLen(s) && (s[0] == QUOTE ==> s[1] == QUOTE)
    ensures ParseValue(s[UnitLen(s)..]) == ParseValue(s)
  {
  }

  lemma {:induction false} FailedIsOpen(s: string)
    requires ParseValue(s).Err?
    ensures LeftOpen(s, ParseValue(s).error)
    decreases |s|
  {
    if s == "" {
      assert Spells("", "");
    } else if s == [BACKSLASH] {
      assert s[..0] == "" && Spells("", "");
    } else {
      hide ParseValue, LeftOpen, Spells;
      FailsLater(s);
      FailedIsOpen(s[UnitLen(s)..]);
      OpenLonger(s, ParseValue(s).error);
    }
  }

  lemma {:induction false} SpelledOutFails(s: string, word: string)
    requires Spells(s, word)
    ensures ParseValue(s) == Err(UnterminatedValue) && ParseValue(s + [BACKSLASH]) == Err(IncompleteEscape)
    decreases |s|
  {
    if s == "" {
      assert s + [BACKSLASH] == [BACKSLASH];
    } else {
      var n := if s[0] == BACKSLASH || s[0] == QUOTE then 2 else 1;
      SpelledOutFails(s[n..], word[1..]);
      assert (s + [BACKSLASH])[n..] == s[n..] + [BACKSLASH];
    }
  }

  lemma {:induction false} OpenFails(s: string, e: Error)
    requires LeftOpen(s, e)
    ensures ParseValue(s) == Err(e)
  {
    if e.UnterminatedValue? {
      var word :| Spells(s, word);
      SpelledOutFails(s, word);
    } else {
      var word :| Spells(s[..|s| - 1], word);
      SpelledOutFails(s[..|s| - 1], word);
      assert s[..|s| - 1] + [BACKSLASH] == s;
    }
  }

  /** Behind the separators there is no quote, or one that is never closed. */
  ghost predicate Stops(text: string, gap: nat, e: Error) {
    && IsGap(text, gap) && text != ""
    && if gap == |text| then e == UnquotedValue
       else if text[gap] == QUOTE then LeftOpen(text[gap + 1..], e)
       else !IsGap(text, gap + 1) && e == UnquotedValue
  }

  /** After some values, the text stops in this way. */
  ghost predicate Refuses(text: string, e: Error)
    decreases |text|
  {
    || (exists gap: nat :: Stops(text, gap, e))
    || (text != "" && exists gap: nat, first, body, rest :: RefusesLater(text, e, gap, first, body, rest))
  }

  ghost predicate RefusesLater(text: string, e: Error, gap: nat, first: string, body: string, rest: string)
    requires text != ""
    decreases |text|, 0
  {
    && gap < |text| && IsGap(text, gap) && text[gap] == QUOTE && IsValue(text[gap + 1..], Value(first, rest), body)
    && |rest| < |text| && Refuses(rest, e)
  }

  lemma {:induction false} LongerGap(text: string, gap: nat)
    requires gap < |text| && IsGap(text, gap)
    ensures IsGap(text, gap + 1) <==> IsSeparator(text[gap])
  {
  }

  lemma {:induction false} FailedIsRefused(text: string)
    requires ParseValues(text).Err?
    ensures Refuses(text, ParseValues(text).error)
    decreases |text|
  {
    hide ParseValue, SkipSeparators, IsSeparator, IsValue, IsGap, LeftOpen;
    var gap := GapSkipped(text);
    var e := ParseValues(text).error;
    QuoteIsNoSeparator();
    if gap < |text| {
      LongerGap(text, gap);
      assert text[gap..][1..] == text[gap + 1..];
      if text[gap] == QUOTE && ParseValue(text[gap + 1..]).Ok? {
        var v := ParseValue(text[gap + 1..]).value;
        var body := ParsedIsSpelled(text[gap + 1..]);
        FailedIsRefused(v.rest);
        assert RefusesLater(text, e, gap, v.text, body, v.rest);
      } else {
        if text[gap] == QUOTE { FailedIsOpen(text[gap + 1..]); }
        assert Stops(text, gap, e);
      }
    } else {
      assert Stops(text, gap, e);
    }
  }

  lemma {:induction false} StoppedFails(text: string, gap: nat, e: Error)
    requires Stops(text, gap, e)
    ensures ParseValues(text) == Err(e)
  {
    hide ParseValue, SkipSeparators, IsSeparator, LeftOpen;
    QuoteIsNoSeparator();
    if gap == |text| {
      AllSkipped(text);
    } else {
      LongerGap(text, gap);
      SkipsGap(text, gap);
      assert text[gap..][1..] == text[gap + 1..];
      if text[gap] == QUOTE { OpenFails(text[gap + 1..], e); }
    }
  }

  lemma {:induction false} RefusedFails(text: string, e: Error)
    requires Refuses(text, e)
    ensures ParseValues(text) == Err(e)
    decreases |text|
  {
    hide ParseValue, SkipSeparators, IsSeparator, IsValue, IsGap, LeftOpen, Stops;
    if exists gap: nat :: Stops(text, gap, e) {
      var gap: nat :| Stops(text, gap, e);
      StoppedFails(text, gap, e);
    } else {
      var gap: nat, first, body, rest :| RefusesLater(text, e, gap, first, body, rest);
      QuoteIsNoSeparator();
      SkipsGap(text, gap);
      assert text[gap..][1..] == text[gap + 1..];
      SpelledParses(text[gap + 1..], Value(first, rest), body);
      RefusedFails(rest, e);
    }
  }

  /** Every other text is refused for exactly one reason: no `enum(...)`, nothing in it, or after some values
      no quote behind the separators, an escape of nothing, or a value that does not end. */
  lemma {:induction false} RefusedIff(native: string, e: Error)
    ensures Parse(native) == Err(e) <==>
              match e
              case NotAnEnum => forall text :: native != "enum(" + text + ")"
              case NoValues => native == "enum()"
              case _ => exists text :: native == "enum(" + text + ")" && Refuses(text, e)
  {
    hide ParseValues, Refuses;
    BodyIs(native);
    if Body(native).Some? {
      var body := Body(native).value;
      if ParseValues(body).Err? { FailedIsRefused(body); }
      NothingParsed(body);
      KindsOfFailure(body);
      if Refuses(body, e) { RefusedFails(body, e); }
    }
  }

  lemma {:induction false} BodyIs(native: string)
    ensures forall text :: native == "enum(" + text + ")" <==> Body(native) == Some(text)
  {
    forall text: string ensures native == "enum(" + text + ")" <==> Body(native) == Some(text) {
      if native == "enum(" + text + ")" {
        assert native[5..|native| - 1] == text && native[..5] == "enum(";
      }
      if Body(native) == Some(text) { assert native == native[..5] + native[5..|native| - 1] + native[|native| - 1..]; }
    }
  }

  lemma {:induction false} NothingParsed(body: string)
    ensures ParseValues(body) == Ok([]) <==> body == ""
  {
    hide ParseValue, SkipSeparators;
  }

  lemma {:induction false} ValueFailures(s: string)
    requires ParseValue(s).Err?
    ensures ParseValue(s).error.UnterminatedValue? || ParseValue(s).error.IncompleteEscape?
  {
    FailedIsOpen(s);
  }

  lemma {:induction false} KindsOfFailure(body: string)
    ensures ParseValues(body).Err? ==> !ParseValues(body).error.NotAnEnum? && !ParseValues(body).error.NoValues?
    decreases |body|
  {
    hide ParseValue, SkipSeparators;
    if body != "" {
      var t := SkipSeparators(body);
      if t != "" && t[0] == QUOTE {
        if ParseValue(t[1..]).Err? { ValueFailures(t[1..]); } else { KindsOfFailure(ParseValue(t[1..]).value.rest); }
      }
    }
  }
}

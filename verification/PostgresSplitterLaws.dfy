/** What splitting keeps: the segments rebuild the text, splitting distributes over a separator on
    its own line, and emitted statements split to themselves. */
module PostgresSplitterLaws {
  import opened Wrappers
  import opened PostgresLexer
  import opened Sequences
  import opened PostgresSplitter

  // ---------------------------------------------------------------- constructs and longer texts

  predicate LineEnds(s: string) {
    s != [] && (s[0] == '\n' || s[0] == '\r' || LineEnds(s[1..]))
  }

  lemma {:induction false} SingleExtend(s: string, w: string, escapes: bool)
    requires SingleLen(s, escapes).Some?
    requires SingleLen(s, escapes).value < |s| || w == [] || w[0] != '\''
    ensures SingleLen(s + w, escapes) == SingleLen(s, escapes)
  {
    assert (s + w)[1..] == s[1..] + w;
    if |s| > 1 { assert (s + w)[2..] == s[2..] + w; }
    if escapes && s[0] == '\\' {
      SingleExtend(s[2..], w, escapes);
    } else if s[0] == '\'' {
      if |s| > 1 && s[1] == '\'' { SingleExtend(s[2..], w, escapes); }
    } else {
      SingleExtend(s[1..], w, escapes);
    }
  }

  lemma {:induction false} SingleTruncate(s: string, w: string, escapes: bool)
    requires SingleLen(s + w, escapes).Some? && SingleLen(s + w, escapes).value <= |s|
    ensures SingleLen(s, escapes) == SingleLen(s + w, escapes)
  {
    assert (s + w)[1..] == s[1..] + w;
    if |s| > 1 { assert (s + w)[2..] == s[2..] + w; }
    if escapes && s[0] == '\\' {
      SingleTruncate(s[2..], w, escapes);
    } else if s[0] == '\'' {
      if |s| > 1 && s[1] == '\'' { SingleTruncate(s[2..], w, escapes); }
    } else {
      SingleTruncate(s[1..], w, escapes);
    }
  }

  lemma {:induction false} DoubleExtend(s: string, w: string)
    requires DoubleLen(s).Some?
    requires DoubleLen(s).value < |s| || w == [] || w[0] != '"'
    ensures DoubleLen(s + w) == DoubleLen(s)
  {
    assert (s + w)[1..] == s[1..] + w;
    if |s| > 1 { assert (s + w)[2..] == s[2..] + w; }
    if s[0] == '"' {
      if |s| > 1 && s[1] == '"' { DoubleExtend(s[2..], w); }
    } else {
      DoubleExtend(s[1..], w);
    }
  }

  lemma {:induction false} DoubleTruncate(s: string, w: string)
    requires DoubleLen(s + w).Some? && DoubleLen(s + w).value <= |s|
    ensures DoubleLen(s) == DoubleLen(s + w)
  {
    assert (s + w)[1..] == s[1..] + w;
    if |s| > 1 { assert (s + w)[2..] == s[2..] + w; }
    if s[0] == '"' {
      if |s| > 1 && s[1] == '"' { DoubleTruncate(s[2..], w); }
    } else {
      DoubleTruncate(s[1..], w);
    }
  }

  lemma {:induction false} DollarExtend(s: string, w: string, delimiter: string)
    requires delimiter != [] && DollarLen(s, delimiter).Some?
    ensures DollarLen(s + w, delimiter) == DollarLen(s, delimiter)
  {
    if !(delimiter <= s) {
      assert (s + w)[1..] == s[1..] + w;
      assert (s + w)[..|delimiter|] == s[..|delimiter|];
      DollarExtend(s[1..], w, delimiter);
    }
  }

  lemma {:induction false} DollarTruncate(s: string, w: string, delimiter: string)
    requires delimiter != []
    requires DollarLen(s + w, delimiter).Some? && DollarLen(s + w, delimiter).value <= |s|
    ensures DollarLen(s, delimiter) == DollarLen(s + w, delimiter)
  {
    assert (s + w)[..|delimiter|] == s[..|delimiter|];
    if !(delimiter <= s + w) {
      assert (s + w)[1..] == s[1..] + w;
      DollarTruncate(s[1..], w, delimiter);
    }
  }

  lemma {:induction false} BlockExtend(s: string, w: string, depth: nat)
    requires depth > 0 && BlockLen(s, depth).Some?
    ensures BlockLen(s + w, depth) == BlockLen(s, depth)
    decreases |s|
  {
    assert (s + w)[1..] == s[1..] + w && (s + w)[2..] == s[2..] + w;
    if "/*" <= s {
      BlockExtend(s[2..], w, depth + 1);
    } else if "*/" <= s {
      if depth > 1 { BlockExtend(s[2..], w, depth - 1); }
    } else {
      BlockExtend(s[1..], w, depth);
    }
  }

  lemma {:induction false} BlockTruncate(s: string, w: string, depth: nat)
    requires depth > 0 && BlockLen(s + w, depth).Some? && BlockLen(s + w, depth).value <= |s|
    ensures BlockLen(s, depth) == BlockLen(s + w, depth)
    decreases |s|
  {
    assert (s + w)[1..] == s[1..] + w && (s + w)[2..] == s[2..] + w;
    if "/*" <= s + w {
      assert "/*" <= s;
      BlockTruncate(s[2..], w, depth + 1);
    } else if "*/" <= s + w {
      assert "*/" <= s;
      if depth > 1 { BlockTruncate(s[2..], w, depth - 1); }
    } else {
      BlockTruncate(s[1..], w, depth);
    }
  }

  lemma {:induction false} LineExtend(s: string, w: string)
    ensures LineLen(s + w) == if LineEnds(s) then LineLen(s) else |s| + LineLen(w)
    ensures LineLen(s) < |s| ==> LineEnds(s)
  {
    if s == [] {
      assert s + w == w;
    } else {
      assert (s + w)[1..] == s[1..] + w;
      LineExtend(s[1..], w);
    }
  }

  /** A line end after the text closes its line comment, if nothing did before. */
  lemma {:induction false} LineBreakEnds(s: string, r: string)
    ensures LineLen(s + ("\n" + r)) == if LineEnds(s) then LineLen(s) else |s| + 1
    ensures !LineEnds(s) ==> LineLen(s) == |s|
  {
    LineExtend(s, "\n" + r);
    LineExtend(s, []);
    assert s + [] == s && LineLen([]) == 0;
    assert LineLen("\n" + r) == 1;
  }

  lemma {:induction false} TagExtend(s: string, w: string, i: nat)
    requires i <= |s|
    ensures TagEnd(s, i).Some? ==> TagEnd(s + w, i) == TagEnd(s, i)
    ensures w != [] && w[0] == '\n' ==> TagEnd(s + w, i) == TagEnd(s, i)
    decreases |s| - i
  {
    if i < |s| { TagExtend(s, w, i + 1); }
  }

  lemma {:induction false} DelimiterExtend(s: string, w: string)
    ensures DelimiterLen(s).Some? ==> DelimiterLen(s + w) == DelimiterLen(s)
    ensures s != [] && w != [] && w[0] == '\n' ==> DelimiterLen(s + w) == DelimiterLen(s)
  {
    if |s| >= 2 { TagExtend(s, w, 2); }
  }

  /** A line comment whose line end is still to come. */
  predicate OpenLine(text: string) {
    "--" <= text && !LineEnds(text[2..])
  }

  /** Cutting a text after a complete token does not change the token. */
  lemma {:induction false} NextTokenTruncate(back: string, s: string, w: string, kind: Kind, n: nat)
    requires s != [] && NextToken(back, s + w) == Complete(kind, n) && n <= |s|
    ensures NextToken(back, s) == Complete(kind, n)
  {
    hide SingleLen, DoubleLen, DollarLen, DelimiterLen, BlockLen, LineLen;
    var x := s + w;
    if |s| > 1 { assert x[2..] == s[2..] + w; }
    assert x[1..] == s[1..] + w;
    if "--" <= x {
      assert "--" <= s;
      LineExtend(s[2..], w);
    } else if "/*" <= x {
      assert "/*" <= s;
      BlockTruncate(s[2..], w, 1);
    } else if s[0] == '\'' {
      SingleTruncate(s[1..], w, QuoteUsesBackslash(back));
    } else if s[0] == '"' {
      DoubleTruncate(s[1..], w);
    } else if s[0] == '$' {
      DelimiterExtend(s, w);
      if DelimiterLen(x).Some? {
        var k := DelimiterLen(x).value;
        assert x[..k] == s[..k] && x[k..] == s[k..] + w;
        DollarQuoteTruncate(s, w, k);
      }
    }
  }

  lemma {:induction false} DollarQuoteTruncate(s: string, w: string, k: nat)
    requires k <= |s| && DelimiterLen(s + w) == Some(k)
    requires var rest := DollarLen(s[k..] + w, s[..k]); rest.Some? && k + rest.value <= |s|
    ensures DelimiterLen(s) == Some(k)
    ensures DollarLen(s[k..], s[..k]) == DollarLen(s[k..] + w, s[..k])
  {
    hide DollarLen, DelimiterLen;
    TagTruncate(s, w, k);
    DollarTruncate(s[k..], w, s[..k]);
  }

  lemma {:induction false} TagTruncate(s: string, w: string, k: nat)
    requires DelimiterLen(s + w) == Some(k) && k <= |s|
    ensures DelimiterLen(s) == Some(k)
  {
    if k > 2 { TagCut(s, w, 2); }
  }

  lemma {:induction false} TagCut(s: string, w: string, i: nat)
    requires i < |s| && TagEnd(s + w, i).Some? && TagEnd(s + w, i).value <= |s|
    ensures TagEnd(s, i) == TagEnd(s + w, i)
    decreases |s| - i
  {
    if s[i] != '$' { TagCut(s, w, i + 1); }
  }

  /** A line end after a text never changes its last token, except that it closes a line comment. */
  lemma {:induction false} NextTokenExtend(back: string, s: string, r: string, kind: Kind, n: nat)
    requires s != [] && NextToken(back, s) == Complete(kind, n)
    ensures NextToken(back, s + ("\n" + r))
            == Complete(kind, if OpenLine(s) then n + 1 else n)
    ensures OpenLine(s) ==> n == |s| && kind == Comment
  {
    hide SingleLen, DoubleLen, DollarLen, DelimiterLen, BlockLen, LineLen, LineEnds, QuoteUsesBackslash;
    var w := "\n" + r;
    var x := s + w;
    if |s| > 1 { assert x[2..] == s[2..] + w; }
    assert x[1..] == s[1..] + w;
    assert |s| == 1 ==> x[1] == '\n';
    if "--" <= s {
      LineBreakEnds(s[2..], r);
    } else if "/*" <= s {
      BlockExtend(s[2..], w, 1);
    } else if s[0] == '\'' {
      SingleExtend(s[1..], w, QuoteUsesBackslash(back));
    } else if s[0] == '"' {
      DoubleExtend(s[1..], w);
    } else if s[0] == '$' {
      DelimiterExtend(s, w);
      if DelimiterLen(s).Some? {
        var k := DelimiterLen(s).value;
        assert x[..k] == s[..k] && x[k..] == s[k..] + w;
        DollarExtend(s[k..], w, s[..k]);
      }
    }
  }

  // ---------------------------------------------------------------- separators hide the past

  /** A byte after which a text lexes as if it began there. */
  predicate IsBreak(c: char) {
    c == ';' || IsAsciiWhitespace(c)
  }

  lemma {:induction false} LexAfterBreak(past: string, back: string, s: string)
    requires past != [] && IsBreak(past[|past| - 1])
    ensures Lex(past + back, s) == Lex(back, s)
    decreases |s|
  {
    hide SingleLen, DoubleLen, DollarLen, DelimiterLen, BlockLen, LineLen;
    if s != [] {
      assert QuoteUsesBackslash(past + back) == QuoteUsesBackslash(back);
      var next := NextToken(back, s);
      assert NextToken(past + back, s) == next;
      if next.Complete? {
        assert past + back + s[..next.len] == past + (back + s[..next.len]);
        LexAfterBreak(past, back + s[..next.len], s[next.len..]);
      }
    }
  }

  // ---------------------------------------------------------------- tokens and segments

  /** Every token is what its kind says. */
  predicate WellFormed(token: Token) {
    match token.kind
    case Blank => |token.text| == 1 && IsAsciiWhitespace(token.text[0])
    case Semicolon => token.text == ";"
    case Code => token.text != [] && !IsBreak(token.text[|token.text| - 1]) && !("--" <= token.text)
    case Comment =>
      || ("--" <= token.text && LineLen(token.text[2..]) == |token.text| - 2)
      || ("/*" <= token.text && BlockLen(token.text[2..], 1) == Some(|token.text| - 2))
  }

  lemma {:induction false} CommentTokenText(back: string, text: string)
    requires text != [] && NextToken(back, text) == Complete(Comment, |text|)
    ensures || ("--" <= text && LineLen(text[2..]) == |text| - 2)
            || ("/*" <= text && BlockLen(text[2..], 1) == Some(|text| - 2))
  {
    hide SingleLen, DoubleLen, DollarLen, DelimiterLen, BlockLen, LineLen, QuoteUsesBackslash;
  }

  lemma {:induction false} DollarQuoteEnds(s: string, k: nat, n: nat)
    requires 2 <= k <= |s| && s[k - 1] == '$' && DollarLen(s[k..], s[..k]) == Some(n)
    ensures k + n <= |s| && s[k + n - 1] == '$'
  {
    hide DollarLen;
    assert s[..k][k - 1] == '$' && s[k..][n - 1] == '$';
  }

  /** Code ends in a byte that cannot be part of an identifier or a prefix, unless it is one byte. */
  lemma {:induction false} CodeTokenEnds(back: string, s: string, n: nat)
    requires s != [] && NextToken(back, s) == Complete(Code, n)
    ensures !IsBreak(s[n - 1]) && !("--" <= s)
  {
    hide SingleLen, DoubleLen, DollarLen, DelimiterLen, BlockLen, LineLen, QuoteUsesBackslash;
    if s[0] == '$' && DelimiterLen(s).Some? {
      var k := DelimiterLen(s).value;
      DollarQuoteEnds(s, k, n - k);
    }
  }

  lemma {:induction false} OneByteToken(back: string, s: string, kind: Kind, n: nat)
    requires s != [] && NextToken(back, s) == Complete(kind, n) && (kind.Blank? || kind.Semicolon?)
    ensures n == 1 && if kind.Blank? then IsAsciiWhitespace(s[0]) else s[0] == ';'
  {
    hide SingleLen, DoubleLen, DollarLen, DelimiterLen, BlockLen, LineLen, QuoteUsesBackslash;
  }

  lemma {:induction false} NextTokenWellFormed(back: string, s: string, kind: Kind, n: nat)
    requires s != [] && NextToken(back, s) == Complete(kind, n)
    ensures WellFormed(Token(kind, s[..n]))
  {
    hide NextToken, IsBreak, LineLen, BlockLen;
    var text := s[..n];
    match kind
    case Comment =>
      assert s == text + s[n..];
      NextTokenTruncate(back, text, s[n..], kind, n);
      CommentTokenText(back, text);
    case Code =>
      CodeTokenEnds(back, s, n);
      assert text[|text| - 1] == s[n - 1] && ("--" <= text ==> "--" <= s);
    case Blank => OneByteToken(back, s, kind, n);
    case Semicolon => OneByteToken(back, s, kind, n);
  }

  lemma {:induction false} LexCovers(back: string, s: string)
    requires Lex(back, s).Ok?
    ensures Text(Lex(back, s).value) == s
    ensures forall token :: token in Lex(back, s).value ==> WellFormed(token)
    decreases |s|
  {
    hide NextToken, WellFormed;
    if s != [] {
      var next := NextToken(back, s);
      NextTokenWellFormed(back, s, next.kind, next.len);
      LexCovers(back + s[..next.len], s[next.len..]);
    }
  }

  predicate NoSeparator(tokens: seq<Token>) {
    forall token :: token in tokens ==> !token.kind.Semicolon?
  }

  function JoinSegments(segments: seq<seq<Token>>): string
    requires segments != []
  {
    if |segments| == 1 then Text(segments[0]) else Text(segments[0]) + ";" + JoinSegments(segments[1..])
  }

  lemma {:induction false} SegmentsRejoin(tokens: seq<Token>)
    requires forall token :: token in tokens ==> WellFormed(token)
    ensures JoinSegments(Segments(tokens)) == Text(tokens)
  {
    hide LineLen, BlockLen, IsBreak, Segments;
    if tokens == [] {
      NothingLexed([]);
    } else {
      var token, tail := tokens[0], tokens[1..];
      assert tokens == [token] + tail && token in tokens;
      SegmentsRejoin(tail);
      var rest := Segments(tail);
      if token.kind.Semicolon? {
        SegmentsAfterSemicolon(token, tail);
        assert ([[]] + rest)[1..] == rest;
      } else {
        SegmentsOne(token, tail);
        var segments := [[token] + rest[0]] + rest[1..];
        assert segments[1..] == rest[1..];
      }
    }
  }

  lemma {:induction false} SegmentsAfterSemicolon(token: Token, tail: seq<Token>)
    requires token.kind.Semicolon?
    ensures Segments([token] + tail) == [[]] + Segments(tail)
  {
    assert ([token] + tail)[1..] == tail;
  }

  lemma {:induction false} SegmentsHoldTokens(tokens: seq<Token>)
    ensures forall segment :: segment in Segments(tokens) ==> NoSeparator(segment)
    ensures forall segment, token :: segment in Segments(tokens) && token in segment ==> token in tokens
  {
    if tokens != [] {
      var rest := Segments(tokens[1..]);
      SegmentsHoldTokens(tokens[1..]);
      assert rest[0] in rest;
      forall segment | segment in Segments(tokens)
        ensures NoSeparator(segment) && forall token :: token in segment ==> token in tokens
      {
        if tokens[0].kind.Semicolon? {
          assert segment == [] || segment in rest;
        } else {
          assert segment == [tokens[0]] + rest[0] || segment in rest;
        }
      }
    }
  }

  /** Cutting the text at the separators outside quotes and comments: the segments, joined with
      semicolons, are the text, none of them holds a separator token, exactly those with code are
      emitted, and the dropped ones consist of white space and comments only. */
  lemma {:induction false} SplitCutsAtSeparators(sql: string)
    requires Lex([], sql).Ok?
    ensures var segments := Segments(Lex([], sql).value);
            && Split(sql) == Ok(Statements(segments))
            && JoinSegments(segments) == sql
            && (forall segment :: segment in segments ==> NoSeparator(segment))
            && (forall segment, token :: segment in segments && token in segment ==>
                  && WellFormed(token)
                  && (!HasCode(segment) ==> token.kind.Blank? || token.kind.Comment?))
  {
    var tokens := Lex([], sql).value;
    LexCovers([], sql);
    SegmentsHoldTokens(tokens);
    SegmentsRejoin(tokens);
    forall segment, token | segment in Segments(tokens) && token in segment && !HasCode(segment)
      ensures !token.kind.Code?
    {
      HasCodeIff(segment);
    }
  }

  lemma {:induction false} HasCodeIff(tokens: seq<Token>)
    ensures HasCode(tokens) <==> exists token :: token in tokens && token.kind.Code?
  {
    if tokens != [] {
      HasCodeIff(tokens[1..]);
      assert tokens[0] in tokens;
      forall token | token in tokens[1..] ensures token in tokens {}
    }
  }

  // ---------------------------------------------------------------- splitting distributes

  /** The tokens of a text once a line end follows it. */
  function WithLineEnd(tokens: seq<Token>): seq<Token> {
    if tokens != [] && OpenLine(Last(tokens).text) then
      tokens[..|tokens| - 1] + [Token(Comment, Last(tokens).text + "\n")]
    else tokens + [Token(Blank, "\n")]
  }

  lemma {:induction false} LineEndAlone(back: string, r: string)
    ensures Lex(back, "\n" + r) == Prepend([Token(Blank, "\n")], Lex(back + "\n", r))
  {
    var s := "\n" + r;
    assert s[0] == '\n' && NextToken(back, s) == Complete(Blank, 1);
    assert s[..1] == "\n" && s[1..] == r;
  }

  lemma {:induction false} OpenLineEnds(back: string, s: string, r: string)
    requires s != [] && NextToken(back, s + ("\n" + r)) == Complete(Comment, |s| + 1)
    requires OpenLine(s)
    ensures Lex(back, s + ("\n" + r)) == Prepend(WithLineEnd([Token(Comment, s)]), Lex(back + s + "\n", r))
  {
    hide NextToken;
    var x := s + ("\n" + r);
    assert x[..|s| + 1] == s + "\n" && x[|s| + 1..] == r;
    LexOne(back, x);
    assert back + (s + "\n") == back + s + "\n";
    assert [Token(Comment, s)][..0] + [Token(Comment, s + "\n")] == [Token(Comment, s + "\n")];
  }

  lemma {:induction false} LexLineEnd(back: string, s: string, r: string)
    requires Lex(back, s).Ok?
    ensures Lex(back, s + ("\n" + r))
            == Prepend(WithLineEnd(Lex(back, s).value), Lex(back + s + "\n", r))
    decreases |s|
  {
    hide NextToken;
    var w := "\n" + r;
    if s == [] {
      assert s + w == w && back + s + "\n" == back + "\n";
      LineEndAlone(back, r);
      assert WithLineEnd([]) == [Token(Blank, "\n")];
    } else {
      var next := NextToken(back, s);
      var first := Token(next.kind, s[..next.len]);
      var tail := Lex(back + s[..next.len], s[next.len..]).value;
      assert Lex(back, s).value == [first] + tail;
      NextTokenExtend(back, s, r, next.kind, next.len);
      if OpenLine(s) {
        assert s[..|s|] == s && s[|s|..] == [] && tail == [];
        OpenLineEnds(back, s, r);
      } else {
        assert (s + w)[..next.len] == s[..next.len];
        assert (s + w)[next.len..] == s[next.len..] + w;
        LexLineEnd(back + s[..next.len], s[next.len..], r);
        assert back + s[..next.len] + s[next.len..] + "\n" == back + s + "\n" by {
          assert s[..next.len] + s[next.len..] == s;
          assert back + s[..next.len] + s[next.len..] == back + s;
        }
        LineEndLater(back, s, first, tail);
        PrependPrepend([first], WithLineEnd(tail), Lex(back + s + "\n", r));
      }
    }
  }

  lemma {:induction false} LineEndLater(back: string, s: string, first: Token, tail: seq<Token>)
    requires s != [] && !OpenLine(s)
    requires Lex(back, s) == Ok([first] + tail) && first.text <= s
    requires tail == [] ==> first.text == s
    ensures [first] + WithLineEnd(tail) == WithLineEnd([first] + tail)
  {
    if tail != [] {
      assert Last([first] + tail) == Last(tail);
      assert ([first] + tail)[..|tail|] == [first] + tail[..|tail| - 1];
    }
  }

  lemma {:induction false} TrimEndLine(s: string)
    ensures TrimEnd(s + "\n") == TrimEnd(s)
  {
    var x := s + "\n";
    assert x[|x| - 1..] == "\n";
    assert SpaceAtEnd(x) == 1 && x[..|x| - 1] == s;
  }

  /** Trimming ignores a line end after the text. */
  lemma {:induction false} TrimLine(s: string)
    ensures Trim(s + "\n") == Trim(s)
    decreases |s|
  {
    var x := s + "\n";
    if s == [] {
      assert x[1..] == [];
    } else if SpaceAtStart(s) == 0 {
      SpaceBeforeLine(s);
      TrimEndLine(s);
    } else {
      SpaceBeforeLine(s);
      assert x[SpaceAtStart(s)..] == s[SpaceAtStart(s)..] + "\n";
      TrimLine(s[SpaceAtStart(s)..]);
    }
  }

  lemma {:induction false} SpaceBeforeLine(s: string)
    requires s != []
    ensures SpaceAtStart(s + "\n") == SpaceAtStart(s)
  {
  }

  /** A line end after a text leaves its statements as they are. */
  lemma {:induction false} StatementsLineEnd(tokens: seq<Token>)
    requires forall token :: token in tokens ==> WellFormed(token)
    ensures Statements(Segments(WithLineEnd(tokens))) == Statements(Segments(tokens))
  {
    hide Trim, WellFormed, OpenLine;
    if tokens != [] && OpenLine(Last(tokens).text) {
      var init, last := tokens[..|tokens| - 1], Last(tokens);
      assert tokens == init + [last] && last in tokens;
      OpenLineIsComment(last);
      SegmentsPush(init, last);
      SegmentsPush(init, Token(Comment, last.text + "\n"));
      var segments := Segments(init);
      ReplaceLast(segments, Last(segments), last, Token(Comment, last.text + "\n"));
    } else {
      SegmentsPush(tokens, Token(Blank, "\n"));
      var segments := Segments(tokens);
      var open := Last(segments);
      TextConcat(open, [Token(Blank, "\n")]);
      assert Text([Token(Blank, "\n")]) == "\n" + [] == "\n";
      HasCodePush(open, Token(Blank, "\n"));
      TrimLine(Text(open));
      StatementsPush(segments);
      var grown := segments[..|segments| - 1] + [open + [Token(Blank, "\n")]];
      assert grown[..|grown| - 1] == segments[..|segments| - 1];
      StatementsPush(grown);
    }
  }

  lemma {:induction false} OpenLineIsComment(token: Token)
    requires WellFormed(token) && OpenLine(token.text)
    ensures token.kind.Comment?
  {
  }

  lemma {:induction false} ReplaceLast(segments: seq<seq<Token>>, open: seq<Token>, a: Token, b: Token)
    requires segments != [] && open == Last(segments)
    requires a.kind == b.kind == Comment && b.text == a.text + "\n"
    ensures Statements(segments[..|segments| - 1] + [open + [a]])
            == Statements(segments[..|segments| - 1] + [open + [b]])
  {
    hide Trim;
    var init := segments[..|segments| - 1];
    TextConcat(open, [a]);
    TextConcat(open, [b]);
    assert Text([a]) == a.text + [] == a.text && Text([b]) == b.text + [] == b.text;
    assert Text(open) + (a.text + "\n") == Text(open) + a.text + "\n";
    HasCodePush(open, a);
    HasCodePush(open, b);
    TrimLine(Text(open) + a.text);
    assert (init + [open + [a]])[..|init|] == init && (init + [open + [b]])[..|init|] == init;
    StatementsPush(init + [open + [a]]);
    StatementsPush(init + [open + [b]]);
  }

  /** Splitting distributes over a separator on a line of its own, for every text after it. */
  lemma {:induction false} SplitIsHomomorphic(a: string, b: string)
    requires Split(a).Ok?
    ensures Split(a + ("\n;" + b)) == Prepend(Split(a).value, Split(b))
  {
    hide NextToken, Segments, Statements, WellFormed, WithLineEnd;
    var ta := Lex([], a).value;
    var semi := Token(Semicolon, ";");
    var closed := WithLineEnd(ta);
    assert "\n;" + b == "\n" + (";" + b) && [] + a + "\n" == a + "\n";
    LexLineEnd([], a, ";" + b);
    SeparatorAlone(a + "\n", b);
    LexAfterBreak(a + "\n" + ";", [], b);
    assert a + "\n" + ";" + [] == a + "\n" + ";";
    PrependPrepend(closed, [semi], Lex([], b));
    if Lex([], b).Ok? {
      var tb := Lex([], b).value;
      LexCovers([], a);
      StatementsLineEnd(ta);
      SegmentsSeparate(closed, semi, tb);
      StatementsConcat(Segments(closed), Segments(tb));
    }
  }

  lemma {:induction false} SeparatorAlone(back: string, r: string)
    ensures Lex(back, ";" + r) == Prepend([Token(Semicolon, ";")], Lex(back + ";", r))
  {
    var s := ";" + r;
    assert s[0] == ';' && NextToken(back, s) == Complete(Semicolon, 1);
    assert s[..1] == ";" && s[1..] == r;
  }

  lemma {:induction false} SegmentsSeparate(a: seq<Token>, semi: Token, b: seq<Token>)
    requires semi.kind.Semicolon?
    ensures Segments(a + [semi] + b) == Segments(a) + Segments(b)
  {
    hide Segments;
    SegmentsConcat(a + [semi], b);
    SegmentsPush(a, semi);
    GlueAtEmpty(Segments(a), Segments(b));
  }

  lemma {:induction false} GlueAtEmpty<T>(a: seq<seq<T>>, b: seq<seq<T>>)
    requires b != []
    ensures Glue(a + [[]], b) == a + b
  {
    var none: seq<T> := [];
    assert none + b[0] == b[0];
  }

  // ---------------------------------------------------------------- failure

  /** A token starts `k` bytes into the text. */
  ghost predicate TokenStarts(back: string, s: string, k: nat)
    decreases |s|
  {
    || k == 0
    || (&& s != [] && NextToken(back, s).Complete? && NextToken(back, s).len <= k <= |s|
        && TokenStarts(back + s[..NextToken(back, s).len], s[NextToken(back, s).len..], k - NextToken(back, s).len))
  }

  /** A quote, dollar quote or block comment starts at `k`, outside all others, and is never closed. */
  ghost predicate LeftOpen(back: string, s: string, k: nat) {
    k < |s| && TokenStarts(back, s, k) && NextToken(back + s[..k], s[k..]).Open?
  }

  lemma {:induction false} LeftOpenLater(back: string, s: string, k: nat)
    requires s != [] && NextToken(back, s).Complete?
    ensures var n := NextToken(back, s).len;
            && !LeftOpen(back, s, 0)
            && (n <= k ==> (LeftOpen(back, s, k) <==> LeftOpen(back + s[..n], s[n..], k - n)))
            && (0 < k < n ==> !LeftOpen(back, s, k))
  {
    hide NextToken;
    var n := NextToken(back, s).len;
    assert back + s[..0] == back && s[0..] == s;
    if n <= k < |s| {
      assert s[..k] == s[..n] + s[n..][..k - n] && s[n..][k - n..] == s[k..];
      assert back + s[..k] == back + s[..n] + s[n..][..k - n];
    }
  }

  /** Splitting fails exactly when the text ends inside a quote, dollar quote or block comment. */
  lemma {:induction false} FailsIffLeftOpen(back: string, s: string)
    ensures Lex(back, s).Err? <==> exists k: nat :: LeftOpen(back, s, k)
    decreases |s|
  {
    hide NextToken, TokenStarts, LeftOpen;
    if s == [] {
      NothingLexed(back);
      NothingLeftOpen(back);
    } else if NextToken(back, s).Open? {
      OpensAtOnce(back, s);
    } else {
      var n := NextToken(back, s).len;
      LexOne(back, s);
      FailsIffLeftOpen(back + s[..n], s[n..]);
      if Lex(back, s).Err? {
        var k: nat :| LeftOpen(back + s[..n], s[n..], k);
        LeftOpenLater(back, s, k + n);
      } else {
        forall k: nat ensures !LeftOpen(back, s, k) {
          LeftOpenLater(back, s, k);
        }
      }
    }
  }

  lemma {:induction false} NothingLeftOpen(back: string)
    ensures forall k: nat :: !LeftOpen(back, [], k)
  {
  }

  lemma {:induction false} OpensAtOnce(back: string, s: string)
    requires s != [] && NextToken(back, s).Open?
    ensures Lex(back, s).Err? && LeftOpen(back, s, 0)
  {
    hide NextToken;
    assert back + s[..0] == back && s[0..] == s;
  }

  // ---------------------------------------------------------------- statements split to themselves

  /** A text that starts with a separator: its first segment is empty, and the rest lexes on its own. */
  lemma {:induction false} LexFirstSemicolon(back: string, s: string)
    requires Lex(back, s).Ok? && s != [] && NextToken(back, s) == Complete(Semicolon, NextToken(back, s).len)
    ensures var segments := Segments(Lex(back, s).value);
            && segments[0] == [] && |segments| > 1 && s[0] == ';'
            && Lex([], s[1..]).Ok? && Segments(Lex([], s[1..]).value) == segments[1..]
  {
    hide NextToken;
    var n := NextToken(back, s).len;
    var token := Token(Semicolon, s[..n]);
    var back', s' := back + s[..n], s[n..];
    NextTokenWellFormed(back, s, Semicolon, n);
    assert n == 1 && s[..n] == ";";
    var tail := Lex(back', s').value;
    assert Lex(back, s).value == [token] + tail && ([token] + tail)[1..] == tail;
    assert Segments([token] + tail) == [[]] + Segments(tail);
    assert back' == back' + [];
    LexAfterBreak(back', [], s');
  }

  /** The first segment of a text, lexed alone, has the tokens it has in the text; what follows its
      separator lexes as a text of its own. */
  lemma {:induction false} LexFirstSegment(back: string, s: string)
    requires Lex(back, s).Ok?
    ensures var tokens := Lex(back, s).value;
            var first := Segments(tokens)[0];
            && Lex(back, Text(first)) == Ok(first)
            && if |Segments(tokens)| == 1 then s == Text(first)
               else
                 && |Text(first)| < |s| && s[|Text(first)|] == ';'
                 && Text(first) == s[..|Text(first)|]
                 && var rest := Lex([], s[|Text(first)| + 1..]);
                    rest.Ok? && Segments(rest.value) == Segments(tokens)[1..]
    decreases |s|
  {
    hide NextToken, Lex, Segments, Text;
    if s == [] {
      NothingLexed(back);
    } else {
      LexOne(back, s);
      var next := NextToken(back, s);
      var n := next.len;
      var token := Token(next.kind, s[..n]);
      var back', s' := back + s[..n], s[n..];
      var tail := Lex(back', s').value;
      if token.kind.Semicolon? {
        LexFirstSemicolon(back, s);
        NothingLexed(back);
      } else {
        LexFirstSegment(back', s');
        SegmentsOne(token, tail);
        var first' := Segments(tail)[0];
        var text := s[..n] + Text(first');
        assert s == text + s'[|Text(first')|..];
        NextTokenTruncate(back, text, s'[|Text(first')|..], next.kind, n);
        assert text[..n] == s[..n] && text[n..] == Text(first');
        LexOne(back, text);
        assert |Segments(tail)| > 1 ==> s'[|Text(first')| + 1..] == s[|text| + 1..];
      }
    }
  }

  lemma {:induction false} NothingLexed(back: string)
    ensures Lex(back, []) == Ok([]) && Segments([]) == [[]] && Text([]) == []
  {
  }

  lemma {:induction false} LexOne(back: string, s: string)
    requires s != [] && (NextToken(back, s).Complete? || Lex(back, s).Ok?)
    ensures var next := NextToken(back, s);
            next.Complete? && Lex(back, s) == Prepend([Token(next.kind, s[..next.len])], Lex(back + s[..next.len], s[next.len..]))
  {
    hide NextToken;
  }

  lemma {:induction false} SegmentsOne(token: Token, tail: seq<Token>)
    requires !token.kind.Semicolon?
    ensures Segments([token] + tail) == [[token] + Segments(tail)[0]] + Segments(tail)[1..]
    ensures Text([token] + Segments(tail)[0]) == token.text + Text(Segments(tail)[0])
  {
    assert ([token] + tail)[1..] == tail;
    assert ([token] + Segments(tail)[0])[1..] == Segments(tail)[0];
  }

  /** Every segment of a text lexes alone to itself. */
  lemma {:induction false} SegmentsLexAlone(s: string)
    requires Lex([], s).Ok?
    ensures forall segment :: segment in Segments(Lex([], s).value) ==>
              Lex([], Text(segment)) == Ok(segment)
    decreases |s|
  {
    hide NextToken, Text, Lex;
    LexFirstSegment([], s);
    var segments := Segments(Lex([], s).value);
    if |segments| > 1 {
      SegmentsLexAlone(s[|Text(segments[0])| + 1..]);
    }
    assert segments == [segments[0]] + segments[1..];
  }

  lemma {:induction false} LexWithoutBlank(s: string)
    requires s != [] && IsAsciiWhitespace(s[0]) && Lex([], s).Ok?
    ensures Lex([], s[1..]) == Ok(Lex([], s).value[1..]) && Lex([], s).value != []
    ensures Lex([], s).value[0].kind.Blank?
  {
    assert NextToken([], s) == Complete(Blank, 1);
    hide NextToken;
    assert [] + s[..1] + [] == s[..1] == [] + s[..1];
    LexAfterBreak(s[..1], [], s[1..]);
  }

  /** Cutting one white space byte off the end keeps a text's code, and adds no separator. */
  lemma {:induction false} LexWithoutEnd(back: string, s: string, c: char)
    requires IsAsciiWhitespace(c) && Lex(back, s + [c]).Ok?
    ensures Lex(back, s).Ok?
    ensures HasCode(Lex(back, s).value) == HasCode(Lex(back, s + [c]).value)
    ensures NoSeparator(Lex(back, s + [c]).value) ==> NoSeparator(Lex(back, s).value)
    decreases |s|
  {
    hide NextToken, WellFormed;
    var x := s + [c];
    var next := NextToken(back, x);
    var n := next.len;
    var tokens := Lex(back, x).value;
    var tail := Lex(back + x[..n], x[n..]).value;
    assert tokens == [tokens[0]] + tail && tokens[1..] == tail && tokens[0] in tokens;
    assert NoSeparator(tokens) ==> NoSeparator(tail) by {
      forall token | token in tail ensures token in tokens {}
    }
    if n <= |s| {
      NextTokenTruncate(back, s, [c], next.kind, n);
      assert x[..n] == s[..n] && x[n..] == s[n..] + [c];
      LexWithoutEnd(back + s[..n], s[n..], c);
      var tail' := Lex(back + s[..n], s[n..]).value;
      assert Lex(back, s).value == [tokens[0]] + tail' && ([tokens[0]] + tail')[1..] == tail';
    } else {
      assert x[..n] == x && x[n..] == [] && tail == [];
      NextTokenWellFormed(back, x, next.kind, n);
      LastToken(back, s, c, next.kind);
    }
  }

  /** A token that ends in white space is that byte alone, or a line comment. */
  lemma {:induction false} LastToken(back: string, s: string, c: char, kind: Kind)
    requires IsAsciiWhitespace(c) && WellFormed(Token(kind, s + [c]))
    requires NextToken(back, s + [c]) == Complete(kind, |s| + 1)
    ensures kind.Blank? || kind.Comment?
    ensures s == [] || (NextToken(back, s) == Complete(Comment, |s|) && Lex(back, s).Ok?
                        && Lex(back, s).value == [Token(Comment, s)])
  {
    hide SingleLen, DoubleLen, DollarLen, DelimiterLen;
    var x := s + [c];
    assert x[|s|] == c;
    if kind.Comment? && "--" <= x {
      assert "--" <= s;
      assert x[2..] == s[2..] + [c];
      LineExtend(s[2..], [c]);
      LineExtend(s[2..], []);
      assert s[2..] + [] == s[2..];
      assert s[..|s|] == s && s[|s|..] == [];
    }
  }

  // Trimming is about Unicode white space and lexing about ASCII white space; the two agree on a text
  // whose ends hold no other white space than the latter.

  predicate StartsClean(s: string)
    decreases |s|
  {
    SpaceAtStart(s) == 0 || (IsAsciiWhitespace(s[0]) && StartsClean(s[1..]))
  }

  predicate EndsClean(s: string)
    decreases |s|
  {
    SpaceAtEnd(s) == 0 || (SpaceAtEnd(s) == 1 && IsAsciiWhitespace(s[|s| - 1]) && EndsClean(s[..|s| - 1]))
  }

  /** Trimming drops nothing but ASCII white space from any segment that holds code. */
  ghost predicate CleanEdges(sql: string)
    requires Lex([], sql).Ok?
  {
    forall segment :: segment in Segments(Lex([], sql).value) && HasCode(segment) ==>
                        StartsClean(Text(segment)) && EndsClean(TrimStart(Text(segment)))
  }

  /** A text that is one statement: it lexes, with code and without separators. */
  predicate OneStatement(s: string) {
    var tokens := Lex([], s);
    tokens.Ok? && HasCode(tokens.value) && NoSeparator(tokens.value)
  }

  lemma {:induction false} TrimStartKeeps(s: string)
    requires OneStatement(s) && StartsClean(s)
    ensures OneStatement(TrimStart(s))
    decreases |s|
  {
    hide Lex, NextToken;
    if SpaceAtStart(s) != 0 {
      LexWithoutBlank(s);
      TrimStartKeeps(s[1..]);
    }
  }

  lemma {:induction false} EndKeeps(s: string, c: char)
    requires IsAsciiWhitespace(c) && OneStatement(s + [c])
    ensures OneStatement(s)
  {
    hide Lex;
    LexWithoutEnd([], s, c);
  }

  lemma {:induction false} TrimEndKeeps(s: string)
    requires OneStatement(s) && EndsClean(s)
    ensures OneStatement(TrimEnd(s))
    decreases |s|
  {
    hide OneStatement, SpaceAtEnd, IsAsciiWhitespace;
    if SpaceAtEnd(s) != 0 {
      var k := |s| - 1;
      assert s == s[..k] + [s[k]];
      EndKeeps(s[..k], s[k]);
      TrimEndKeeps(s[..k]);
    }
  }

  lemma {:induction false} TrimEndDone(s: string)
    ensures SpaceAtEnd(TrimEnd(s)) == 0
    decreases |s|
  {
    if SpaceAtEnd(s) != 0 { TrimEndDone(s[..|s| - SpaceAtEnd(s)]); }
  }

  lemma {:induction false} TrimStartDone(s: string)
    ensures SpaceAtStart(TrimStart(s)) == 0
    decreases |s|
  {
    if SpaceAtStart(s) != 0 { TrimStartDone(s[SpaceAtStart(s)..]); }
  }

  lemma {:induction false} TrimIdempotent(s: string)
    ensures Trim(Trim(s)) == Trim(s)
  {
    hide SpaceAtStart, SpaceAtEnd, TrimStart, TrimEnd;
    var u, t := TrimStart(s), Trim(s);
    TrimStartDone(s);
    TrimEndDone(u);
    assert u == t + u[|t|..];
    SpacePrefix(t, u[|t|..]);
    NothingToTrim(t);
  }

  lemma {:induction false} NothingToTrim(s: string)
    requires SpaceAtStart(s) == 0 && SpaceAtEnd(s) == 0
    ensures Trim(s) == s
  {
    hide SpaceAtStart, SpaceAtEnd;
  }

  lemma {:induction false} NoSeparatorIsOneSegment(tokens: seq<Token>)
    requires NoSeparator(tokens)
    ensures Segments(tokens) == [tokens]
  {
    if tokens != [] {
      assert tokens[0] in tokens;
      assert NoSeparator(tokens[1..]) by {
        forall token | token in tokens[1..] ensures token in tokens {}
      }
      NoSeparatorIsOneSegment(tokens[1..]);
      assert [tokens[0]] + tokens[1..] == tokens;
    }
  }

  lemma {:induction false} OneStatementSplits(s: string)
    requires OneStatement(s)
    ensures Split(s) == Ok([Trim(s)])
  {
    hide NextToken, Trim;
    var tokens := Lex([], s).value;
    LexCovers([], s);
    NoSeparatorIsOneSegment(tokens);
    var none: seq<seq<Token>> := [];
    assert [tokens][1..] == none && Emit(tokens) + [] == Emit(tokens);
    assert Statements([tokens]) == Emit(tokens);
  }

  lemma {:induction false} EmittedFromSegment(segments: seq<seq<Token>>, statement: string)
    requires statement in Statements(segments)
    ensures exists segment :: segment in segments && HasCode(segment) && statement == Trim(Text(segment))
  {
    hide Trim, Text, HasCode;
    if statement in Emit(segments[0]) {
      assert segments[0] in segments;
    } else {
      EmittedFromSegment(segments[1..], statement);
      var segment :| segment in segments[1..] && HasCode(segment) && statement == Trim(Text(segment));
      assert segment in segments;
    }
  }

  /** Each emitted statement splits to exactly itself when trimming drops only ASCII white space. */
  lemma {:induction false} EmittedStatementSplitsToItself(sql: string, statement: string)
    requires Split(sql).Ok? && CleanEdges(sql) && statement in Split(sql).value
    ensures Split(statement) == Ok([statement])
  {
    hide NextToken, WellFormed, Text, Lex, StartsClean, EndsClean;
    var segments := Segments(Lex([], sql).value);
    SplitCutsAtSeparators(sql);
    SegmentsLexAlone(sql);
    EmittedFromSegment(segments, statement);
    var segment :| segment in segments && HasCode(segment) && statement == Trim(Text(segment));
    TrimStartKeeps(Text(segment));
    TrimEndKeeps(TrimStart(Text(segment)));
    OneStatementSplits(statement);
    TrimIdempotent(Text(segment));
  }

  lemma {:induction false} SegmentShorter(segments: seq<seq<Token>>, segment: seq<Token>)
    requires segment in segments
    ensures |Text(segment)| <= |JoinSegments(segments)|
    ensures |segments| > 1 ==> |Text(segment)| < |JoinSegments(segments)|
  {
    hide Text;
    if segment != segments[0] {
      assert segment in segments[1..];
      SegmentShorter(segments[1..], segment);
    }
  }

  lemma {:induction false} TrimShortens(s: string)
    ensures |Trim(s)| <= |s|
  {
  }

  /** Exactly which emitted statements split to themselves: those that, on their own, still lex to code
      without a separator. */
  lemma {:induction false} EmittedSplitsIff(sql: string, statement: string)
    requires Split(sql).Ok? && statement in Split(sql).value
    ensures Split(statement) == Ok([statement]) <==> OneStatement(statement)
  {
    hide NextToken, WellFormed, Text, Lex, Trim, Segments, Statements, Emit, JoinSegments, HasCode, NoSeparator;
    SplitCutsAtSeparators(sql);
    EmittedFromSegment(Segments(Lex([], sql).value), statement);
    var segment :| segment in Segments(Lex([], sql).value) && HasCode(segment) && statement == Trim(Text(segment));
    TrimIdempotent(Text(segment));
    if OneStatement(statement) {
      OneStatementSplits(statement);
    } else if Split(statement) == Ok([statement]) {
      SelfSplitIsOneStatement(statement);
    }
  }

  lemma {:induction false} SelfSplitIsOneStatement(s: string)
    requires Split(s) == Ok([s])
    ensures OneStatement(s)
  {
    hide NextToken, WellFormed, Text, Lex, Trim, Segments, Statements, Emit, JoinSegments, HasCode, NoSeparator;
    SplitOfUnlexed(s);
    SplitCutsAtSeparators(s);
    var segments := Segments(Lex([], s).value);
    assert s in Statements(segments);
    EmittedFromSegment(segments, s);
    var segment :| segment in segments && HasCode(segment) && s == Trim(Text(segment));
    TrimShortens(Text(segment));
    SegmentShorter(segments, segment);
    OneSegmentIsAll(Lex([], s).value);
    assert segment == segments[0];
  }

  lemma {:induction false} SplitOfUnlexed(s: string)
    ensures Split(s).Ok? ==> Lex([], s).Ok?
  {
  }

  lemma {:induction false} OneSegmentIsAll(tokens: seq<Token>)
    ensures |Segments(tokens)| == 1 ==> Segments(tokens) == [tokens]
  {
    if tokens != [] && !tokens[0].kind.Semicolon? {
      OneSegmentIsAll(tokens[1..]);
      assert [tokens[0]] + tokens[1..] == tokens;
    }
  }

  lemma {:induction false} OneStatementEdges(s: string)
    requires OneStatement(s)
    ensures CleanEdges(s) <==> StartsClean(s) && EndsClean(TrimStart(s))
  {
    hide NextToken, Lex, StartsClean, EndsClean, TrimStart;
    var tokens := Lex([], s).value;
    LexCovers([], s);
    NoSeparatorIsOneSegment(tokens);
    assert tokens in Segments(tokens);
  }

  /** Neither a vertical tab nor a white space character outside ASCII occurs. */
  predicate Plain(s: string) {
    forall i :: 0 <= i < |s| ==> s[i] != '\U{000B}' && SpaceAtStart(s[i..]) <= 1
  }

  lemma {:induction false} SpacePrefix(s: string, w: string)
    ensures SpaceAtStart(s) > 0 ==> SpaceAtStart(s + w) == SpaceAtStart(s)
  {
  }

  lemma {:induction false} PlainParts(a: string, b: string)
    requires Plain(a + b)
    ensures Plain(a) && Plain(b)
  {
    var s := a + b;
    forall i | 0 <= i < |a| ensures a[i] != '\U{000B}' && SpaceAtStart(a[i..]) <= 1 {
      assert s[i] == a[i] && s[i..] == a[i..] + b;
      SpacePrefix(a[i..], b);
    }
    forall i | 0 <= i < |b| ensures b[i] != '\U{000B}' && SpaceAtStart(b[i..]) <= 1 {
      assert s[|a| + i] == b[i] && s[|a| + i..] == b[i..];
    }
  }

  lemma {:induction false} PlainEnd(s: string)
    requires Plain(s) && SpaceAtEnd(s) != 0
    ensures SpaceAtEnd(s) == 1 && IsAsciiWhitespace(s[|s| - 1])
  {
    var k := |s| - 1;
    assert s[k..] == [s[k]];
    if k >= 1 { assert SpaceAtStart(s[k - 1..]) <= 1; }
    if k >= 2 { assert SpaceAtStart(s[k - 2..]) <= 1; }
  }

  lemma {:induction false} PlainStart(s: string)
    requires Plain(s) && SpaceAtStart(s) != 0
    ensures SpaceAtStart(s) == 1 && IsAsciiWhitespace(s[0])
  {
    assert s[0..] == s && s[0] != '\U{000B}';
  }

  lemma {:induction false} PlainStartsClean(s: string)
    requires Plain(s)
    ensures StartsClean(s) && Plain(TrimStart(s))
    decreases |s|
  {
    hide SpaceAtStart, IsAsciiWhitespace, Plain;
    if SpaceAtStart(s) != 0 {
      PlainStart(s);
      assert s == s[..1] + s[1..];
      PlainParts(s[..1], s[1..]);
      PlainStartsClean(s[1..]);
    }
  }

  lemma {:induction false} PlainEndsClean(s: string)
    requires Plain(s)
    ensures EndsClean(s)
    decreases |s|
  {
    hide SpaceAtEnd, IsAsciiWhitespace;
    if SpaceAtEnd(s) != 0 {
      var k := |s| - 1;
      PlainEnd(s);
      assert s == s[..k] + [s[k]];
      PlainParts(s[..k], [s[k]]);
      PlainEndsClean(s[..k]);
    }
  }

  lemma {:induction false} PlainSegments(segments: seq<seq<Token>>)
    requires segments != [] && Plain(JoinSegments(segments))
    ensures forall segment :: segment in segments ==> Plain(Text(segment))
  {
    hide Plain;
    var first := Text(segments[0]);
    if |segments| > 1 {
      PlainParts(first + ";", JoinSegments(segments[1..]));
      PlainParts(first, ";");
      PlainSegments(segments[1..]);
    }
    assert segments == [segments[0]] + segments[1..];
  }

  /** Texts without vertical tabs and without white space outside ASCII qualify. */
  lemma {:induction false} PlainHasCleanEdges(sql: string)
    requires Plain(sql) && Lex([], sql).Ok?
    ensures CleanEdges(sql)
  {
    hide Plain, StartsClean, EndsClean, Text, Lex, Segments, TrimStart;
    var segments := Segments(Lex([], sql).value);
    SplitCutsAtSeparators(sql);
    PlainSegments(segments);
    forall segment | segment in segments
      ensures StartsClean(Text(segment)) && EndsClean(TrimStart(Text(segment)))
    {
      PlainStartsClean(Text(segment));
      PlainEndsClean(TrimStart(Text(segment)));
    }
  }

  /** The statements, each pair separated by a semicolon on a line of its own. */
  function JoinStatements(statements: seq<string>): string {
    if statements == [] then []
    else if |statements| == 1 then statements[0]
    else statements[0] + "\n;\n" + JoinStatements(statements[1..])
  }

  lemma {:induction false} SplitAfterLineEnd(s: string)
    ensures Split("\n" + s) == Split(s)
  {
    hide NextToken, Trim, HasCode;
    var blank := Token(Blank, "\n");
    LineEndAlone([], s);
    assert [] + "\n" + [] == "\n" == [] + "\n";
    LexAfterBreak("\n", [], s);
    if Lex([], s).Ok? {
      var tokens := Lex([], s).value;
      assert ([blank] + tokens)[1..] == tokens;
      var segments := Segments(tokens);
      var grown := [[blank] + segments[0]] + segments[1..];
      assert Segments([blank] + tokens) == grown && grown[1..] == segments[1..];
      LeadingBlank(segments[0]);
    }
  }

  lemma {:induction false} LeadingBlank(tokens: seq<Token>)
    ensures Emit([Token(Blank, "\n")] + tokens) == Emit(tokens)
  {
    var grown := [Token(Blank, "\n")] + tokens;
    assert grown[1..] == tokens && Text(grown) == "\n" + Text(tokens);
    assert SpaceAtStart(Text(grown)) == 1 && Text(grown)[1..] == Text(tokens);
  }

  /** Joining statements that split to themselves, then splitting, gives them back. */
  lemma {:induction false} JoinedStatementsSplitBack(statements: seq<string>)
    requires forall statement :: statement in statements ==> Split(statement) == Ok([statement])
    ensures Split(JoinStatements(statements)) == Ok(statements)
  {
    hide Split;
    if statements == [] {
      SplitEmpty();
    } else if |statements| == 1 {
      assert statements[0] in statements && statements == [statements[0]];
    } else {
      var first, rest := statements[0], statements[1..];
      assert first in statements;
      forall statement | statement in rest ensures statement in statements {}
      JoinedStatementsSplitBack(rest);
      SplitIsHomomorphic(first, "\n" + JoinStatements(rest));
      SplitAfterLineEnd(JoinStatements(rest));
      JoinOneMore(statements);
      assert [first] + rest == statements;
    }
  }

  lemma {:induction false} JoinOneMore(statements: seq<string>)
    requires |statements| > 1
    ensures JoinStatements(statements) == statements[0] + ("\n;" + ("\n" + JoinStatements(statements[1..])))
  {
  }

  lemma {:induction false} SplitEmpty()
    ensures Split("") == Ok([])
  {
    var none: seq<Token> := [];
    assert Segments(none) == [none] && Emit(none) == [];
    assert [none][1..] == [] && Statements([none]) == Emit(none) + Statements([none][1..]);
  }

  /** Splitting, joining with separators on their own lines, and splitting again is splitting once. */
  lemma {:induction false} SplitRoundTrip(sql: string)
    requires Split(sql).Ok? && CleanEdges(sql)
    ensures Split(JoinStatements(Split(sql).value)) == Split(sql)
  {
    hide Split;
    forall statement | statement in Split(sql).value
      ensures Split(statement) == Ok([statement])
    {
      EmittedStatementSplitsToItself(sql, statement);
    }
    JoinedStatementsSplitBack(Split(sql).value);
  }

  /** Outside that condition the round trip fails: a vertical tab counts as code but is trimmed. */
  lemma {:induction false} VerticalTabBreaksRoundTrip()
    ensures Split("\U{000B}") == Ok([""]) && Split("") == Ok([])
    ensures Lex([], "\U{000B}").Ok? && !CleanEdges("\U{000B}")
  {
    hide Lex, Trim, Split, CleanEdges, OneStatement;
    SplitEmpty();
    var tab := "\U{000B}";
    VerticalTabIsOneStatement(tab);
    OneStatementSplits(tab);
    OneStatementLexes(tab);
    VerticalTabIsTrimmed(tab);
  }

  lemma {:induction false} OneStatementLexes(s: string)
    requires OneStatement(s)
    ensures Lex([], s).Ok?
    ensures !StartsClean(s) ==> !CleanEdges(s)
  {
    hide Lex, StartsClean, CleanEdges;
    OneStatementEdges(s);
  }

  lemma {:induction false} VerticalTabIsOneStatement(tab: string)
    requires tab == "\U{000B}"
    ensures OneStatement(tab)
  {
    hide NextToken, TrimStart, TrimEnd;
    var token := Token(Code, tab);
    OneByteOfCode(tab);
    assert tab[1..] == [] && tab[..1] == tab && [token] + [] == [token];
    assert Lex([] + tab, []) == Ok([]);
    assert Lex([], tab) == Ok([token]);
    assert [token][1..] == [] && token in [token];
  }

  lemma {:induction false} OneByteOfCode(tab: string)
    requires tab == "\U{000B}"
    ensures NextToken([], tab) == Complete(Code, 1)
  {
    assert tab[0] == '\U{000B}';
  }

  lemma {:induction false} VerticalTabIsTrimmed(tab: string)
    requires tab == "\U{000B}"
    ensures Trim(tab) == "" && !StartsClean(tab)
  {
    assert SpaceAtStart(tab) == 1 && tab[1..] == [];
    assert TrimStart(tab) == TrimStart([]) == [];
  }

  /** A no-break space before `E'` hides the escape-string prefix that trimming then uncovers. */
  lemma {:induction false} NoBreakSpaceBreaksRoundTrip()
    ensures Split(['\U{00C2}', '\U{00A0}'] + "E'\\'") == Ok(["E'\\'"])
    ensures Split("E'\\'") == Err(OpenSingleQuote)
    ensures var s := ['\U{00C2}', '\U{00A0}'] + "E'\\'"; Lex([], s).Ok? && !CleanEdges(s)
  {
    hide Lex, NextToken, HasCode, TrimStart, CleanEdges, StartsClean;
    var quoted := "E'\\'";
    EscapeStringStaysOpen(quoted);
    var s := ['\U{00C2}', '\U{00A0}'] + quoted;
    assert [] + s[..1] == s[..1] && s[..1] + s[1..][..1] == s[..2] && s[..2] + s[2..][..1] == s[..3];
    assert s[1..][1..] == s[2..] && s[2..][1..] == s[3..] == "'\\'";
    assert s[..3][2] == 'E' && s[..3][1] == '\U{00A0}' && !QuoteUsesBackslash(s[..3]);
    QuoteAfterIdentifier(s[..3], s[3..]);
    CodeByte(s[..2], s[2..]);
    CodeByte(s[..1], s[1..]);
    CodeByte([], s);
    OneStatementSplits(s);
    OneStatementLexes(s);
    TrimNoBreakSpace(s, quoted);
  }

  lemma {:induction false} TrimNoBreakSpace(s: string, quoted: string)
    requires quoted == "E'\\'" && s == ['\U{00C2}', '\U{00A0}'] + quoted
    ensures Trim(s) == quoted && !StartsClean(s)
  {
    hide TrimEnd, SpaceAtEnd, SpaceAtStart;
    assert s[2..] == quoted;
    QuotedHasNoSpace(s, quoted);
    assert TrimStart(s) == TrimStart(quoted) == quoted;
    NothingToTrim(quoted);
  }

  lemma {:induction false} QuotedHasNoSpace(s: string, quoted: string)
    requires quoted == "E'\\'" && s == ['\U{00C2}', '\U{00A0}'] + quoted
    ensures SpaceAtStart(s) == 2 && SpaceAtStart(quoted) == 0 && SpaceAtEnd(quoted) == 0
  {
    assert quoted[3..] == "'" && quoted[2..] == "\\'" && quoted[1..] == "'\\'";
  }

  lemma {:induction false} EscapeStringStaysOpen(quoted: string)
    requires quoted == "E'\\'"
    ensures Split(quoted) == Err(OpenSingleQuote)
  {
    assert quoted[0] == 'E' && NextToken([], quoted) == Complete(Code, 1);
    assert [] + quoted[..1] == "E" && quoted[1..] == "'\\'";
    assert "'\\'"[1..] == "\\'" && "\\'"[2..] == [];
    assert SingleLen("\\'", true) == None;
    assert "'\\'"[0] == '\'' && NextToken("E", "'\\'") == Open(OpenSingleQuote);
    assert Lex([] + quoted[..1], quoted[1..]) == Err(OpenSingleQuote);
  }

  lemma {:induction false} CodeByte(back: string, s: string)
    requires s != [] && (s[0] as int >= 128 || s[0] == 'E')
    requires Lex(back + s[..1], s[1..]).Ok? && NoSeparator(Lex(back + s[..1], s[1..]).value)
    ensures Lex(back, s).Ok? && HasCode(Lex(back, s).value) && NoSeparator(Lex(back, s).value)
  {
    assert NextToken(back, s) == Complete(Code, 1);
  }

  lemma {:induction false} QuoteAfterIdentifier(back: string, s: string)
    requires s == "'\\'" && !QuoteUsesBackslash(back)
    ensures Lex(back, s).Ok? && NoSeparator(Lex(back, s).value)
  {
    assert s[1..] == "\\'" && "\\'"[1..] == "'";
    assert SingleLen("'", false) == Some(1);
    assert s[0] == '\'' && NextToken(back, s) == Complete(Code, 3);
    assert s[3..] == [];
  }

  // ---------------------------------------------------------------- UTF-8

  /** Bytes of a character whose first byte is `c`; 0 when no character starts so. */
  function CharLen(c: char): nat {
    var b := c as int;
    if b < 0x80 then 1 else if 0xC2 <= b <= 0xDF then 2 else if 0xE0 <= b <= 0xEF then 3
    else if 0xF0 <= b <= 0xF4 then 4 else 0
  }

  predicate IsContinuation(c: char) { 0x80 <= c as int <= 0xBF }

  /** Lead bytes followed by their continuation bytes. */
  predicate ValidUtf8(s: string) {
    s == [] ||
    var n := CharLen(s[0]);
    && 0 < n <= |s|
    && (forall i :: 1 <= i < n ==> IsContinuation(s[i]))
    && ValidUtf8(s[n..])
  }

  lemma {:induction false} Utf8AroundSemicolon(x: string, y: string)
    requires ValidUtf8(x + ";" + y)
    ensures ValidUtf8(x) && ValidUtf8(y)
    decreases |x|
  {
    var s := x + ";" + y;
    if x == [] {
      assert s[1..] == y;
    } else {
      var n := CharLen(x[0]);
      assert s[|x|] == ';';
      assert s[n..] == x[n..] + ";" + y;
      assert forall i :: 1 <= i < n ==> s[i] == x[i];
      Utf8AroundSemicolon(x[n..], y);
    }
  }

  /** Every cut falls between characters: each segment of valid UTF-8 is valid UTF-8. */
  lemma {:induction false} SegmentsAreUtf8(sql: string)
    requires ValidUtf8(sql) && Lex([], sql).Ok?
    ensures forall segment :: segment in Segments(Lex([], sql).value) ==> ValidUtf8(Text(segment))
  {
    SplitCutsAtSeparators(sql);
    JoinedUtf8(Segments(Lex([], sql).value));
  }

  lemma {:induction false} JoinedUtf8(segments: seq<seq<Token>>)
    requires segments != [] && ValidUtf8(JoinSegments(segments))
    ensures forall segment :: segment in segments ==> ValidUtf8(Text(segment))
  {
    hide ValidUtf8;
    if |segments| > 1 {
      Utf8AroundSemicolon(Text(segments[0]), JoinSegments(segments[1..]));
      JoinedUtf8(segments[1..]);
    }
    assert segments == [segments[0]] + segments[1..];
  }
}

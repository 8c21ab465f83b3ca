/** Exactly when splitting, joining and splitting again is splitting once. */
module PostgresRoundTrip {
  import opened Wrappers
  import opened Sequences
  import opened PostgresLexer
  import opened PostgresSplitter
  import opened PostgresSplitterLaws

  // ---------------------------------------------------------------- bytes of white space

  /** Every byte of a white space character, ASCII or not, is one of these. */
  predicate SpaceByte(c: char) {
    9 <= c as int <= 13 || c == ' ' || c as int >= 128
  }

  predicate Spaces(w: string) {
    forall k :: 0 <= k < |w| ==> SpaceByte(w[k])
  }

  lemma {:induction false} SpaceAtStartBytes(s: string)
    ensures Spaces(s[..SpaceAtStart(s)])
  {
  }

  lemma {:induction false} SpaceAtEndBytes(s: string)
    ensures Spaces(s[|s| - SpaceAtEnd(s)..])
  {
    hide SpaceAtStart, Spaces;
    var end := s[|s| - SpaceAtEnd(s)..];
    SpaceAtStartBytes(end);
    assert end == end[..|end|];
    if end == "" { NoSpaces(); }
  }

  lemma {:induction false} NoSpaces()
    ensures Spaces("")
  {
  }

  lemma {:induction false} JoinSpaces(a: string, b: string)
    requires Spaces(a) && Spaces(b)
    ensures Spaces(a + b)
  {
  }

  lemma {:induction false} TrimStartOnce(s: string)
    ensures TrimStart(s) == if SpaceAtStart(s) == 0 then s else TrimStart(s[SpaceAtStart(s)..])
  {
    hide SpaceAtStart;
  }

  lemma {:induction false} TrimEndOnce(s: string)
    ensures TrimEnd(s) == if SpaceAtEnd(s) == 0 then s else TrimEnd(s[..|s| - SpaceAtEnd(s)])
  {
    hide SpaceAtEnd;
  }

  lemma {:induction false} TrimStartSplits(s: string) returns (w: string)
    ensures s == w + TrimStart(s) && Spaces(w)
    decreases |s|
  {
    hide SpaceAtStart, Spaces, TrimStart;
    TrimStartOnce(s);
    NoSpaces();
    var n := SpaceAtStart(s);
    w := "";
    if n != 0 {
      var rest := TrimStartSplits(s[n..]);
      SpaceAtStartBytes(s);
      JoinSpaces(s[..n], rest);
      w := s[..n] + rest;
      assert s == s[..n] + s[n..];
    }
  }

  lemma {:induction false} TrimEndSplits(s: string) returns (w: string)
    ensures s == TrimEnd(s) + w && Spaces(w)
    decreases |s|
  {
    hide SpaceAtEnd, Spaces, TrimEnd;
    TrimEndOnce(s);
    NoSpaces();
    var n := |s| - SpaceAtEnd(s);
    w := "";
    if n != |s| {
      var rest := TrimEndSplits(s[..n]);
      SpaceAtEndBytes(s);
      JoinSpaces(rest, s[n..]);
      w := rest + s[n..];
      assert s == s[..n] + s[n..];
    }
  }

  lemma {:induction false} TrimSplits(s: string) returns (before: string, after: string)
    ensures s == before + Trim(s) + after && Spaces(before) && Spaces(after)
  {
    hide TrimStart, TrimEnd, SpaceByte;
    before := TrimStartSplits(s);
    after := TrimEndSplits(TrimStart(s));
  }

  // ---------------------------------------------------------------- lexing past white space

  lemma {:induction false} SpaceIsOneToken(back: string, s: string)
    requires s != "" && SpaceByte(s[0])
    ensures NextToken(back, s).Complete? && NextToken(back, s).len == 1 && !NextToken(back, s).kind.Semicolon?
  {
  }

  lemma {:induction false} NoSeparatorTail(token: Token, tail: seq<Token>)
    ensures NoSeparator([token] + tail) <==> !token.kind.Semicolon? && NoSeparator(tail)
  {
    var tokens := [token] + tail;
    assert token in tokens && forall t :: t in tail ==> t in tokens;
  }

  /** Bytes of white space in front are tokens of their own. */
  lemma {:induction false} LexOverSpaces(back: string, w: string, s: string)
    requires Spaces(w) && Lex(back, w + s).Ok?
    ensures Lex(back + w, s).Ok?
    ensures NoSeparator(Lex(back, w + s).value) ==> NoSeparator(Lex(back + w, s).value)
    decreases |w|
  {
    hide NextToken, SpaceByte, NoSeparator;
    if w == "" {
      assert w + s == s && back + w == back;
    } else {
      var x := w + s;
      SpaceIsOneToken(back, x);
      LexOne(back, x);
      assert x[1..] == w[1..] + s && x[..1] == w[..1] && back + w == back + x[..1] + w[1..];
      assert forall k :: 0 <= k < |w[1..]| ==> w[1..][k] == w[k + 1];
      LexOverSpaces(back + x[..1], w[1..], s);
      NoSeparatorTail(Token(NextToken(back, x).kind, x[..1]), Lex(back + x[..1], x[1..]).value);
    }
  }

  /** The text cannot begin with the prefix of an escape string. */
  predicate Insensitive(s: string) {
    s == "" || s[0] !in {'e', 'E', 'u', 'U'}
  }

  lemma {:induction false} LookBehindSame(w: string, back: string)
    requires Spaces(w) && Insensitive(back)
    ensures QuoteUsesBackslash(w + back) == QuoteUsesBackslash(back)
  {
    var all := w + back;
    if |back| >= 3 {
      assert all[|all| - 1] == back[|back| - 1] && all[|all| - 2] == back[|back| - 2] && all[|all| - 3] == back[|back| - 3];
    } else if |back| == 2 {
      assert all[|all| - 1] == back[1] && all[|all| - 2] == back[0];
    } else if |back| == 1 {
      assert all[|all| - 1] == back[0];
      assert |w| > 0 ==> all[|all| - 2] == w[|w| - 1];
    } else {
      assert all == w;
    }
  }

  lemma {:induction false} NextTokenSame(back: string, back': string, s: string)
    requires s != "" && QuoteUsesBackslash(back) == QuoteUsesBackslash(back')
    ensures NextToken(back, s) == NextToken(back', s)
  {
    hide SingleLen, DoubleLen, DollarLen, DelimiterLen, BlockLen, LineLen, QuoteUsesBackslash;
  }

  /** White space in front makes no difference to what follows, unless that begins with such a prefix. */
  lemma {:induction false} LexAfterSpaces(w: string, back: string, s: string)
    requires Spaces(w) && Insensitive(back + s)
    ensures Lex(w + back, s) == Lex(back, s)
    decreases |s|
  {
    hide NextToken, SpaceByte, QuoteUsesBackslash;
    if s != "" {
      assert back != "" ==> back[0] == (back + s)[0];
      LookBehindSame(w, back);
      NextTokenSame(w + back, back, s);
      var next := NextToken(back, s);
      if next.Complete? {
        assert w + back + s[..next.len] == w + (back + s[..next.len]);
        assert back + s[..next.len] + s[next.len..] == back + s;
        LexAfterSpaces(w, back + s[..next.len], s[next.len..]);
      }
    }
  }

  /** A token that ends in a byte of white space is that byte alone, or a line comment. */
  lemma {:induction false} LastTokenOfSpace(back: string, s: string, c: char, kind: Kind)
    requires SpaceByte(c) && WellFormed(Token(kind, s + [c])) && s != ""
    requires NextToken(back, s + [c]) == Complete(kind, |s| + 1)
    ensures NextToken(back, s) == Complete(Comment, |s|)
  {
    hide SingleLen, DoubleLen, DollarLen, DelimiterLen, QuoteUsesBackslash;
    var x := s + [c];
    assert x[|s|] == c;
    if kind.Comment? && "--" <= x {
      assert "--" <= s;
      assert x[2..] == s[2..] + [c];
      LineExtend(s[2..], [c]);
      LineExtend(s[2..], []);
      assert s[2..] + [] == s[2..];
    }
  }

  /** Cutting a byte of white space off the end keeps a text lexing, and adds no separator. */
  lemma {:induction false} LexWithoutSpace(back: string, s: string, c: char)
    requires SpaceByte(c) && Lex(back, s + [c]).Ok?
    ensures Lex(back, s).Ok?
    ensures NoSeparator(Lex(back, s + [c]).value) ==> NoSeparator(Lex(back, s).value)
    decreases |s|
  {
    hide NextToken, SpaceByte, NoSeparator, WellFormed;
    var x := s + [c];
    if s == "" {
      NothingLexed(back);
      NothingSeparates();
    } else {
      LexOne(back, x);
      var next := NextToken(back, x);
      var n := next.len;
      NoSeparatorTail(Token(next.kind, x[..n]), Lex(back + x[..n], x[n..]).value);
      if n <= |s| {
        NextTokenTruncate(back, s, [c], next.kind, n);
        LexOne(back, s);
        assert x[..n] == s[..n] && x[n..] == s[n..] + [c];
        LexWithoutSpace(back + s[..n], s[n..], c);
        NoSeparatorTail(Token(next.kind, s[..n]), Lex(back + s[..n], s[n..]).value);
      } else {
        assert x[..n] == x;
        NextTokenWellFormed(back, x, next.kind, n);
        LastTokenOfSpace(back, s, c, next.kind);
        LexOne(back, s);
        assert s[..|s|] == s && s[|s|..] == "";
        NothingLexed(back + s);
        NoSeparatorTail(Token(Comment, s), []);
        NothingSeparates();
      }
    }
  }

  lemma {:induction false} NothingSeparates()
    ensures NoSeparator([])
  {
  }

  lemma {:induction false} LexWithoutSpaces(s: string, w: string)
    requires Spaces(w) && Lex([], s + w).Ok? && NoSeparator(Lex([], s + w).value)
    ensures Lex([], s).Ok? && NoSeparator(Lex([], s).value)
    decreases |w|
  {
    hide SpaceByte, NoSeparator, Lex;
    if w == "" {
      assert s + w == s;
    } else {
      var init, c := w[..|w| - 1], w[|w| - 1];
      assert s + w == s + init + [c];
      LexWithoutSpace([], s + init, c);
      LexWithoutSpaces(s, init);
    }
  }

  // ---------------------------------------------------------------- what an emitted statement can be

  /** It lexes to comments and white space only. */
  predicate Silent(s: string) {
    Lex([], s).Ok? && NoSeparator(Lex([], s).value) && !HasCode(Lex([], s).value)
  }

  predicate Trimmed(s: string) {
    SpaceAtStart(s) == 0 && SpaceAtEnd(s) == 0
  }

  predicate Emittable(s: string) {
    Trimmed(s) && (OneStatement(s) || Silent(s) || !Insensitive(s))
  }

  lemma {:induction false} TrimmedSegment(segment: seq<Token>)
    requires Lex([], Text(segment)) == Ok(segment) && NoSeparator(segment)
    ensures Emittable(Trim(Text(segment)))
  {
    hide SpaceByte, NoSeparator, Lex, HasCode, Text, SpaceAtStart, SpaceAtEnd, TrimStart, TrimEnd;
    var t := Text(segment);
    var s := Trim(t);
    TrimIsTrimmed(t);
    if Insensitive(s) {
      var before, after := TrimSplits(t);
      assert t == before + (s + after) && [] + before == before && before + [] == before;
      LexOverSpaces([], before, s + after);
      if s == "" {
        SilentNothing();
      } else {
        assert [] + (s + after) == s + after;
        LexAfterSpaces(before, [], s + after);
        LexWithoutSpaces(s, after);
      }
    }
  }

  lemma {:induction false} TrimIsTrimmed(t: string)
    ensures Trimmed(Trim(t))
  {
    hide SpaceAtStart, SpaceAtEnd;
    var u := TrimStart(t);
    TrimStartDone(t);
    TrimEndDone(u);
    assert u == TrimEnd(u) + u[|TrimEnd(u)|..];
    SpacePrefix(TrimEnd(u), u[|TrimEnd(u)|..]);
  }

  lemma {:induction false} SilentNothing()
    ensures Silent("")
  {
  }

  lemma {:induction false} EmittedIsEmittable(sql: string, statement: string)
    requires Split(sql).Ok? && statement in Split(sql).value
    ensures Emittable(statement)
  {
    hide NextToken, WellFormed, Text, Lex, Trim, Segments, Statements, Emit, JoinSegments, HasCode, NoSeparator;
    SplitOfUnlexed(sql);
    SplitCutsAtSeparators(sql);
    SegmentsLexAlone(sql);
    EmittedFromSegment(Segments(Lex([], sql).value), statement);
    var segment :| segment in Segments(Lex([], sql).value) && HasCode(segment) && statement == Trim(Text(segment));
    TrimmedSegment(segment);
  }

  // ---------------------------------------------------------------- joined statements

  lemma {:induction false} EmitsFirst(segments: seq<seq<Token>>)
    requires segments != [] && HasCode(segments[0])
    ensures Statements(segments) != [] && Statements(segments)[0] == Trim(Text(segments[0]))
  {
    hide HasCode, Trim, Text;
  }

  /** The first segment of such a text holds code, and its statement begins as the text does. */
  lemma {:induction false} SensitiveFirst(t: string)
    requires !Insensitive(t) && Lex([], t).Ok?
    ensures var segments := Segments(Lex([], t).value);
            HasCode(segments[0]) && Text(segments[0]) != "" && Text(segments[0])[0] == t[0]
  {
    hide NextToken, Lex, Text, Segments;
    LetterIsCode([], t);
    LexOne([], t);
    var n := NextToken([], t).len;
    var token, tail := Token(Code, t[..n]), Lex([] + t[..n], t[n..]).value;
    SegmentsOne(token, tail);
    assert Lex([], t).value == [token] + tail;
  }

  lemma {:induction false} LetterIsCode(back: string, t: string)
    requires !Insensitive(t)
    ensures NextToken(back, t) == Complete(Code, 1)
  {
  }

  /** Trimming keeps a first byte that is not white space. */
  lemma {:induction false} TrimKeepsFirst(t: string) returns (after: string)
    requires t != "" && !SpaceByte(t[0])
    ensures t == Trim(t) + after && Spaces(after) && Trim(t) != "" && Trim(t)[0] == t[0]
  {
    hide Trim;
    var before;
    before, after := TrimSplits(t);
    assert t == before + (Trim(t) + after);
    NoSpaceInFront(before, Trim(t) + after);
    assert t == Trim(t) + after;
    MoreThanSpace(Trim(t), after);
  }

  lemma {:induction false} NoSpaceInFront(before: string, t: string)
    requires Spaces(before) && before + t != "" && !SpaceByte((before + t)[0])
    ensures before == ""
  {
  }

  lemma {:induction false} MoreThanSpace(t: string, after: string)
    requires Spaces(after) && t + after != "" && !SpaceByte((t + after)[0])
    ensures t != "" && t[0] == (t + after)[0]
  {
  }

  lemma {:induction false} StatementBeginsAlike(t: string)
    requires !Insensitive(t) && Split(t).Ok?
    ensures Split(t).value != [] && Split(t).value[0] != "" && Split(t).value[0][0] == t[0]
  {
    hide NextToken, Lex, Text, Segments, HasCode, Trim, Statements;
    SensitiveFirst(t);
    var segments := Segments(Lex([], t).value);
    EmitsFirst(segments);
    var after := TrimKeepsFirst(Text(segments[0]));
  }

  lemma {:induction false} SilentSplits(s: string)
    requires Silent(s)
    ensures Split(s) == Ok([]) && Insensitive(s) && !OneStatement(s)
  {
    hide NextToken, Lex, Text, HasCode, Trim, Segments, NoSeparator;
    var tokens := Lex([], s).value;
    NoSeparatorIsOneSegment(tokens);
    assert [tokens][1..] == [] && Statements([]) == [] && Emit(tokens) == [];
    assert Statements([tokens]) == Emit(tokens) + Statements([tokens][1..]);
    if !Insensitive(s) { SensitiveFirst(s); }
  }

  /** What a first statement that lexes alone contributes. */
  lemma {:induction false} JoinSplitsOff(statements: seq<string>)
    requires |statements| > 1 && Split(statements[0]).Ok?
    ensures Split(JoinStatements(statements))
         == Prepend(Split(statements[0]).value, Split(JoinStatements(statements[1..])))
  {
    hide Split, JoinStatements;
    JoinOneMore(statements);
    SplitIsHomomorphic(statements[0], "\n" + JoinStatements(statements[1..]));
    SplitAfterLineEnd(JoinStatements(statements[1..]));
  }

  lemma {:induction false} OneStatementIs(s: string)
    requires OneStatement(s) && Trimmed(s)
    ensures Split(s) == Ok([s])
  {
    hide OneStatement, SpaceAtStart, SpaceAtEnd, Split, Trim;
    OneStatementSplits(s);
    NothingToTrim(s);
  }

  lemma {:induction false} JoinBegins(statements: seq<string>)
    requires statements != [] && statements[0] != ""
    ensures JoinStatements(statements) != "" && JoinStatements(statements)[0] == statements[0][0]
  {
  }

  /** Joined statements never begin with one that is silent. */
  lemma {:induction false} NeverBeginsSilent(statements: seq<string>, x: string)
    requires (forall k :: 0 <= k < |statements| ==> Emittable(statements[k])) && Silent(x)
    ensures var r := Split(JoinStatements(statements)); r.Ok? && r.value != [] ==> r.value[0] != x
    decreases |statements|
  {
    hide Silent, OneStatement, Trimmed, Split, JoinStatements, SpaceByte;
    SilentSplits(x);
    if statements == [] {
      SplitEmpty();
      JoinsNothing();
    } else {
      var s := statements[0];
      if !Insensitive(s) {
        JoinBegins(statements);
        var t := JoinStatements(statements);
        if Split(t).Ok? { StatementBeginsAlike(t); }
      } else if |statements| == 1 {
        JoinsOne(s);
        assert statements == [s];
        if OneStatement(s) { OneStatementIs(s); } else { SilentSplits(s); }
      } else {
        if OneStatement(s) { OneStatementIs(s); } else { SilentSplits(s); }
        JoinSplitsOff(statements);
        NeverBeginsSilent(statements[1..], x);
        var r := Split(JoinStatements(statements[1..]));
        assert r.Ok? ==> [] + r.value == r.value;
      }
    }
  }

  lemma {:induction false} JoinsNothing()
    ensures JoinStatements([]) == ""
  {
  }

  lemma {:induction false} JoinsOne(s: string)
    ensures JoinStatements([s]) == s
  {
  }

  /** If a text that begins with this statement and a separator line splits off just this statement,
      then it is one on its own. */
  lemma {:induction false} SplitOffIsOne(s: string, rest: string)
    requires !Insensitive(s) && Trimmed(s)
    requires var t := s + ("\n;" + rest); Split(t).Ok? && Split(t).value != [] && Split(t).value[0] == s
    ensures OneStatement(s)
  {
    hide NextToken, Lex, Text, Segments, HasCode, Trim, Statements, NoSeparator, SpaceAtStart, SpaceAtEnd;
    var t := s + ("\n;" + rest);
    SplitOfUnlexed(t);
    SensitiveFirst(t);
    SplitCutsAtSeparators(t);
    LexFirstSegment([], t);
    var segments := Segments(Lex([], t).value);
    EmitsFirst(segments);
    var first := Text(segments[0]);
    var after := TrimKeepsFirst(first);
    assert first == s + after && segments[0] in segments;
    FirstSegmentEnds(s, rest, after);
    assert OneStatement(first);
    EndKeeps(s, '\n');
  }

  /** A segment that goes on behind the statement with white space only ends at the separator line. */
  lemma {:induction false} FirstSegmentEnds(s: string, rest: string, after: string)
    requires Spaces(after)
    requires var t := s + ("\n;" + rest);
             var first := s + after;
             first == t || (|first| < |t| && t[|first|] == ';' && first == t[..|first|])
    ensures after == "\n"
  {
    var t := s + ("\n;" + rest);
    var first := s + after;
    assert t[|s|] == '\n' && t[|s| + 1] == ';' && !SpaceByte(';');
    assert forall k :: 0 <= k < |after| ==> after[k] == first[|s| + k] == t[|s| + k];
    assert |first| == |s| + |after|;
  }

  lemma {:induction false} JoinedBackAreOne(statements: seq<string>)
    requires forall k :: 0 <= k < |statements| ==> Emittable(statements[k])
    requires Split(JoinStatements(statements)) == Ok(statements)
    ensures forall k :: 0 <= k < |statements| ==> OneStatement(statements[k])
    decreases |statements|
  {
    hide Silent, OneStatement, Trimmed, Split, JoinStatements, SpaceByte;
    if |statements| == 1 {
      JoinsOne(statements[0]);
      assert statements == [statements[0]];
      SelfSplitIsOneStatement(statements[0]);
    } else if |statements| > 1 {
      var s, rest := statements[0], statements[1..];
      if !OneStatement(s) && Insensitive(s) {
        NeverBeginsSilent(statements, s);
        assert false;
      }
      if !OneStatement(s) {
        JoinOneMore(statements);
        SplitOffIsOne(s, "\n" + JoinStatements(rest));
      }
      OneStatementIs(s);
      JoinSplitsOff(statements);
      TailOf(statements, Split(JoinStatements(rest)));
      JoinedBackAreOne(rest);
    }
  }

  lemma {:induction false} TailOf(statements: seq<string>, r: Result<seq<string>, LexError>)
    requires statements != [] && Prepend([statements[0]], r) == Ok(statements)
    ensures r == Ok(statements[1..])
  {
    assert ([statements[0]] + r.value)[1..] == r.value;
  }

  /** Splitting, joining with separators on their own lines, and splitting again is splitting once, if
      and only if each statement on its own lexes to code without a separator. */
  lemma {:induction false} SplitRoundTripIff(sql: string)
    requires Split(sql).Ok?
    ensures Split(JoinStatements(Split(sql).value)) == Split(sql)
            <==> forall statement :: statement in Split(sql).value ==> OneStatement(statement)
  {
    hide Split, OneStatement, Trimmed, Silent, JoinStatements;
    var statements := Split(sql).value;
    forall k | 0 <= k < |statements| ensures Emittable(statements[k]) {
      EmittedIsEmittable(sql, statements[k]);
    }
    if forall statement :: statement in statements ==> OneStatement(statement) {
      forall statement | statement in statements ensures Split(statement) == Ok([statement]) {
        EmittedSplitsIff(sql, statement);
      }
      JoinedStatementsSplitBack(statements);
    }
    if Split(JoinStatements(statements)) == Ok(statements) {
      JoinedBackAreOne(statements);
    }
  }
}

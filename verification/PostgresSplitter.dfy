/** The single-pass scanner that cuts migration SQL into statements, proved to compute the
    recursive specification `PostgresLexer.Split`. */
module PostgresSplitter {
  import opened Wrappers
  import opened Sequences
  import opened PostgresLexer

  datatype State =
    | Normal
    | SingleQuoted(escapes: bool)
    | DoubleQuoted
    | DollarQuoted(delimiter: string)
    | LineComment
    | BlockComment(depth: nat)

  ghost predicate ValidState(state: State) {
    && (state.DollarQuoted? ==> state.delimiter != [])
    && (state.BlockComment? ==> state.depth > 0)
  }

  predicate InQuote(state: State) {
    state.SingleQuoted? || state.DoubleQuoted? || state.DollarQuoted?
  }

  /** How the construct being scanned ends, when `n` of its bytes are behind and `rest` is ahead. */
  ghost function Resume(state: State, n: nat, rest: string): Next
    requires ValidState(state) && !state.Normal?
  {
    match state
    case SingleQuoted(escapes) => Close(Code, n, SingleLen(rest, escapes), OpenSingleQuote)
    case DoubleQuoted => Close(Code, n, DoubleLen(rest), OpenDoubleQuote)
    case DollarQuoted(delimiter) => Close(Code, n, DollarLen(rest, delimiter), OpenDollarQuote(delimiter))
    case LineComment => Complete(Comment, n + LineLen(rest))
    case BlockComment(depth) => Close(Comment, n, BlockLen(rest, depth), OpenBlockComment)
  }

  /** Joins two lists of segments: the last of the first continues in the first of the second. */
  function Glue<T>(x: seq<seq<T>>, y: seq<seq<T>>): (r: seq<seq<T>>)
    requires x != [] && y != []
    ensures r != []
  {
    x[..|x| - 1] + [Last(x) + y[0]] + y[1..]
  }

  lemma {:induction false} GlueFirst<T>(first: seq<T>, x: seq<seq<T>>, y: seq<seq<T>>)
    requires x != [] && y != []
    ensures Glue([first] + x, y) == [first] + Glue(x, y)
    ensures Glue([first + x[0]] + x[1..], y) == [first + Glue(x, y)[0]] + Glue(x, y)[1..]
  {
    assert Last([first] + x) == Last(x);
    assert ([first] + x)[..|x|] == [first] + x[..|x| - 1];
    var z := [first + x[0]] + x[1..];
    if |x| == 1 {
      assert first + (x[0] + y[0]) == first + x[0] + y[0];
    } else {
      assert Last(z) == Last(x);
      assert z[..|x| - 1] == [first + x[0]] + x[1..|x| - 1];
    }
  }

  lemma {:induction false} SegmentsConcat(a: seq<Token>, b: seq<Token>)
    ensures Segments(a + b) == Glue(Segments(a), Segments(b))
  {
    if a == [] {
      assert a + b == b;
      assert [] + Segments(b)[0] == Segments(b)[0];
    } else {
      assert (a + b)[1..] == a[1..] + b;
      SegmentsConcat(a[1..], b);
      GlueFirst(if a[0].kind.Semicolon? then [] else [a[0]], Segments(a[1..]), Segments(b));
    }
  }

  lemma {:induction false} StatementsConcat(a: seq<seq<Token>>, b: seq<seq<Token>>)
    ensures Statements(a + b) == Statements(a) + Statements(b)
  {
    if a == [] {
      assert a + b == b;
    } else {
      assert (a + b)[1..] == a[1..] + b;
      StatementsConcat(a[1..], b);
      assert Emit(a[0]) + (Statements(a[1..]) + Statements(b))
          == Emit(a[0]) + Statements(a[1..]) + Statements(b);
    }
  }

  lemma {:induction false} TextConcat(a: seq<Token>, b: seq<Token>)
    ensures Text(a + b) == Text(a) + Text(b)
  {
    if a == [] {
      assert a + b == b;
    } else {
      assert (a + b)[1..] == a[1..] + b;
      TextConcat(a[1..], b);
    }
  }

  /** What the scanner knows when the tokens before position `t` are complete. */
  ghost predicate Scanned(sql: string, tokens: seq<Token>, t: nat, start: nat, statements: seq<string>)
  {
    var segments := Segments(tokens);
    && start <= t <= |sql|
    && Text(Last(segments)) == sql[start..t]
    && statements == Statements(segments[..|segments| - 1])
  }

  /** One more token extends the open segment, or ends it. */
  lemma {:induction false} SegmentsPush(tokens: seq<Token>, token: Token)
    ensures var segments := Segments(tokens);
            Segments(tokens + [token])
            == if token.kind.Semicolon? then segments + [[]]
               else segments[..|segments| - 1] + [Last(segments) + [token]]
  {
    SegmentsConcat(tokens, [token]);
    var none: seq<seq<Token>> := [[]];
    assert [token][1..] == [] && Segments([]) == none && none[1..] == [];
    var segments := Segments(tokens);
    var init, open := segments[..|segments| - 1], Last(segments);
    assert segments == init + [open];
    if token.kind.Semicolon? {
      assert Segments([token]) == none + none && (none + none)[1..] == none;
      assert open + [] == open;
      assert init + [open] + [[]] == segments + [[]];
    } else {
      assert [token] + [] == [token];
      assert Segments([token]) == [[token]] && [[token]][1..] == [];
      assert init + [open + [token]] + [] == init + [open + [token]];
    }
  }

  lemma {:induction false} PrependPrepend<T, E>(a: seq<T>, b: seq<T>, rest: Result<seq<T>, E>)
    ensures Prepend(a, Prepend(b, rest)) == Prepend(a + b, rest)
    ensures Prepend([], rest) == rest
  {
    if rest.Ok? {
      assert a + (b + rest.value) == a + b + rest.value;
      assert [] + rest.value == rest.value;
    }
  }

  /** Slices around position `t + n`. */
  lemma {:induction false} Slices(sql: string, t: nat, n: nat)
    requires t + n <= |sql|
    ensures sql[t..][..n] == sql[t..t + n] && sql[t..][n..] == sql[t + n..]
    ensures sql[..t] + sql[t..t + n] == sql[..t + n]
    ensures forall start :: 0 <= start <= t ==> sql[start..t] + sql[t..t + n] == sql[start..t + n]
  {
  }

  lemma {:induction false} LexPush(sql: string, tokens: seq<Token>, t: nat, kind: Kind, n: nat)
    requires t < |sql| && Lex([], sql) == Prepend(tokens, Lex(sql[..t], sql[t..]))
    requires NextToken(sql[..t], sql[t..]) == Complete(kind, n)
    ensures Lex([], sql)
            == Prepend(tokens + [Token(kind, sql[t..t + n])], Lex(sql[..t + n], sql[t + n..]))
  {
    var back, rest := sql[..t], sql[t..];
    assert Lex(back, rest) == Prepend([Token(kind, rest[..n])], Lex(back + rest[..n], rest[n..]));
    Slices(sql, t, n);
    PrependPrepend(tokens, [Token(kind, rest[..n])], Lex(back + rest[..n], rest[n..]));
  }

  /** The scanner's knowledge after a token inside a segment. */
  lemma {:induction false} PushPart(sql: string, tokens: seq<Token>, t: nat, start: nat, statements: seq<string>,
                 token: Token, n: nat)
    requires Scanned(sql, tokens, t, start, statements) && t + n <= |sql|
    requires !token.kind.Semicolon? && token.text == sql[t..t + n]
    ensures Scanned(sql, tokens + [token], t + n, start, statements)
    ensures HasCode(Last(Segments(tokens + [token])))
            == (HasCode(Last(Segments(tokens))) || token.kind.Code?)
  {
    var segments := Segments(tokens);
    var init, open := segments[..|segments| - 1], Last(segments);
    SegmentsPush(tokens, token);
    assert (init + [open + [token]])[..|init|] == init;
    TextConcat(open, [token]);
    assert Text([token]) == token.text + [];
    Slices(sql, t, n);
    HasCodePush(open, token);
  }

  lemma {:induction false} NoText()
    ensures Text([]) == []
  {
  }

  /** The scanner's knowledge after a separator. */
  lemma {:induction false} PushSeparator(sql: string, tokens: seq<Token>, t: nat, start: nat, statements: seq<string>,
                      token: Token)
    requires Scanned(sql, tokens, t, start, statements) && t < |sql| && token.kind.Semicolon?
    ensures Scanned(sql, tokens + [token], t + 1, t + 1, statements + Emit(Last(Segments(tokens))))
    ensures Last(Segments(tokens + [token])) == []
  {
    hide TrimStart, TrimEnd, HasCode, Statements, Text;
    var segments := Segments(tokens);
    var init, open := segments[..|segments| - 1], Last(segments);
    SegmentsPush(tokens, token);
    assert segments == init + [open];
    assert (segments + [[]])[..|segments|] == segments;
    StatementsPush(segments);
    assert sql[t + 1..t + 1] == [] && Text([]) == [] by { NoText(); }
  }

  lemma {:induction false} HasCodePush(tokens: seq<Token>, token: Token)
    ensures HasCode(tokens + [token]) == (HasCode(tokens) || token.kind.Code?)
  {
    if tokens == [] {
      assert [token][1..] == [] && [] + [token] == [token];
    } else {
      assert (tokens + [token])[1..] == tokens[1..] + [token];
      HasCodePush(tokens[1..], token);
    }
  }

  /** Follows a dollar quote's tag; exactly the specified delimiter, or none. */
  method DollarQuoteDelimiter(sql: string, start: nat) returns (r: Option<string>)
    requires start < |sql|
    ensures r == match DelimiterLen(sql[start..])
                 case None => None
                 case Some(n) => Some(sql[start..start + n])
  {
    if start + 1 >= |sql| {
      return None;
    }
    var next := sql[start + 1];
    if next == '$' {
      return Some(sql[start..start + 2]);
    }
    if !IsIdentifierStart(next) {
      return None;
    }
    var index := start + 2;
    while index < |sql|
      invariant start + 2 <= index <= |sql|
      invariant DelimiterLen(sql[start..]) == TagEnd(sql[start..], index - start)
    {
      if sql[index] == '$' {
        return Some(sql[start..index + 1]);
      }
      if !IsIdentifierContinue(sql[index]) {
        return None;
      }
      index := index + 1;
    }
    return None;
  }

  lemma {:induction false} BytesAt(sql: string, index: nat)
    requires index < |sql|
    ensures var rest := sql[index..];
            && rest != [] && rest[0] == sql[index] && rest[1..] == sql[index + 1..]
            && ("--" <= rest <==> index + 1 < |sql| && sql[index] == '-' && sql[index + 1] == '-')
            && ("/*" <= rest <==> index + 1 < |sql| && sql[index] == '/' && sql[index + 1] == '*')
            && (index + 1 < |sql| ==> rest[2..] == sql[index + 2..])
  {
  }

  lemma {:induction false} DelimiterAt(sql: string, index: nat, delimiter: string)
    requires index <= |sql| && delimiter <= sql[index..]
    ensures index + |delimiter| <= |sql| && sql[index..][..|delimiter|] == delimiter
    ensures sql[index..][|delimiter|..] == sql[index + |delimiter|..]
  {
  }

  /** One step outside quotes and comments. `code` says whether the byte belongs to a statement. */
  method StepNormal(sql: string, index: nat) returns (state: State, next: nat, code: bool)
    requires index < |sql|
    ensures index < next <= |sql| && ValidState(state)
    ensures sql[index] == ';' ==> next == index + 1
    ensures var token := NextToken(sql[..index], sql[index..]);
            if state.Normal? then
              && token.Complete? && token.len == next - index
              && code == token.kind.Code? && (token.kind.Semicolon? <==> sql[index] == ';')
            else
              && token == Resume(state, next - index, sql[next..])
              && code == InQuote(state) && sql[index] != ';'
  {
    hide SingleLen, DoubleLen, DollarLen, DelimiterLen, LineLen, BlockLen, QuoteUsesBackslash;
    BytesAt(sql, index);
    var byte := sql[index];
    var hasNext := index + 1 < |sql|;
    if byte == '-' && hasNext && sql[index + 1] == '-' {
      state, next, code := LineComment, index + 2, false;
    } else if byte == '/' && hasNext && sql[index + 1] == '*' {
      state, next, code := BlockComment(1), index + 2, false;
    } else if byte == '\'' {
      state, next, code := SingleQuoted(QuoteUsesBackslash(sql[..index])), index + 1, true;
    } else if byte == '"' {
      state, next, code := DoubleQuoted, index + 1, true;
    } else if byte == '$' {
      var delimiter := DollarQuoteDelimiter(sql, index);
      if delimiter.Some? {
        state, next, code := DollarQuoted(delimiter.value), index + |delimiter.value|, true;
        DelimiterAt(sql, index, delimiter.value);
      } else {
        state, next, code := Normal, index + 1, true;
      }
    } else {
      state, next, code := Normal, index + 1, byte != ';' && !IsAsciiWhitespace(byte);
    }
  }

  lemma {:induction false} SingleStep(sql: string, i: nat, escapes: bool)
    requires i < |sql|
    ensures SingleLen(sql[i..], escapes)
            == if escapes && sql[i] == '\\' then
                 if i + 1 == |sql| then None else Plus(2, SingleLen(sql[i + 2..], escapes))
               else if sql[i] == '\'' then
                 if i + 1 < |sql| && sql[i + 1] == '\'' then Plus(2, SingleLen(sql[i + 2..], escapes))
                 else Some(1)
               else Plus(1, SingleLen(sql[i + 1..], escapes))
  {
    assert sql[i..][1..] == sql[i + 1..];
    if i + 1 < |sql| { assert sql[i..][2..] == sql[i + 2..]; }
  }

  lemma {:induction false} DoubleStep(sql: string, i: nat)
    requires i < |sql|
    ensures DoubleLen(sql[i..])
            == if sql[i] == '"' then
                 if i + 1 < |sql| && sql[i + 1] == '"' then Plus(2, DoubleLen(sql[i + 2..])) else Some(1)
               else Plus(1, DoubleLen(sql[i + 1..]))
  {
    assert sql[i..][1..] == sql[i + 1..];
    if i + 1 < |sql| { assert sql[i..][2..] == sql[i + 2..]; }
  }

  lemma {:induction false} DollarStep(sql: string, i: nat, delimiter: string)
    requires i < |sql| && delimiter != []
    ensures DollarLen(sql[i..], delimiter)
            == if delimiter <= sql[i..] then Some(|delimiter|)
               else Plus(1, DollarLen(sql[i + 1..], delimiter))
  {
    assert sql[i..][1..] == sql[i + 1..];
  }

  lemma {:induction false} LineStep(sql: string, i: nat)
    requires i < |sql|
    ensures LineLen(sql[i..])
            == if sql[i] == '\n' || sql[i] == '\r' then 1 else 1 + LineLen(sql[i + 1..])
  {
    assert sql[i..][1..] == sql[i + 1..];
  }

  lemma {:induction false} BlockStep(sql: string, i: nat, depth: nat)
    requires i < |sql| && depth > 0
    ensures BlockLen(sql[i..], depth)
            == if "/*" <= sql[i..] then Plus(2, BlockLen(sql[i + 2..], depth + 1))
               else if "*/" <= sql[i..] then
                 if depth == 1 then Some(2) else Plus(2, BlockLen(sql[i + 2..], depth - 1))
               else Plus(1, BlockLen(sql[i + 1..], depth))
  {
    assert sql[i..][1..] == sql[i + 1..];
    if i + 1 < |sql| { assert sql[i..][2..] == sql[i + 2..]; }
  }

  lemma {:induction false} NothingCloses(rest: string, escapes: bool)
    requires rest == []
    ensures SingleLen(rest, escapes) == None
  {
  }

  /** One step inside a string or quoted identifier. */
  method StepQuoted(sql: string, index: nat, was: State) returns (state: State, next: nat)
    requires index < |sql| && ValidState(was) && InQuote(was)
    ensures index < next <= |sql| && (state.Normal? || state == was)
    ensures Resume(was, 0, sql[index..])
            == if state.Normal? then Complete(Code, next - index)
               else Resume(state, next - index, sql[next..])
  {
    hide SingleLen, DoubleLen, DollarLen;
    state, next := was, index + 1;
    match was {
      case SingleQuoted(escapes) =>
        SingleStep(sql, index, escapes);
        if escapes && sql[index] == '\\' {
          next := index + (if index + 1 < |sql| then 1 else 0) + 1;
          if index + 1 == |sql| { NothingCloses(sql[next..], escapes); }
        } else if sql[index] == '\'' {
          if index + 1 < |sql| && sql[index + 1] == '\'' {
            next := index + 2;
          } else {
            state := Normal;
          }
        }
      case DoubleQuoted =>
        DoubleStep(sql, index);
        if sql[index] == '"' {
          if index + 1 < |sql| && sql[index + 1] == '"' {
            next := index + 2;
          } else {
            state := Normal;
          }
        }
      case DollarQuoted(delimiter) =>
        DollarStep(sql, index, delimiter);
        if delimiter <= sql[index..] {
          state, next := Normal, index + |delimiter|;
        }
    }
  }

  /** One step inside a comment. */
  method StepComment(sql: string, index: nat, was: State) returns (state: State, next: nat)
    requires index < |sql| && ValidState(was) && (was.LineComment? || was.BlockComment?)
    ensures index < next <= |sql| && ValidState(state) && !InQuote(state)
    ensures Resume(was, 0, sql[index..])
            == if state.Normal? then Complete(Comment, next - index)
               else Resume(state, next - index, sql[next..])
  {
    hide LineLen, BlockLen;
    state, next := was, index + 1;
    match was {
      case LineComment =>
        LineStep(sql, index);
        if sql[index] == '\n' || sql[index] == '\r' {
          state := Normal;
        }
      case BlockComment(depth) =>
        BlockStep(sql, index, depth);
        if "/*" <= sql[index..] {
          state, next := BlockComment(depth + 1), index + 2;
        } else if "*/" <= sql[index..] {
          state, next := if depth == 1 then Normal else BlockComment(depth - 1), index + 2;
        }
    }
  }

  lemma {:induction false} ResumeShift(state: State, n: nat, rest: string)
    requires ValidState(state) && !state.Normal?
    ensures Resume(state, n, rest)
            == match Resume(state, 0, rest)
               case Open(e) => Open(e)
               case Complete(kind, k) => Complete(kind, n + k)
  {
  }

  /** The scanner's loop invariant: the tokens before `t` are complete, and the construct that
      starts at `t`, if any, ends as `state` says. */
  ghost predicate Inv(sql: string, tokens: seq<Token>, t: nat, start: nat, statements: seq<string>,
                      hasCode: bool, state: State, index: nat)
  {
    && start <= t <= index <= |sql| && ValidState(state)
    && Lex([], sql) == Prepend(tokens, Lex(sql[..t], sql[t..]))
    && Scanned(sql, tokens, t, start, statements)
    && hasCode == (HasCode(Last(Segments(tokens))) || InQuote(state))
    && if state.Normal? then t == index
       else t < index && NextToken(sql[..t], sql[t..]) == Resume(state, index - t, sql[index..])
  }

  lemma {:induction false} InvInit(sql: string)
    ensures Inv(sql, [], 0, 0, [], false, Normal, 0)
  {
    assert sql[..0] == [] && sql[0..] == sql && sql[0..0] == [];
    PrependPrepend([], [], Lex([], sql));
  }

  lemma {:induction false} SeparatorKeeps(sql: string, tokens: seq<Token>, t: nat, start: nat, statements: seq<string>,
                       hasCode: bool)
    requires Inv(sql, tokens, t, start, statements, hasCode, Normal, t) && t < |sql|
    requires NextToken(sql[..t], sql[t..]) == Complete(Semicolon, 1)
    ensures Inv(sql, tokens + [Token(Semicolon, sql[t..t + 1])], t + 1, t + 1,
                if hasCode then statements + [Trim(sql[start..t])] else statements, false, Normal, t + 1)
  {
    hide Lex, NextToken, Resume, Segments, Text, TrimStart, TrimEnd;
    LexPush(sql, tokens, t, Semicolon, 1);
    PushSeparator(sql, tokens, t, start, statements, Token(Semicolon, sql[t..t + 1]));
  }

  lemma {:induction false} TokenKeeps(sql: string, tokens: seq<Token>, t: nat, start: nat, statements: seq<string>,
                   hasCode: bool, state: State, index: nat, kind: Kind, next: nat)
    requires Inv(sql, tokens, t, start, statements, hasCode, state, index)
    requires t < next <= |sql| && !kind.Semicolon? && (InQuote(state) ==> kind.Code?)
    requires NextToken(sql[..t], sql[t..]) == Complete(kind, next - t)
    ensures Inv(sql, tokens + [Token(kind, sql[t..next])], next, start, statements,
                hasCode || kind.Code?, Normal, next)
  {
    hide Lex, NextToken, Resume, Segments, Text;
    LexPush(sql, tokens, t, kind, next - t);
    PushPart(sql, tokens, t, start, statements, Token(kind, sql[t..next]), next - t);
  }

  lemma {:induction false} StatementsPush(segments: seq<seq<Token>>)
    requires segments != []
    ensures Statements(segments) == Statements(segments[..|segments| - 1]) + Emit(Last(segments))
  {
    var init, open := segments[..|segments| - 1], Last(segments);
    assert segments == init + [open];
    StatementsConcat(init, [open]);
    assert [open][1..] == [] && Emit(open) + [] == Emit(open);
  }

  /** A step inside a construct leads on inside it, or completes it. */
  lemma {:induction false} InsideKeeps(sql: string, tokens: seq<Token>, t: nat, start: nat, statements: seq<string>,
                    hasCode: bool, state: State, index: nat, kind: Kind, state': State, next: nat)
    requires Inv(sql, tokens, t, start, statements, hasCode, state, index)
    requires !state.Normal? && index < next <= |sql| && ValidState(state')
    requires kind == if InQuote(state) then Code else Comment
    requires Resume(state, 0, sql[index..])
             == if state'.Normal? then Complete(kind, next - index)
                else Resume(state', next - index, sql[next..])
    requires !state'.Normal? ==> InQuote(state') == InQuote(state)
    ensures if state'.Normal? then NextToken(sql[..t], sql[t..]) == Complete(kind, next - t)
            else Inv(sql, tokens, t, start, statements, hasCode, state', next)
  {
    hide Lex, NextToken, Resume, Segments, Text, HasCode, TrimStart, TrimEnd, Scanned;
    ResumeShift(state, index - t, sql[index..]);
    if !state'.Normal? {
      ResumeShift(state', next - index, sql[next..]);
      ResumeShift(state', next - t, sql[next..]);
    }
  }

  lemma {:induction false} LineAtEnd(sql: string, tokens: seq<Token>, t: nat, start: nat, statements: seq<string>,
                                     hasCode: bool)
    requires Inv(sql, tokens, t, start, statements, hasCode, LineComment, |sql|)
    ensures NextToken(sql[..t], sql[t..]) == Complete(Comment, |sql| - t)
  {
    hide Lex, NextToken, Segments, Text, HasCode, TrimStart, TrimEnd, Scanned;
    assert sql[|sql|..] == [];
  }

  lemma {:induction false} FinishKeeps(sql: string, tokens: seq<Token>, start: nat, statements: seq<string>,
                                       hasCode: bool)
    requires Inv(sql, tokens, |sql|, start, statements, hasCode, Normal, |sql|)
    ensures Split(sql) == Ok(if hasCode then statements + [Trim(sql[start..])] else statements)
  {
    hide NextToken, Resume, Segments, Text, TrimStart, TrimEnd, HasCode, Statements;
    assert sql[|sql|..] == [] && sql[start..|sql|] == sql[start..];
    assert tokens + [] == tokens && statements + [] == statements;
    assert Lex([], sql) == Ok(tokens);
    StatementsPush(Segments(tokens));
  }

  lemma {:induction false} OpenAtEnd(sql: string, tokens: seq<Token>, t: nat, start: nat, statements: seq<string>,
                  hasCode: bool, state: State)
    requires Inv(sql, tokens, t, start, statements, hasCode, state, |sql|)
    requires InQuote(state) || state.BlockComment?
    ensures Split(sql) == Err(OpenError(state))
  {
    assert sql[|sql|..] == [];
  }

  function OpenError(state: State): LexError
    requires InQuote(state) || state.BlockComment?
  {
    match state
    case SingleQuoted(_) => OpenSingleQuote
    case DoubleQuoted => OpenDoubleQuote
    case DollarQuoted(delimiter) => OpenDollarQuote(delimiter)
    case BlockComment(_) => OpenBlockComment
  }

  method SplitStatements(sql: string) returns (r: Result<seq<string>, LexError>)
    ensures r == Split(sql)
  {
    hide Lex, NextToken, Resume, Segments, Text, HasCode, TrimStart, TrimEnd, Scanned;
    var statements: seq<string> := [];
    var state := Normal;
    var start, index := 0, 0;
    var hasCode := false;
    ghost var tokens: seq<Token> := [];
    ghost var t := 0;
    InvInit(sql);
    while index < |sql|
      invariant Inv(sql, tokens, t, start, statements, hasCode, state, index)
      decreases |sql| - index
    {
      ghost var state0, index0, hasCode0 := state, index, hasCode;
      ghost var kind := if InQuote(state) then Code else Comment;
      if state.Normal? {
        var byte := sql[index];
        var code;
        state, index, code := StepNormal(sql, index);
        if byte == ';' {
          SeparatorKeeps(sql, tokens, t, start, statements, hasCode);
          tokens, t := tokens + [Token(Semicolon, sql[t..index])], index;
          if hasCode {
            statements := statements + [Trim(sql[start..index - 1])];
          }
          start := index;
          hasCode := false;
        } else {
          hasCode := hasCode || code;
          if state.Normal? {
            kind := NextToken(sql[..t], sql[t..]).kind;
          }
        }
      } else {
        if InQuote(state) {
          state, index := StepQuoted(sql, index, state);
        } else {
          state, index := StepComment(sql, index, state);
        }
        InsideKeeps(sql, tokens, t, start, statements, hasCode, state0, index0, kind, state, index);
      }
      if state.Normal? && t < index {
        TokenKeeps(sql, tokens, t, start, statements, hasCode0, state0, index0, kind, index);
        tokens, t := tokens + [Token(kind, sql[t..index])], index;
      }
    }
    if InQuote(state) || state.BlockComment? {
      OpenAtEnd(sql, tokens, t, start, statements, hasCode, state);
      return Err(OpenError(state));
    }
    if state.LineComment? {
      LineAtEnd(sql, tokens, t, start, statements, hasCode);
      TokenKeeps(sql, tokens, t, start, statements, hasCode, state, index, Comment, index);
      tokens, t := tokens + [Token(Comment, sql[t..index])], index;
    }
    FinishKeeps(sql, tokens, start, statements, hasCode);
    if hasCode {
      statements := statements + [Trim(sql[start..])];
    }
    return Ok(statements);
  }
}

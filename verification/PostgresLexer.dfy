/** The lexical structure that the PostgreSQL statement splitter recognises, as a recursive
    specification: what a quoted string, a dollar quote, a comment and a separator are, and how a
    text falls into tokens. Follows sections 4.1.2 and 4.1.5 of the PostgreSQL manual as the code does.

    A text is a `string` whose characters stand for the bytes of its UTF-8 form. Nothing here uses
    that a byte is below 256, so every statement covers all byte strings. */
module PostgresLexer {
  import opened Wrappers

  datatype LexError =
    | OpenSingleQuote
    | OpenDoubleQuote
    | OpenDollarQuote(delimiter: string)
    | OpenBlockComment

  /** `Semicolon` is a separator outside every quote and comment. */
  datatype Kind = Blank | Comment | Code | Semicolon

  datatype Token = Token(kind: Kind, text: string)

  /** The construct that starts at a position: a token of the given length, or one that never ends. */
  datatype Next = Complete(kind: Kind, len: nat) | Open(error: LexError)

  predicate IsAsciiWhitespace(c: char) {
    c == ' ' || c == '\t' || c == '\n' || c == '\r' || c == '\U{000C}'
  }

  predicate IsIdentifierStart(c: char) {
    'a' <= c <= 'z' || 'A' <= c <= 'Z' || c == '_' || c as int >= 128
  }

  predicate IsIdentifierContinue(c: char) {
    IsIdentifierStart(c) || '0' <= c <= '9' || c == '$'
  }

  /** Whether a quote after the text `back` opens a string with backslash escapes: `E'` or `U&'`
      not preceded by an identifier character. */
  predicate QuoteUsesBackslash(back: string) {
    var n := |back|;
    || (n > 0 && (back[n - 1] == 'e' || back[n - 1] == 'E')
        && (n == 1 || !IsIdentifierContinue(back[n - 2])))
    || (n > 1 && (back[n - 2] == 'u' || back[n - 2] == 'U') && back[n - 1] == '&'
        && (n == 2 || !IsIdentifierContinue(back[n - 3])))
  }

  function Plus(n: nat, rest: Option<nat>): (r: Option<nat>) {
    match rest
    case None => None
    case Some(k) => Some(n + k)
  }

  /** Length of the rest of a single-quoted string, its closing quote included. */
  function SingleLen(s: string, escapes: bool): (r: Option<nat>)
    ensures r.Some? ==> 0 < r.value <= |s| && s[r.value - 1] == '\''
  {
    if s == [] then None
    else if escapes && s[0] == '\\' then
      if |s| == 1 then None else Plus(2, SingleLen(s[2..], escapes))
    else if s[0] == '\'' then
      if |s| > 1 && s[1] == '\'' then Plus(2, SingleLen(s[2..], escapes)) else Some(1)
    else Plus(1, SingleLen(s[1..], escapes))
  }

  /** Length of the rest of a double-quoted identifier, its closing quote included. */
  function DoubleLen(s: string): (r: Option<nat>)
    ensures r.Some? ==> 0 < r.value <= |s| && s[r.value - 1] == '"'
  {
    if s == [] then None
    else if s[0] == '"' then
      if |s| > 1 && s[1] == '"' then Plus(2, DoubleLen(s[2..])) else Some(1)
    else Plus(1, DoubleLen(s[1..]))
  }

  /** Length up to and including the first occurrence of the closing delimiter. */
  function DollarLen(s: string, delimiter: string): (r: Option<nat>)
    requires delimiter != []
    ensures r.Some? ==>
              |delimiter| <= r.value <= |s| && s[r.value - 1] == delimiter[|delimiter| - 1]
  {
    if delimiter <= s then Some(|delimiter|)
    else if s == [] then None
    else Plus(1, DollarLen(s[1..], delimiter))
  }

  /** Length of the rest of a line comment, its line end included when there is one. */
  function LineLen(s: string): (r: nat)
    ensures r <= |s|
  {
    if s == [] then 0 else if s[0] == '\n' || s[0] == '\r' then 1 else 1 + LineLen(s[1..])
  }

  /** Length of the rest of a block comment inside `depth` open levels. */
  function BlockLen(s: string, depth: nat): (r: Option<nat>)
    requires depth > 0
    ensures r.Some? ==> 2 <= r.value <= |s| && s[r.value - 1] == '/'
    decreases |s|
  {
    if s == [] then None
    else if "/*" <= s then Plus(2, BlockLen(s[2..], depth + 1))
    else if "*/" <= s then if depth == 1 then Some(2) else Plus(2, BlockLen(s[2..], depth - 1))
    else Plus(1, BlockLen(s[1..], depth))
  }

  /** Length of the tag that continues at `i` inside a dollar quote's opening delimiter. */
  function TagEnd(s: string, i: nat): (r: Option<nat>)
    requires i <= |s|
    ensures r.Some? ==> i < r.value <= |s| && s[r.value - 1] == '$'
    decreases |s| - i
  {
    if i == |s| then None
    else if s[i] == '$' then Some(i + 1)
    else if !IsIdentifierContinue(s[i]) then None
    else TagEnd(s, i + 1)
  }

  /** Length of the dollar-quote delimiter that `s` starts with, given that it starts with `$`. */
  function DelimiterLen(s: string): (r: Option<nat>)
    ensures r.Some? ==> 2 <= r.value <= |s| && s[r.value - 1] == '$'
  {
    if |s| < 2 then None
    else if s[1] == '$' then Some(2)
    else if !IsIdentifierStart(s[1]) then None
    else TagEnd(s, 2)
  }

  function Close(kind: Kind, n: nat, rest: Option<nat>, error: LexError): Next {
    match rest
    case None => Open(error)
    case Some(k) => Complete(kind, n + k)
  }

  /** The construct that starts at the first byte of `s`, outside quotes and comments, when `back`
      is the text before it. */
  function NextToken(back: string, s: string): (r: Next)
    requires s != []
    ensures r.Complete? ==> 0 < r.len <= |s|
  {
    if "--" <= s then Complete(Comment, 2 + LineLen(s[2..]))
    else if "/*" <= s then Close(Comment, 2, BlockLen(s[2..], 1), OpenBlockComment)
    else if s[0] == '\'' then Close(Code, 1, SingleLen(s[1..], QuoteUsesBackslash(back)), OpenSingleQuote)
    else if s[0] == '"' then Close(Code, 1, DoubleLen(s[1..]), OpenDoubleQuote)
    else if s[0] == '$' then
      match DelimiterLen(s)
      case None => Complete(Code, 1)
      case Some(n) => Close(Code, n, DollarLen(s[n..], s[..n]), OpenDollarQuote(s[..n]))
    else if s[0] == ';' then Complete(Semicolon, 1)
    else if IsAsciiWhitespace(s[0]) then Complete(Blank, 1)
    else Complete(Code, 1)
  }

  function Prepend<T, E>(first: seq<T>, rest: Result<seq<T>, E>): Result<seq<T>, E> {
    match rest
    case Err(e) => Err(e)
    case Ok(tail) => Ok(first + tail)
  }

  /** The tokens of `s` after the text `back`, or the construct that is never closed. */
  function Lex(back: string, s: string): Result<seq<Token>, LexError>
    decreases |s|
  {
    if s == [] then Ok([])
    else
      match NextToken(back, s)
      case Open(e) => Err(e)
      case Complete(kind, n) => Prepend([Token(kind, s[..n])], Lex(back + s[..n], s[n..]))
  }

  function Text(tokens: seq<Token>): string {
    if tokens == [] then [] else tokens[0].text + Text(tokens[1..])
  }

  /** The stretches of tokens between separators; never empty. */
  function Segments(tokens: seq<Token>): (r: seq<seq<Token>>)
    ensures r != []
  {
    if tokens == [] then [[]]
    else
      var r := Segments(tokens[1..]);
      if tokens[0].kind.Semicolon? then [[]] + r else [[tokens[0]] + r[0]] + r[1..]
  }

  predicate HasCode(tokens: seq<Token>) {
    tokens != [] && (tokens[0].kind.Code? || HasCode(tokens[1..]))
  }

  /** Length of the Unicode white space character that `s` starts with, 0 when there is none. */
  function SpaceAtStart(s: string): (n: nat)
    ensures n <= |s|
  {
    if |s| >= 1 && (9 <= s[0] as int <= 13 || s[0] == ' ') then 1
    else if |s| >= 2 && s[0] as int == 0xC2 && (s[1] as int == 0x85 || s[1] as int == 0xA0) then 2
    else if |s| >= 3 && IsWideSpace(s[0] as int, s[1] as int, s[2] as int) then 3
    else 0
  }

  /** U+1680, U+2000 to U+200A, U+2028, U+2029, U+202F, U+205F and U+3000 in UTF-8. */
  predicate IsWideSpace(a: int, b: int, c: int) {
    || (a == 0xE1 && b == 0x9A && c == 0x80)
    || (a == 0xE2 && b == 0x80 && (0x80 <= c <= 0x8A || c == 0xA8 || c == 0xA9 || c == 0xAF))
    || (a == 0xE2 && b == 0x81 && c == 0x9F)
    || (a == 0xE3 && b == 0x80 && c == 0x80)
  }

  /** Length of the Unicode white space character that `s` ends with, 0 when there is none. */
  function SpaceAtEnd(s: string): (n: nat)
    ensures n <= |s|
  {
    var k := |s|;
    if k >= 1 && SpaceAtStart(s[k - 1..]) == 1 then 1
    else if k >= 2 && SpaceAtStart(s[k - 2..]) == 2 then 2
    else if k >= 3 && SpaceAtStart(s[k - 3..]) == 3 then 3
    else 0
  }

  function TrimStart(s: string): (r: string)
    ensures |r| <= |s| && r == s[|s| - |r|..]
    decreases |s|
  {
    var n := SpaceAtStart(s);
    if n == 0 then s else TrimStart(s[n..])
  }

  function TrimEnd(s: string): (r: string)
    ensures |r| <= |s| && r == s[..|r|]
    decreases |s|
  {
    var n := SpaceAtEnd(s);
    if n == 0 then s else TrimEnd(s[..|s| - n])
  }

  function Trim(s: string): string { TrimEnd(TrimStart(s)) }

  /** A segment that holds code is a statement; any other one is dropped. */
  function Emit(segment: seq<Token>): seq<string> {
    if HasCode(segment) then [Trim(Text(segment))] else []
  }

  function Statements(segments: seq<seq<Token>>): seq<string> {
    if segments == [] then [] else Emit(segments[0]) + Statements(segments[1..])
  }

  function Split(sql: string): Result<seq<string>, LexError> {
    match Lex([], sql)
    case Err(e) => Err(e)
    case Ok(tokens) => Ok(Statements(Segments(tokens)))
  }
}

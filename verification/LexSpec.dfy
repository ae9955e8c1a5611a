/** What one call of the lexer reads, as functions of the input and a position. */
module LexSpec {
  import opened Tokens
  import opened Numbers

  datatype CharClass = Blank | Digit | HexDigit | Word | InString | InLine

  predicate IsAlpha(c: char) {
    'A' <= c <= 'Z' || 'a' <= c <= 'z'
  }

  predicate InClass(c: char, k: CharClass) {
    match k
    case Blank => c == ' ' || c == '\U{000C}' || c == '\r' || c == '\t' || c == '\U{000B}'
    case Digit => IsDigit(c)
    case HexDigit => IsHexDigit(c)
    case Word => IsAlpha(c) || IsDigit(c) || c == '_'
    case InString => c != '"'
    case InLine => c != '\n'
  }

  /** The first position from `i` on whose character is not of class `k`. */
  ghost function SpanEnd(s: string, i: nat, k: CharClass): (end: nat)
    requires i <= |s|
    ensures i <= end <= |s| && (end < |s| ==> !InClass(s[end], k))
    ensures forall j :: i <= j < end ==> InClass(s[j], k)
    decreases |s| - i
  {
    if i < |s| && InClass(s[i], k) then SpanEnd(s, i + 1, k) else i
  }

  predicate MarkAt(s: string, i: nat, a: char, b: char) {
    i + 1 < |s| && s[i] == a && s[i + 1] == b
  }

  /** How many line breaks a text holds. */
  ghost function LineBreaks(s: string): nat {
    if s == "" then 0 else (if s[0] == '\n' then 1 else 0) + LineBreaks(s[1..])
  }

  /** Where the scan of a block comment stops and how many comments are still open there. */
  datatype CommentScan = CommentScan(end: nat, depth: nat)

  ghost function ScanComment(s: string, i: nat, depth: nat): (r: CommentScan)
    requires i <= |s|
    ensures i <= r.end <= |s| && (r.depth == 0 || r.end == |s|)
    decreases |s| - i
  {
    if i == |s| || depth == 0 then CommentScan(i, depth)
    else if MarkAt(s, i, '/', '*') then ScanComment(s, i + 2, depth + 1)
    else if MarkAt(s, i, '*', '/') then ScanComment(s, i + 2, depth - 1)
    else ScanComment(s, i + 1, depth)
  }

  /** Where the skipped text ends, and whether its last block comment held a line break. */
  datatype Gap = Gap(end: nat, newline: bool)

  ghost function SkipGap(s: string, i: nat, newline: bool): (g: Gap)
    requires i <= |s|
    ensures i <= g.end <= |s| && (g.end < |s| ==> !InClass(s[g.end], Blank))
    ensures g.newline && !newline ==> i + 2 <= g.end
    decreases |s| - i
  {
    var j := SpanEnd(s, i, Blank);
    if MarkAt(s, j, '/', '/') then SkipGap(s, SpanEnd(s, j + 2, InLine), newline)
    else if MarkAt(s, j, '/', '*') then
      var end := ScanComment(s, j + 2, 1).end;
      SkipGap(s, end, LineBreaks(s[j..end]) > 0)
    else Gap(j, newline)
  }

  function Keyword(word: string): TokenType {
    if word == "func" then TFunc
    else if word == "true" then TTrue
    else if word == "false" then TFalse
    else if word == "if" then TIf
    else if word == "else" then TElse
    else if word == "struct" then TStruct
    else if word == "case" then TCase
    else if word == "cffi" then TCffi
    else if word == "return" then TReturn
    else if word == "main" then TMain
    else if word == "nil" then TNil
    else if word == "for" then TFor
    else if word == "in" then TIn
    else if word == "ref" then TRef
    else if word == "var" then TVar
    else if word == "const" then TConst
    else TIdent
  }

  /** A type for a lexeme and the position just after it. */
  datatype Lexeme = Lexeme(kind: TokenType, end: nat)

  predicate CharAt(s: string, i: nat, c: char) {
    i < |s| && s[i] == c
  }

  /** The operator or the mark that starts at `i`, the longest one there is. */
  function ScanMark(s: string, i: nat): (l: Lexeme)
    requires i < |s|
    ensures l.end <= |s| && (l.kind == TInvalid || i < l.end)
  {
    match s[i]
    case ';' => Lexeme(TSemicolon, i + 1)
    case ',' => Lexeme(TComma, i + 1)
    case '{' => Lexeme(TLBrace, i + 1)
    case '}' => Lexeme(TRBrace, i + 1)
    case '(' => Lexeme(TLParen, i + 1)
    case ')' => Lexeme(TRParen, i + 1)
    case '[' => Lexeme(TLSqBracket, i + 1)
    case ']' => Lexeme(TRSqBracket, i + 1)
    case '+' => Lexeme(TPlus, i + 1)
    case '-' => Lexeme(TMinus, i + 1)
    case '*' => Lexeme(TAsterisk, i + 1)
    case '/' => Lexeme(TSlash, i + 1)
    case '^' => Lexeme(TXor, i + 1)
    case '?' => Lexeme(TQuestion, i + 1)
    case '.' =>
      if CharAt(s, i + 1, '.') then
        if CharAt(s, i + 2, '=') then Lexeme(TDotDotEq, i + 3) else Lexeme(TDotDot, i + 2)
      else Lexeme(TDot, i + 1)
    case '=' =>
      if CharAt(s, i + 1, '=') then Lexeme(TEqEq, i + 2)
      else if CharAt(s, i + 1, '>') then Lexeme(TEqualsRArrow, i + 2)
      else Lexeme(TEquals, i + 1)
    case '!' => if CharAt(s, i + 1, '=') then Lexeme(TNotEq, i + 2) else Lexeme(TNot, i + 1)
    case '<' => if CharAt(s, i + 1, '=') then Lexeme(TLtEq, i + 2) else Lexeme(TLt, i + 1)
    case '>' => if CharAt(s, i + 1, '=') then Lexeme(TGtEq, i + 2) else Lexeme(TGt, i + 1)
    case '|' =>
      if CharAt(s, i + 1, '|') then Lexeme(TLogicalOr, i + 2)
      else if CharAt(s, i + 1, '>') then Lexeme(TPipe, i + 2)
      else Lexeme(TBitwiseOr, i + 1)
    case '&' => if CharAt(s, i + 1, '&') then Lexeme(TLogicalAnd, i + 2) else Lexeme(TAmpersand, i + 1)
    case ':' =>
      if CharAt(s, i + 1, '=') then Lexeme(TColonEq, i + 2)
      else if CharAt(s, i + 1, ':') then Lexeme(TDoubleColon, i + 2)
      else Lexeme(TColon, i + 1)
    case _ => Lexeme(TInvalid, i + 1)
  }

  /** A number: decimal digits, or `0x` and hexadecimal digits, of which there must be one. */
  ghost function ScanNumber(s: string, i: nat): (l: Lexeme)
    requires i < |s| && IsDigit(s[i])
    ensures i < l.end <= |s|
  {
    if s[i] == '0' && (CharAt(s, i + 1, 'x') || CharAt(s, i + 1, 'X')) then
      if i + 2 < |s| && IsHexDigit(s[i + 2]) then Lexeme(TNum, SpanEnd(s, i + 2, HexDigit))
      else Lexeme(TInvalid, i + 2)
    else Lexeme(TNum, SpanEnd(s, i + 1, Digit))
  }

  /** The token at `i`. A directive needs to be the first thing in the source. */
  ghost function Scan(s: string, i: nat, atLineStart: bool): (l: Lexeme)
    requires i < |s|
    ensures i < l.end <= |s| && l.kind != TEnd
  {
    var c := s[i];
    if c == '\n' then Lexeme(TNewline, i + 1)
    else if c == '"' then
      var quote := SpanEnd(s, i + 1, InString);
      Lexeme(TString, if quote < |s| then quote + 1 else quote)
    else if c == '%' then
      var end := if atLineStart then SpanEnd(s, i + 1, Word) else i + 1;
      Lexeme(if end > i + 1 then TCtDirective else TPercent, end)
    else if IsAlpha(c) || c == '_' then
      var end := SpanEnd(s, i + 1, Word);
      Lexeme(Keyword(s[i..end]), end)
    else if IsDigit(c) then ScanNumber(s, i)
    else ScanMark(s, i)
  }

  /** One call of the lexer: the gap ends at `start`, the lexeme at `end`. */
  datatype Lexed = Lexed(kind: TokenType, start: nat, end: nat, atLineStart: bool)

  ghost function Next(s: string, pos: nat, atLineStart: bool): (l: Lexed)
    requires pos <= |s|
    ensures pos <= l.start <= l.end <= |s|
    ensures l.kind != TEnd ==> pos < l.end
    ensures l.kind == TEnd ==> l.start == l.end == |s|
  {
    var g := SkipGap(s, pos, false);
    if g.newline then Lexed(TNewline, g.end, g.end, atLineStart)
    else if g.end == |s| then Lexed(TEnd, g.end, g.end, atLineStart)
    else
      var l := Scan(s, g.end, atLineStart);
      Lexed(l.kind, g.end, l.end, false)
  }

  // ----- Runs of calls -----

  ghost function TokOf(s: string, l: Lexed): Tok
    requires l.start <= l.end <= |s|
  {
    Tok(l.kind, s[l.start..l.end])
  }

  /** The types and texts of the tokens from `pos` on, through the end token. */
  ghost function LexFrom(s: string, pos: nat, atLineStart: bool): (toks: seq<Tok>)
    requires pos <= |s|
    ensures toks != []
    decreases |s| - pos
  {
    var l := Next(s, pos, atLineStart);
    if l.kind == TEnd then [TokOf(s, l)] else [TokOf(s, l)] + LexFrom(s, l.end, l.atLineStart)
  }

  /** The token sequence of an input. */
  ghost function Lex(s: string): seq<Tok> {
    LexFrom(s, 0, true)
  }

  /** A token as the lexer emits it: its place in the input, and the line counted so far. */
  datatype Token = Token(kind: TokenType, start: nat, length: nat, line: nat)

  ghost function Emit(s: string, pos: nat, l: Lexed, line: nat): Token
    requires pos <= l.start <= l.end <= |s|
  {
    Token(l.kind, l.start, l.end - l.start, line + LineBreaks(s[pos..l.start]))
  }

  /** The line count after a token: of all lexemes only newlines are counted. */
  ghost function LineAfter(s: string, pos: nat, l: Lexed, line: nat): nat
    requires pos <= l.start <= l.end <= |s|
  {
    line + LineBreaks(s[pos..l.start]) + (if l.kind == TNewline then LineBreaks(s[l.start..l.end]) else 0)
  }

  /** The tokens emitted from `pos` on, without the end token. */
  ghost function EmitFrom(s: string, pos: nat, atLineStart: bool, line: nat): seq<Token>
    requires pos <= |s|
    decreases |s| - pos
  {
    var l := Next(s, pos, atLineStart);
    if l.kind == TEnd then []
    else [Emit(s, pos, l, line)] + EmitFrom(s, l.end, l.atLineStart, LineAfter(s, pos, l, line))
  }
}

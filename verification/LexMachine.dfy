/** The lexer as it runs: a cursor over the input, a line count and the flag for directives. */
module LexMachine {
  import opened Tokens
  import opened Numbers
  import opened LexSpec
  import opened LineCounts

  class Lexer {
    const input: string
    var pos: nat
    var line: nat
    var atLineStart: bool

    constructor (input: string)
      ensures this.input == input && pos == 0 && line == 1 && atLineStart
    {
      this.input := input;
      pos, line, atLineStart := 0, 1, true;
    }

    predicate AtEnd()
      reads this
    {
      pos >= |input|
    }

    function Peek(): char
      reads this
    {
      if AtEnd() then '\0' else input[pos]
    }

    method Advance() returns (c: char)
      modifies this`pos
      ensures c == old(Peek())
      ensures pos == if old(pos) < |input| then old(pos) + 1 else old(pos)
    {
      if AtEnd() { return '\0'; }
      c := input[pos];
      pos := pos + 1;
    }

    /** Runs over the characters of class `k`. */
    method SkipSpan(k: CharClass)
      requires pos <= |input|
      modifies this`pos
      ensures pos == SpanEnd(input, old(pos), k)
    {
      while !AtEnd() && InClass(Peek(), k)
        invariant pos <= |input| && SpanEnd(input, pos, k) == SpanEnd(input, old(pos), k)
        decreases |input| - pos
      {
        var _ := Advance();
      }
    }

    predicate IsCommentStart(mark: char)
      reads this
    {
      Peek() == '/' && pos + 1 < |input| && input[pos + 1] == mark
    }

    method SkipLineComment()
      requires IsCommentStart('/')
      modifies this`pos
      ensures pos == SpanEnd(input, old(pos) + 2, InLine)
    {
      var _ := Advance();
      var _ := Advance();
      SkipSpan(InLine);
    }

    /** Nested block comments: stops after the mark that closes the first one, or at the end of the input. */
    method SkipBlockComment() returns (hasNewline: bool)
      requires IsCommentStart('*')
      modifies this`pos, this`line
      ensures pos == ScanComment(input, old(pos) + 2, 1).end
      ensures line == old(line) + LineBreaks(input[old(pos)..pos])
      ensures hasNewline <==> LineBreaks(input[old(pos)..pos]) > 0
    {
      hide LineBreaks;
      ghost var start := pos;
      var _ := Advance();
      var _ := Advance();
      NoBreaks(input, start, pos);
      var depth: nat := 1;
      hasNewline := false;
      while !AtEnd() && depth > 0
        invariant start <= pos <= |input|
        invariant ScanComment(input, pos, depth) == ScanComment(input, start + 2, 1)
        invariant line == old(line) + LineBreaks(input[start..pos])
        invariant hasNewline <==> LineBreaks(input[start..pos]) > 0
        decreases |input| - pos
      {
        BreaksStep(input, start, pos);
        if pos + 1 < |input| { BreaksStep(input, start, pos + 1); }
        var c := Advance();
        if c == '\n' {
          hasNewline := true;
          line := line + 1;
        } else if c == '/' && Peek() == '*' {
          depth := depth + 1;
          var _ := Advance();
        } else if c == '*' && Peek() == '/' {
          depth := depth - 1;
          var _ := Advance();
        }
      }
    }

    /** Skips blanks and comments; the answer is about the last block comment alone. */
    method SkipBlanksAndComments() returns (newlineInComment: bool)
      requires pos <= |input|
      modifies this`pos, this`line
      ensures Gap(pos, newlineInComment) == SkipGap(input, old(pos), false)
      ensures line == old(line) + LineBreaks(input[old(pos)..pos])
    {
      hide LineBreaks, ScanComment, SpanEnd, SkipGap;
      ghost var start := pos;
      newlineInComment := false;
      NothingCounted(input, start);
      while true
        invariant start <= pos <= |input|
        invariant SkipGap(input, pos, newlineInComment) == SkipGap(input, start, false)
        invariant line == old(line) + LineBreaks(input[start..pos])
        decreases |input| - pos
      {
        ghost var from := pos;
        GapStep(input, from, newlineInComment);
        SkipSpan(Blank);
        ghost var mark := pos;
        SpanCounted(input, start, from, mark, Blank);
        if IsCommentStart('/') {
          SkipLineComment();
          CommentCounted(input, start, mark, pos);
        } else if IsCommentStart('*') {
          newlineInComment := SkipBlockComment();
          BreaksJoin(input, start, mark, pos);
        } else {
          break;
        }
      }
    }

    /** One token. */
    method LexNext() returns (tok: Token)
      requires pos <= |input|
      modifies this
      ensures var l := Next(input, old(pos), old(atLineStart));
              && tok == Emit(input, old(pos), l, old(line)) && line == LineAfter(input, old(pos), l, old(line))
              && pos == l.end && atLineStart == l.atLineStart
    {
      hide LineBreaks, SkipGap, Scan;
      var newlineInComment := SkipBlanksAndComments();
      var start, from := pos, line;
      OneBreak(input, start);
      if newlineInComment { return Token(TNewline, start, 0, from); }
      if AtEnd() { return Token(TEnd, start, 0, from); }
      if Peek() == '\n' {
        var _ := Advance();
        line := line + 1;
        atLineStart := false;
        ScanNewline(input, start, old(atLineStart));
        return Token(TNewline, start, pos - start, from);
      }
      OnlyNewlines(input, start, atLineStart);
      var kind := LexText();
      atLineStart := false;
      tok := Token(kind, start, pos - start, from);
    }

    /** A token other than a newline. */
    method LexText() returns (kind: TokenType)
      requires pos < |input| && input[pos] != '\n'
      modifies this`pos
      ensures Lexeme(kind, pos) == Scan(input, old(pos), atLineStart)
    {
      hide ScanMark, ScanNumber, SpanEnd;
      ghost var start := pos;
      var c := Advance();
      if c == '"' {
        SkipSpan(InString);
        var _ := Advance();
        kind := TString;
      } else if c == '%' {
        kind := TPercent;
        if atLineStart {
          var from := pos;
          SkipSpan(Word);
          if pos > from { kind := TCtDirective; }
        }
      } else if IsAlpha(c) || c == '_' {
        var from := pos - 1;
        SkipSpan(Word);
        kind := Keyword(input[from..pos]);
      } else if IsDigit(c) {
        kind := LexNumber(c);
      } else {
        kind := LexMark(c);
      }
    }

    /** From just after the first digit. */
    method LexNumber(c: char) returns (kind: TokenType)
      requires 0 < pos <= |input| && input[pos - 1] == c && IsDigit(c)
      modifies this`pos
      ensures Lexeme(kind, pos) == ScanNumber(input, old(pos) - 1)
    {
      var next := Peek();
      if c == '0' && (next == 'x' || next == 'X') {
        var _ := Advance();
        if !IsHexDigit(Peek()) { return TInvalid; }
        SkipSpan(HexDigit);
      } else {
        SkipSpan(Digit);
      }
      kind := TNum;
    }

    /** Consumes the next character if it is `c`. */
    method Take(c: char) returns (taken: bool)
      requires c != '\0'
      modifies this`pos
      ensures taken == CharAt(input, old(pos), c) && pos == old(pos) + (if taken then 1 else 0)
    {
      taken := Peek() == c;
      if taken { var _ := Advance(); }
    }

    /** From just after the first character of a mark. */
    method LexMark(c: char) returns (kind: TokenType)
      requires 0 < pos <= |input| && input[pos - 1] == c
      modifies this`pos
      ensures Lexeme(kind, pos) == ScanMark(input, old(pos) - 1)
    {
      var first, second := false, false;
      match c
      case ';' => kind := TSemicolon;
      case ',' => kind := TComma;
      case '{' => kind := TLBrace;
      case '}' => kind := TRBrace;
      case '(' => kind := TLParen;
      case ')' => kind := TRParen;
      case '[' => kind := TLSqBracket;
      case ']' => kind := TRSqBracket;
      case '+' => kind := TPlus;
      case '-' => kind := TMinus;
      case '*' => kind := TAsterisk;
      case '/' => kind := TSlash;
      case '^' => kind := TXor;
      case '?' => kind := TQuestion;
      case '.' =>
        first := Take('.');
        if first { second := Take('='); }
        kind := if second then TDotDotEq else if first then TDotDot else TDot;
      case '=' =>
        first := Take('=');
        if !first { second := Take('>'); }
        kind := if first then TEqEq else if second then TEqualsRArrow else TEquals;
      case '!' =>
        first := Take('=');
        kind := if first then TNotEq else TNot;
      case '<' =>
        first := Take('=');
        kind := if first then TLtEq else TLt;
      case '>' =>
        first := Take('=');
        kind := if first then TGtEq else TGt;
      case '|' =>
        first := Take('|');
        if !first { second := Take('>'); }
        kind := if first then TLogicalOr else if second then TPipe else TBitwiseOr;
      case '&' =>
        first := Take('&');
        kind := if first then TLogicalAnd else TAmpersand;
      case ':' =>
        first := Take('=');
        if !first { second := Take(':'); }
        kind := if first then TColonEq else if second then TDoubleColon else TColon;
      case _ => kind := TInvalid;
    }
  }
}

/** The lexical grammar: which texts are lexemes of which types, and that scanning follows it. */
module Lexemes {
  import opened Tokens
  import opened Numbers
  import opened LexSpec
  import opened Comments

  predicate IsWord(w: string) {
    w != "" && !IsDigit(w[0]) && forall i :: 0 <= i < |w| ==> InClass(w[i], Word)
  }

  ghost predicate IsDecimal(w: string) {
    w != "" && AllDigits(w, false)
  }

  ghost predicate IsHexadecimal(w: string) {
    IsHexForm(w) && AllDigits(w[2..], true)
  }

  predicate IsQuoted(w: string) {
    |w| >= 2 && w[0] == '"' && w[|w| - 1] == '"' && forall i :: 0 < i < |w| - 1 ==> w[i] != '"'
  }

  /** A complete token with a text of its type. Directives and invalid text are not among them. */
  ghost predicate IsLexeme(t: Tok) {
    if t.kind == TIdent then IsWord(t.text) && Keyword(t.text) == TIdent
    else if t.kind == TNum then IsDecimal(t.text) || IsHexadecimal(t.text)
    else if t.kind == TString then IsQuoted(t.text)
    else if t.kind == TNewline then t.text == "\n"
    else Spelling(t.kind) == Some(t.text)
  }

  /** A string that runs to the end of the input. */
  ghost predicate IsUnclosed(t: Tok) {
    t.kind == TString && t.text != "" && t.text[0] == '"' && forall i :: 0 < i < |t.text| ==> t.text[i] != '"'
  }

  ghost predicate IsDirective(t: Tok) {
    t.kind == TCtDirective && |t.text| > 1 && t.text[0] == '%' && forall i :: 0 < i < |t.text| ==> InClass(t.text[i], Word)
  }

  const SMALL_LETTERS := "abcdefghijklmnopqrstuvwxyz"
  const CAPITAL_LETTERS := "ABCDEFGHIJKLMNOPQRSTUVWXYZ"

  lemma LettersInOrder(i: nat)
    requires i < 26
    ensures SMALL_LETTERS[i] == 'a' + i as char && CAPITAL_LETTERS[i] == 'A' + i as char
  {
  }

  /** The characters of each class. */
  lemma ClassesAre(c: char)
    ensures InClass(c, Blank) <==> c in " \t\r\U{000B}\U{000C}"
    ensures InClass(c, Word) <==> c in SMALL_LETTERS || c in CAPITAL_LETTERS || c in "0123456789" || c == '_'
    ensures InClass(c, Digit) <==> c in "0123456789"
    ensures InClass(c, HexDigit) <==> c in "0123456789abcdef" || c in "0123456789ABCDEF"
    ensures InClass(c, InString) <==> c !in "\""
    ensures InClass(c, InLine) <==> c !in "\n"
  {
    hide IsHexDigit;
    HexDigitsAreThese(c);
    LettersAre(c);
  }

  lemma {:induction false} LettersAre(c: char)
    ensures IsAlpha(c) <==> c in SMALL_LETTERS || c in CAPITAL_LETTERS
  {
    forall i | 0 <= i < 26 ensures SMALL_LETTERS[i] == 'a' + i as char && CAPITAL_LETTERS[i] == 'A' + i as char {
      LettersInOrder(i);
    }
    if 'a' <= c <= 'z' { assert SMALL_LETTERS[c as int - 'a' as int] == c; }
    if 'A' <= c <= 'Z' { assert CAPITAL_LETTERS[c as int - 'A' as int] == c; }
  }

  /** The words that are no identifiers. */
  lemma KeywordsAre(w: string)
    ensures Keyword(w) != TIdent
       <==> || w == "func" || w == "main" || w == "return" || w == "if" || w == "else" || w == "for" || w == "in" || w == "case"
            || w == "struct" || w == "cffi" || w == "ref" || w == "var" || w == "const" || w == "nil" || w == "true" || w == "false"
  {
  }

  lemma ShortTexts(s: string, i: nat)
    requires i < |s|
    ensures s[i..i + 1] == [s[i]]
    ensures i + 1 < |s| ==> s[i..i + 2] == [s[i], s[i + 1]]
    ensures i + 2 < |s| ==> s[i..i + 3] == [s[i], s[i + 1], s[i + 2]]
  {
  }

  lemma {:induction false} MarkIsLexeme(s: string, i: nat)
    requires i < |s|
    ensures var l := ScanMark(s, i);
            l.kind == TInvalid || (IsLexeme(Tok(l.kind, s[i..l.end])) && l.kind != TString && l.kind != TCtDirective)
  {
    hide IsLexeme, Spelling;
    ShortTexts(s, i);
    MarkIsSpelled(s, i);
    var l := ScanMark(s, i);
    if l.kind != TInvalid { SpelledIsLexeme(Tok(l.kind, s[i..l.end])); }
  }

  lemma SpelledIsLexeme(t: Tok)
    requires Spelling(t.kind) == Some(t.text)
    ensures IsLexeme(t) && t.kind !in {TInvalid, TString, TCtDirective, TIdent, TNum, TNewline, TEnd}
  {
  }

  lemma {:induction false} MarkIsSpelled(s: string, i: nat)
    requires i < |s|
    ensures var l := ScanMark(s, i);
            l.kind == TInvalid || Spelling(l.kind) == Some(s[i..l.end])
  {
    hide Spelling;
    ShortTexts(s, i);
    MarkSpellings();
  }

  lemma MarkSpellings()
    ensures Spelling(TSemicolon) == Some([';']) && Spelling(TComma) == Some([',']) && Spelling(TLBrace) == Some(['{'])
    ensures Spelling(TRBrace) == Some(['}']) && Spelling(TLParen) == Some(['(']) && Spelling(TRParen) == Some([')'])
    ensures Spelling(TLSqBracket) == Some(['[']) && Spelling(TRSqBracket) == Some([']']) && Spelling(TPlus) == Some(['+'])
    ensures Spelling(TMinus) == Some(['-']) && Spelling(TAsterisk) == Some(['*']) && Spelling(TSlash) == Some(['/'])
    ensures Spelling(TXor) == Some(['^']) && Spelling(TQuestion) == Some(['?']) && Spelling(TDot) == Some(['.'])
    ensures Spelling(TDotDot) == Some(['.', '.']) && Spelling(TDotDotEq) == Some(['.', '.', '='])
    ensures Spelling(TEquals) == Some(['=']) && Spelling(TEqEq) == Some(['=', '=']) && Spelling(TEqualsRArrow) == Some(['=', '>'])
    ensures Spelling(TNot) == Some(['!']) && Spelling(TNotEq) == Some(['!', '=']) && Spelling(TLt) == Some(['<'])
    ensures Spelling(TLtEq) == Some(['<', '=']) && Spelling(TGt) == Some(['>']) && Spelling(TGtEq) == Some(['>', '='])
    ensures Spelling(TBitwiseOr) == Some(['|']) && Spelling(TLogicalOr) == Some(['|', '|']) && Spelling(TPipe) == Some(['|', '>'])
    ensures Spelling(TAmpersand) == Some(['&']) && Spelling(TLogicalAnd) == Some(['&', '&'])
    ensures Spelling(TColon) == Some([':']) && Spelling(TColonEq) == Some([':', '=']) && Spelling(TDoubleColon) == Some([':', ':'])
  {
    hide Spelling;
    MarkSpellings1();
    MarkSpellings2();
    MarkSpellings3();
    MarkSpellings4();
    MarkSpellings5();
    MarkSpellings6();
  }

  lemma MarkSpellings1()
    ensures Spelling(TSemicolon) == Some([';']) && Spelling(TComma) == Some([','])
    ensures Spelling(TLBrace) == Some(['{']) && Spelling(TRBrace) == Some(['}'])
    ensures Spelling(TLParen) == Some(['(']) && Spelling(TRParen) == Some([')'])
  {
  }

  lemma MarkSpellings2()
    ensures Spelling(TLSqBracket) == Some(['[']) && Spelling(TRSqBracket) == Some([']'])
    ensures Spelling(TPlus) == Some(['+']) && Spelling(TMinus) == Some(['-'])
    ensures Spelling(TAsterisk) == Some(['*']) && Spelling(TSlash) == Some(['/'])
  {
  }

  lemma MarkSpellings3()
    ensures Spelling(TXor) == Some(['^']) && Spelling(TQuestion) == Some(['?'])
    ensures Spelling(TDot) == Some(['.']) && Spelling(TDotDot) == Some(['.', '.'])
    ensures Spelling(TDotDotEq) == Some(['.', '.', '=']) && Spelling(TEquals) == Some(['='])
  {
  }

  lemma MarkSpellings4()
    ensures Spelling(TEqEq) == Some(['=', '=']) && Spelling(TEqualsRArrow) == Some(['=', '>'])
    ensures Spelling(TNot) == Some(['!']) && Spelling(TNotEq) == Some(['!', '='])
    ensures Spelling(TLt) == Some(['<']) && Spelling(TLtEq) == Some(['<', '='])
  {
  }

  lemma MarkSpellings5()
    ensures Spelling(TGt) == Some(['>']) && Spelling(TGtEq) == Some(['>', '='])
    ensures Spelling(TBitwiseOr) == Some(['|']) && Spelling(TLogicalOr) == Some(['|', '|'])
    ensures Spelling(TPipe) == Some(['|', '>']) && Spelling(TAmpersand) == Some(['&'])
  {
  }

  lemma MarkSpellings6()
    ensures Spelling(TLogicalAnd) == Some(['&', '&']) && Spelling(TColon) == Some([':'])
    ensures Spelling(TColonEq) == Some([':', '=']) && Spelling(TDoubleColon) == Some([':', ':'])
  {
  }

  lemma {:induction false} WordIsLexeme(s: string, i: nat)
    requires i < |s| && (IsAlpha(s[i]) || s[i] == '_')
    ensures var w := s[i..SpanEnd(s, i + 1, Word)];
            IsWord(w) && IsLexeme(Tok(Keyword(w), w)) && Keyword(w) !in {TInvalid, TString, TCtDirective}
  {
    var w := s[i..SpanEnd(s, i + 1, Word)];
    assert forall k :: 0 <= k < |w| ==> w[k] == s[i + k];
    KeywordsAreSpelled(w);
  }

  lemma KeywordsAreSpelled(w: string)
    ensures Keyword(w) == TIdent || (Spelling(Keyword(w)) == Some(w) && Keyword(w) !in {TNum, TString, TNewline})
    ensures Keyword(w) !in {TInvalid, TString, TCtDirective}
  {
    hide Spelling;
    KeywordSpellings();
  }

  lemma KeywordSpellings()
    ensures Spelling(TFunc) == Some("func") && Spelling(TTrue) == Some("true") && Spelling(TFalse) == Some("false")
    ensures Spelling(TIf) == Some("if") && Spelling(TElse) == Some("else") && Spelling(TStruct) == Some("struct")
    ensures Spelling(TCase) == Some("case") && Spelling(TCffi) == Some("cffi") && Spelling(TReturn) == Some("return")
    ensures Spelling(TMain) == Some("main") && Spelling(TNil) == Some("nil") && Spelling(TFor) == Some("for")
    ensures Spelling(TIn) == Some("in") && Spelling(TRef) == Some("ref") && Spelling(TVar) == Some("var")
    ensures Spelling(TConst) == Some("const")
  {
    hide Spelling;
    KeywordSpellings1();
    KeywordSpellings2();
    KeywordSpellings3();
    KeywordSpellings4();
  }

  lemma KeywordSpellings1()
    ensures Spelling(TFunc) == Some("func") && Spelling(TTrue) == Some("true")
    ensures Spelling(TFalse) == Some("false") && Spelling(TIf) == Some("if")
  {
  }

  lemma KeywordSpellings2()
    ensures Spelling(TElse) == Some("else") && Spelling(TStruct) == Some("struct")
    ensures Spelling(TCase) == Some("case") && Spelling(TCffi) == Some("cffi")
  {
  }

  lemma KeywordSpellings3()
    ensures Spelling(TReturn) == Some("return") && Spelling(TMain) == Some("main")
    ensures Spelling(TNil) == Some("nil") && Spelling(TFor) == Some("for")
  {
  }

  lemma KeywordSpellings4()
    ensures Spelling(TIn) == Some("in") && Spelling(TRef) == Some("ref")
    ensures Spelling(TVar) == Some("var") && Spelling(TConst) == Some("const")
  {
  }

  lemma NumberIsLexeme(s: string, i: nat)
    requires i < |s| && IsDigit(s[i])
    ensures var l := ScanNumber(s, i);
            l.kind == TInvalid || (l.kind == TNum && IsLexeme(Tok(TNum, s[i..l.end])))
  {
    var l := ScanNumber(s, i);
    var w := s[i..l.end];
    assert forall k :: 0 <= k < |w| ==> w[k] == s[i + k];
    if l.kind == TNum && s[i] == '0' && (CharAt(s, i + 1, 'x') || CharAt(s, i + 1, 'X')) {
      assert w[2..] == s[i + 2..l.end];
    }
  }

  lemma {:induction false} StringIsLexeme(s: string, i: nat)
    requires i < |s| && s[i] == '"'
    ensures var quote := SpanEnd(s, i + 1, InString);
            if quote < |s| then IsQuoted(s[i..quote + 1]) else IsUnclosed(Tok(TString, s[i..quote]))
  {
  }

  /** Everything that is scanned is a lexeme, a directive, an unclosed string at the end, or invalid. */
  lemma ScanIsLexeme(s: string, i: nat, atLineStart: bool)
    requires i < |s|
    ensures var l := Scan(s, i, atLineStart);
            var t := Tok(l.kind, s[i..l.end]);
            l.kind == TInvalid || IsLexeme(t) || IsDirective(t) || (IsUnclosed(t) && l.end == |s|)
  {
    hide ScanMark, ScanNumber, Spelling;
    hide SpanEnd;
    ShortTexts(s, i);
    PercentIsSpelled();
    if s[i] == '"' {
      StringIsLexeme(s, i);
    } else if IsAlpha(s[i]) || s[i] == '_' {
      WordIsLexeme(s, i);
    } else if IsDigit(s[i]) {
      NumberIsLexeme(s, i);
    } else if s[i] != '\n' && s[i] != '%' {
      MarkIsLexeme(s, i);
    }
  }

  lemma PercentIsSpelled()
    ensures Spelling(TPercent) == Some("%")
  {
  }

  // ----- And every lexeme that stands apart is scanned whole -----

  /** What can follow a token: the input ends, or a gap or a new line begins. */
  predicate Separated(s: string, end: nat) {
    end == |s| || (end < |s| && (InClass(s[end], Blank) || s[end] == '/' || s[end] == '\n'))
  }

  predicate IsMark(k: TokenType) {
    k in {TSemicolon, TColon, TDoubleColon, TColonEq, TEquals, TEqEq, TNotEq, TComma, TDotDot, TDotDotEq, TDot, TQuestion,
          TLBrace, TRBrace, TLSqBracket, TRSqBracket, TLParen, TRParen, TPipe, TLogicalOr, TBitwiseOr, TLogicalAnd,
          TAmpersand, TXor, TNot, TLt, TLtEq, TGt, TGtEq, TPlus, TMinus, TAsterisk, TSlash, TEqualsRArrow}
  }

  lemma TextChars(s: string, i: nat, t: string)
    requires TextAt(s, i, t)
    ensures i + |t| <= |s| && forall k :: 0 <= k < |t| ==> s[i + k] == t[k]
  {
    var slice := s[i..i + |t|];
    assert forall k :: 0 <= k < |t| ==> slice[k] == s[i + k];
  }

  lemma NothingExtends(s: string, end: nat)
    requires Separated(s, end)
    ensures end == |s| || (!InClass(s[end], Word) && s[end] !in {'.', '=', '>', '|', '&', ':', 'x', 'X'})
  {
  }

  lemma {:induction false} MarkChars(s: string, i: nat, k: TokenType)
    requires IsMark(k) && TextAt(s, i, Spelling(k).GetOr(""))
    ensures var t := Spelling(k).GetOr("");
            && 1 <= |t| <= 3 && i + |t| <= |s| && s[i] == t[0]
            && (|t| > 1 ==> s[i + 1] == t[1]) && (|t| > 2 ==> s[i + 2] == t[2])
  {
    hide TextAt, Spelling;
    MarkSpellings();
    TextChars(s, i, Spelling(k).GetOr(""));
  }

  lemma {:induction false} MarkIsScanned(s: string, i: nat, k: TokenType)
    requires IsMark(k) && TextAt(s, i, Spelling(k).GetOr("")) && Separated(s, i + |Spelling(k).GetOr("")|)
    ensures i < |s| && ScanMark(s, i) == Lexeme(k, i + |Spelling(k).GetOr("")|)
    ensures s[i] != '\n' && s[i] != '"' && s[i] != '%' && s[i] != '_' && !IsAlpha(s[i]) && !IsDigit(s[i])
  {
    hide TextAt, Separated, InClass, Spelling;
    MarkSpellings();
    MarkChars(s, i, k);
    NothingExtends(s, i + |Spelling(k).GetOr("")|);
  }

  lemma {:induction false} SpanOf(s: string, i: nat, end: nat, k: CharClass)
    requires i <= end <= |s| && (forall j :: i <= j < end ==> InClass(s[j], k)) && (end < |s| ==> !InClass(s[end], k))
    ensures SpanEnd(s, i, k) == end
    decreases end - i
  {
    hide InClass;
    if i < end { SpanOf(s, i + 1, end, k); }
  }

  lemma WordIsScanned(s: string, i: nat, w: string, atLineStart: bool)
    requires IsWord(w) && TextAt(s, i, w) && Separated(s, i + |w|)
    ensures Scan(s, i, atLineStart) == Lexeme(Keyword(w), i + |w|)
  {
    hide Keyword, ScanMark, ScanNumber;
    TextChars(s, i, w);
    NothingExtends(s, i + |w|);
    SpanOf(s, i + 1, i + |w|, Word);
    WordStart(w);
    assert s[i..i + |w|] == w;
  }

  lemma WordStart(w: string)
    requires IsWord(w)
    ensures IsAlpha(w[0]) || w[0] == '_'
    ensures w[0] != '\n' && w[0] != '"' && w[0] != '%'
  {
    assert InClass(w[0], Word);
  }

  lemma DecimalIsScanned(s: string, i: nat, w: string)
    requires IsDecimal(w) && TextAt(s, i, w) && Separated(s, i + |w|)
    ensures i < |s| && IsDigit(s[i]) && ScanNumber(s, i) == Lexeme(TNum, i + |w|)
  {
    TextChars(s, i, w);
    NothingExtends(s, i + |w|);
    assert IsDigit(w[0]);
    assert |w| > 1 ==> IsDigit(w[1]);
    SpanOf(s, i + 1, i + |w|, Digit);
  }

  lemma HexadecimalIsScanned(s: string, i: nat, w: string)
    requires IsHexadecimal(w) && TextAt(s, i, w) && Separated(s, i + |w|)
    ensures i < |s| && IsDigit(s[i]) && ScanNumber(s, i) == Lexeme(TNum, i + |w|)
  {
    TextChars(s, i, w);
    NothingExtends(s, i + |w|);
    assert forall k :: 2 <= k < |w| ==> w[k] == w[2..][k - 2];
    assert IsHexDigit(w[2]);
    SpanOf(s, i + 2, i + |w|, HexDigit);
  }

  lemma StringIsScanned(s: string, i: nat, w: string, atLineStart: bool)
    requires IsQuoted(w) && TextAt(s, i, w)
    ensures Scan(s, i, atLineStart) == Lexeme(TString, i + |w|)
  {
    hide ScanMark, ScanNumber;
    TextChars(s, i, w);
    SpanOf(s, i + 1, i + |w| - 1, InString);
  }

  lemma NumberStarts(s: string, i: nat, atLineStart: bool)
    requires i < |s| && IsDigit(s[i])
    ensures Scan(s, i, atLineStart) == ScanNumber(s, i)
  {
    hide ScanMark, ScanNumber;
  }

  lemma MarkStarts(s: string, i: nat, atLineStart: bool)
    requires i < |s| && s[i] != '\n' && s[i] != '"' && s[i] != '%' && s[i] != '_' && !IsAlpha(s[i]) && !IsDigit(s[i])
    ensures Scan(s, i, atLineStart) == ScanMark(s, i)
  {
    hide ScanMark, ScanNumber;
  }

  lemma PercentIsScanned(s: string, i: nat, atLineStart: bool)
    requires CharAt(s, i, '%') && Separated(s, i + 1)
    ensures Scan(s, i, atLineStart) == Lexeme(TPercent, i + 1)
  {
    hide ScanMark, ScanNumber;
    NothingExtends(s, i + 1);
    SpanOf(s, i + 1, i + 1, Word);
  }

  /** A type with one spelling is a mark, `%` or a keyword. */
  lemma FixedKinds(t: Tok)
    requires Spelling(t.kind) == Some(t.text) && !IsMark(t.kind) && t.kind != TPercent
    ensures IsWord(t.text) && Keyword(t.text) == t.kind
  {
  }

  /** A lexeme that stands apart is scanned whole, as what it is. */
  lemma LexemeIsScanned(s: string, i: nat, t: Tok, atLineStart: bool)
    requires IsLexeme(t) && TextAt(s, i, t.text) && Separated(s, i + |t.text|)
    ensures i < |s| && Scan(s, i, atLineStart) == Lexeme(t.kind, i + |t.text|)
  {
    hide Scan, ScanMark, ScanNumber, Separated, IsWord, IsDecimal, IsHexadecimal, IsQuoted, Keyword, IsMark, TextAt, Spelling;
    if t.kind == TIdent {
      WordIsScanned(s, i, t.text, atLineStart);
    } else if t.kind == TNum {
      if IsDecimal(t.text) { DecimalIsScanned(s, i, t.text); } else { HexadecimalIsScanned(s, i, t.text); }
      NumberStarts(s, i, atLineStart);
    } else if t.kind == TString {
      StringIsScanned(s, i, t.text, atLineStart);
    } else if t.kind == TNewline {
      NewlineIsScanned(s, i, atLineStart);
    } else if IsMark(t.kind) {
      MarkIsScanned(s, i, t.kind);
      MarkStarts(s, i, atLineStart);
    } else if t.kind == TPercent {
      PercentIsSpelled();
      CharIsThere(s, i, '%');
      PercentIsScanned(s, i, atLineStart);
    } else {
      FixedKinds(t);
      WordIsScanned(s, i, t.text, atLineStart);
    }
  }

  lemma CharIsThere(s: string, i: nat, c: char)
    requires TextAt(s, i, [c])
    ensures CharAt(s, i, c)
  {
    TextChars(s, i, [c]);
  }

  lemma NewlineIsScanned(s: string, i: nat, atLineStart: bool)
    requires TextAt(s, i, "\n")
    ensures i < |s| && Scan(s, i, atLineStart) == Lexeme(TNewline, i + 1)
  {
    hide ScanMark, ScanNumber;
    TextChars(s, i, "\n");
  }

  // ----- The longest one is scanned -----

  lemma {:induction false} SpanAtLeast(s: string, i: nat, end: nat, k: CharClass)
    requires i <= end <= |s| && forall j :: i <= j < end ==> InClass(s[j], k)
    ensures end <= SpanEnd(s, i, k)
    decreases end - i
  {
    hide InClass;
    if i < end { SpanAtLeast(s, i + 1, end, k); }
  }

  lemma WordIsLongest(s: string, i: nat, w: string, atLineStart: bool)
    requires IsWord(w) && TextAt(s, i, w)
    ensures i < |s| && i + |w| <= Scan(s, i, atLineStart).end
  {
    hide Keyword, ScanMark, ScanNumber;
    TextChars(s, i, w);
    WordStart(w);
    SpanAtLeast(s, i + 1, i + |w|, Word);
  }

  lemma {:induction false} DecimalIsLongest(s: string, i: nat, w: string)
    requires IsDecimal(w) && TextAt(s, i, w)
    ensures i < |s| && IsDigit(s[i]) && i + |w| <= ScanNumber(s, i).end
  {
    TextChars(s, i, w);
    assert IsDigit(w[0]);
    assert |w| > 1 ==> IsDigit(w[1]);
    SpanAtLeast(s, i + 1, i + |w|, Digit);
  }

  lemma {:induction false} HexadecimalIsLongest(s: string, i: nat, w: string)
    requires IsHexadecimal(w) && TextAt(s, i, w)
    ensures i < |s| && IsDigit(s[i]) && i + |w| <= ScanNumber(s, i).end
  {
    TextChars(s, i, w);
    assert forall k :: 2 <= k < |w| ==> w[k] == w[2..][k - 2];
    assert IsHexDigit(w[2]);
    SpanAtLeast(s, i + 2, i + |w|, HexDigit);
  }

  lemma {:induction false} MarkIsLongest(s: string, i: nat, k: TokenType)
    requires IsMark(k) && TextAt(s, i, Spelling(k).GetOr(""))
    ensures i < |s| && i + |Spelling(k).GetOr("")| <= ScanMark(s, i).end && ScanMark(s, i).kind != TInvalid
    ensures s[i] != '\n' && s[i] != '"' && s[i] != '%' && s[i] != '_' && !IsAlpha(s[i]) && !IsDigit(s[i])
  {
    hide TextAt, InClass, Spelling;
    MarkSpellings();
    MarkChars(s, i, k);
  }

  lemma PercentIsLongest(s: string, i: nat, atLineStart: bool)
    requires CharAt(s, i, '%')
    ensures i + 1 <= Scan(s, i, atLineStart).end
  {
  }

  /** No lexeme that stands at `i` is longer than what is scanned there, whatever comes after it. */
  lemma ScanIsLongest(s: string, i: nat, t: Tok, atLineStart: bool)
    requires IsLexeme(t) && TextAt(s, i, t.text)
    ensures i < |s| && i + |t.text| <= Scan(s, i, atLineStart).end
  {
    hide Scan, ScanMark, ScanNumber, IsWord, IsDecimal, IsHexadecimal, IsQuoted, Keyword, IsMark, TextAt, Spelling;
    if t.kind == TIdent {
      WordIsLongest(s, i, t.text, atLineStart);
    } else if t.kind == TNum {
      if IsDecimal(t.text) { DecimalIsLongest(s, i, t.text); } else { HexadecimalIsLongest(s, i, t.text); }
      NumberStarts(s, i, atLineStart);
    } else if t.kind == TString {
      StringIsLongest(s, i, t.text, atLineStart);
    } else if t.kind == TNewline {
      NewlineIsScanned(s, i, atLineStart);
    } else if IsMark(t.kind) {
      MarkIsLongest(s, i, t.kind);
      MarkStarts(s, i, atLineStart);
    } else if t.kind == TPercent {
      PercentIsSpelled();
      CharIsThere(s, i, '%');
      PercentIsLongest(s, i, atLineStart);
    } else {
      FixedKinds(t);
      WordIsLongest(s, i, t.text, atLineStart);
    }
  }

  lemma {:induction false} StringIsLongest(s: string, i: nat, w: string, atLineStart: bool)
    requires IsQuoted(w) && TextAt(s, i, w)
    ensures i < |s| && i + |w| <= Scan(s, i, atLineStart).end
  {
    hide Scan;
    TextChars(s, i, w);
    StringIsScanned(s, i, w, atLineStart);
  }

  // ----- With its type, and never as invalid -----

  /** `0x` or `0X` at `i` without a hexadecimal digit after it. */
  predicate PrefixAlone(s: string, i: nat) {
    && CharAt(s, i, '0') && (CharAt(s, i + 1, 'x') || CharAt(s, i + 1, 'X'))
    && !(i + 2 < |s| && ('0' <= s[i + 2] <= '9' || 'a' <= s[i + 2] <= 'f' || 'A' <= s[i + 2] <= 'F'))
  }

  lemma {:induction false} PrefixIsInvalid(s: string, i: nat, atLineStart: bool)
    requires PrefixAlone(s, i)
    ensures Scan(s, i, atLineStart) == Lexeme(TInvalid, i + 2)
  {
    hide ScanMark, SpanEnd;
  }

  lemma {:induction false} NumberIsValid(s: string, i: nat, atLineStart: bool)
    requires i < |s| && IsDigit(s[i]) && !PrefixAlone(s, i)
    ensures Scan(s, i, atLineStart).kind == TNum
  {
    hide ScanMark, SpanEnd;
  }

  lemma WordIsValid(s: string, i: nat, atLineStart: bool)
    requires i < |s| && (IsAlpha(s[i]) || s[i] == '_')
    ensures Scan(s, i, atLineStart).kind != TInvalid
  {
    hide ScanMark, ScanNumber, Keyword;
    KeywordsAreSpelled(s[i..SpanEnd(s, i + 1, Word)]);
  }

  /** Where a lexeme starts, whatever follows it, the token that is scanned is valid. */
  lemma {:induction false} LexemeIsValid(s: string, i: nat, t: Tok, atLineStart: bool)
    requires IsLexeme(t) && TextAt(s, i, t.text) && !PrefixAlone(s, i)
    ensures i < |s| && Scan(s, i, atLineStart).kind != TInvalid
  {
    hide Scan, ScanMark, ScanNumber, IsDecimal, IsHexadecimal, IsQuoted, Keyword, IsMark, TextAt, Spelling, PrefixAlone;
    hide IsWord;
    ScanIsLongest(s, i, t, atLineStart);
    if t.kind == TNum {
      if IsDecimal(t.text) { DecimalIsLongest(s, i, t.text); } else { HexadecimalIsLongest(s, i, t.text); }
      NumberIsValid(s, i, atLineStart);
    } else if t.kind == TString {
      StringIsScanned(s, i, t.text, atLineStart);
    } else if t.kind == TNewline {
      NewlineIsScanned(s, i, atLineStart);
    } else if t.kind != TIdent && IsMark(t.kind) {
      MarkIsLongest(s, i, t.kind);
      MarkStarts(s, i, atLineStart);
    } else if t.kind == TPercent {
      PercentIsSpelled();
      CharIsThere(s, i, '%');
      PercentIsValid(s, i, atLineStart);
    } else {
      if t.kind != TIdent { FixedKinds(t); }
      WordIsThere(s, i, t.text);
      WordIsValid(s, i, atLineStart);
    }
  }

  lemma PercentIsValid(s: string, i: nat, atLineStart: bool)
    requires CharAt(s, i, '%')
    ensures Scan(s, i, atLineStart).kind == TCtDirective || Scan(s, i, atLineStart).kind == TPercent
  {
    hide SpanEnd;
  }

  lemma WordIsThere(s: string, i: nat, w: string)
    requires IsWord(w) && TextAt(s, i, w)
    ensures i < |s| && (IsAlpha(s[i]) || s[i] == '_')
  {
    TextChars(s, i, w);
    WordStart(w);
  }

  /** A text is a lexeme of one type only. */
  lemma {:induction false} OneTypeEach(t: Tok, u: Tok)
    requires IsLexeme(t) && IsLexeme(u) && t.text == u.text
    ensures t == u
  {
    hide IsLexeme, Scan, Separated;
    WholeText(t.text);
    LexemeIsScanned(t.text, 0, t, false);
    LexemeIsScanned(t.text, 0, u, false);
  }

  lemma WholeText(w: string)
    ensures TextAt(w, 0, w) && Separated(w, |w|)
  {
    assert w[0..0 + |w|] == w;
  }

  /**
   Whatever comes after it, the token that is scanned where a lexeme starts is the longest lexeme there,
   with its type; a directive in its place is longer than `%`. Only a number's prefix without a digit is invalid.
   */
  lemma {:induction false} LongestLexemeIsScanned(s: string, i: nat, t: Tok, atLineStart: bool)
    requires IsLexeme(t) && TextAt(s, i, t.text)
    ensures i < |s|
    ensures var l := Scan(s, i, atLineStart);
            var u := Tok(l.kind, s[i..l.end]);
            if PrefixAlone(s, i) then l == Lexeme(TInvalid, i + 2)
            else
              && (IsLexeme(u) || (atLineStart && IsDirective(u)))
              && |t.text| <= |u.text| && (|t.text| == |u.text| ==> t == u)
  {
    hide Scan, IsLexeme, IsDirective, PrefixAlone, IsUnclosed;
    ScanIsLongest(s, i, t, atLineStart);
    if PrefixAlone(s, i) {
      PrefixIsInvalid(s, i, atLineStart);
    } else {
      LexemeIsValid(s, i, t, atLineStart);
      ScanIsLexeme(s, i, atLineStart);
      NotUnclosed(s, i, t, atLineStart);
      var l := Scan(s, i, atLineStart);
      var u := Tok(l.kind, s[i..l.end]);
      if |t.text| == |u.text| {
        SameText(s, i, t.text, l.end);
        if IsLexeme(u) { OneTypeEach(t, u); } else { NoLexemeIsDirective(t, u); }
      }
    }
  }

  lemma SameText(s: string, i: nat, t: string, end: nat)
    requires TextAt(s, i, t) && i + |t| == end <= |s|
    ensures s[i..end] == t
  {
  }

  lemma {:induction false} NoLexemeIsDirective(t: Tok, u: Tok)
    requires IsLexeme(t) && IsDirective(u)
    ensures t.text != u.text
  {
    hide IsLexeme, Scan, Separated, IsDirective;
    if t.text == u.text {
      WholeText(t.text);
      LexemeIsScanned(t.text, 0, t, true);
      DirectiveIsScanned(u);
      LexemeIsScanned(t.text, 0, t, false);
      PercentOnly(u);
    }
  }

  lemma {:induction false} DirectiveIsScanned(u: Tok)
    requires IsDirective(u)
    ensures Scan(u.text, 0, true) == Lexeme(TCtDirective, |u.text|)
  {
    SpanOf(u.text, 1, |u.text|, Word);
  }

  lemma PercentOnly(u: Tok)
    requires IsDirective(u)
    ensures Scan(u.text, 0, false) == Lexeme(TPercent, 1) && |u.text| > 1
  {
  }

  lemma {:induction false} NotUnclosed(s: string, i: nat, t: Tok, atLineStart: bool)
    requires IsLexeme(t) && TextAt(s, i, t.text) && i < |s|
    ensures var l := Scan(s, i, atLineStart);
            var u := Tok(l.kind, s[i..l.end]);
            (IsUnclosed(u) ==> IsLexeme(u)) && (IsDirective(u) ==> atLineStart)
  {
    hide ScanMark, ScanNumber, SpanEnd, Keyword, IsLexeme, TextAt, IsWord;
    if s[i] == '"' {
      FirstCharOf(s, i, t);
      StringIsScanned(s, i, t.text, atLineStart);
      SameText(s, i, t.text, i + |t.text|);
    }
  }

  /** Of all lexemes only strings start with a quote, and only `%` with that character. */
  lemma {:induction false} FirstCharOf(s: string, i: nat, t: Tok)
    requires LexemeAt(s, i, t) && i < |s|
    ensures s[i] == '"' ==> t.kind == TString && IsQuoted(t.text)
    ensures s[i] == '%' ==> t == Tok(TPercent, "%")
  {
    hide IsDecimal, IsHexadecimal, IsQuoted, Keyword, IsMark, TextAt, Spelling, IsWord;
    if t.kind == TNum {
      if IsDecimal(t.text) { DecimalIsLongest(s, i, t.text); } else { HexadecimalIsLongest(s, i, t.text); }
    } else if t.kind == TString {
      QuoteIsFirst(s, i, t.text);
    } else if t.kind == TNewline {
      CharIsThere(s, i, '\n');
    } else if t.kind != TIdent && IsMark(t.kind) {
      MarkIsLongest(s, i, t.kind);
    } else if t.kind == TPercent {
      PercentIsSpelled();
      CharIsThere(s, i, '%');
    } else {
      if t.kind != TIdent { FixedKinds(t); }
      WordIsThere(s, i, t.text);
    }
  }

  lemma QuoteIsFirst(s: string, i: nat, w: string)
    requires IsQuoted(w) && TextAt(s, i, w)
    ensures i < |s| && s[i] == '"'
  {
    TextChars(s, i, w);
  }

  ghost predicate LexemeAt(s: string, i: nat, t: Tok) {
    IsLexeme(t) && TextAt(s, i, t.text)
  }

  /** A character is invalid exactly when no lexeme and no string starts with it, or it starts a number's prefix without a digit. */
  lemma {:induction false} InvalidExactlyWhen(s: string, i: nat, atLineStart: bool)
    requires i < |s|
    ensures Scan(s, i, atLineStart).kind == TInvalid
       <==> PrefixAlone(s, i) || (s[i] != '"' && !exists t :: LexemeAt(s, i, t))
  {
    hide Scan, IsLexeme, IsDirective, PrefixAlone, IsUnclosed, TextAt;
    var l := Scan(s, i, atLineStart);
    var u := Tok(l.kind, s[i..l.end]);
    ShortTexts(s, i);
    if PrefixAlone(s, i) {
      PrefixIsInvalid(s, i, atLineStart);
    } else if s[i] == '"' {
      QuoteIsValid(s, i, atLineStart);
    } else if t :| LexemeAt(s, i, t) {
      LexemeIsValid(s, i, t, atLineStart);
    } else if l.kind != TInvalid {
      ScanIsLexeme(s, i, atLineStart);
      StandsThere(s, i, l.end);
      StartsWith(u);
      assert LexemeAt(s, i, if IsLexeme(u) then u else Tok(TPercent, "%")) by { if !IsLexeme(u) { PercentIsThere(s, i); } }
    }
  }

  lemma StandsThere(s: string, i: nat, end: nat)
    requires i < end <= |s|
    ensures TextAt(s, i, s[i..end]) && s[i..end][0] == s[i]
  {
  }

  lemma StartsWith(u: Tok)
    ensures IsDirective(u) ==> u.text != "" && u.text[0] == '%'
    ensures IsUnclosed(u) ==> u.text != "" && u.text[0] == '"'
  {
  }

  lemma PercentIsThere(s: string, i: nat)
    requires i < |s| && s[i] == '%'
    ensures LexemeAt(s, i, Tok(TPercent, "%"))
  {
    hide Spelling;
    PercentIsSpelled();
    ShortTexts(s, i);
  }

  lemma {:induction false} QuoteIsValid(s: string, i: nat, atLineStart: bool)
    requires i < |s| && s[i] == '"'
    ensures Scan(s, i, atLineStart).kind == TString
  {
    hide SpanEnd;
  }

  lemma {:induction false} InvalidLength(s: string, i: nat, atLineStart: bool)
    requires i < |s| && Scan(s, i, atLineStart).kind == TInvalid
    ensures Scan(s, i, atLineStart).end == if PrefixAlone(s, i) then i + 2 else i + 1
  {
    hide SpanEnd, Keyword;
    if IsAlpha(s[i]) || s[i] == '_' { WordIsValid(s, i, atLineStart); }
  }

  predicate WordCharAt(s: string, i: nat) {
    i < |s| && ('a' <= s[i] <= 'z' || 'A' <= s[i] <= 'Z' || '0' <= s[i] <= '9' || s[i] == '_')
  }

  /**
   What is scanned at `i`: two characters or one where nothing valid starts; a directive, if nothing came
   before it, up to the end of its word; a string that the end of the input cuts off; and otherwise the
   longest lexeme there is.
   */
  ghost predicate IsScanned(s: string, i: nat, first: bool, t: Tok) {
    if t.kind == TInvalid then
      if PrefixAlone(s, i) then |t.text| == 2
      else |t.text| == 1 && CharIsNot(s, i, '"') && !exists u :: LexemeAt(s, i, u)
    else if t.kind == TCtDirective then first && IsDirective(t) && !WordCharAt(s, i + |t.text|)
    else if IsUnclosed(t) then i + |t.text| == |s|
    else
      && IsLexeme(t) && (forall u :: LexemeAt(s, i, u) ==> |u.text| <= |t.text|)
      && !PrefixAlone(s, i) && !(first && t.kind == TPercent && WordCharAt(s, i + 1))
  }

  predicate CharIsNot(s: string, i: nat, c: char) {
    i < |s| && s[i] != c
  }

  lemma {:induction false} DirectiveStarts(s: string, i: nat, atLineStart: bool)
    requires i < |s|
    ensures var l := Scan(s, i, atLineStart);
            && (l.kind == TCtDirective <==> atLineStart && s[i] == '%' && WordCharAt(s, i + 1))
            && (l.kind == TCtDirective ==> !WordCharAt(s, l.end))
  {
    hide ScanMark, Keyword, ScanNumber;
    ShortTexts(s, i);
    if s[i] == '%' {
    } else if IsAlpha(s[i]) || s[i] == '_' {
      KeywordsAreSpelled(s[i..SpanEnd(s, i + 1, Word)]);
    } else if IsDigit(s[i]) {
      NumberIsLexeme(s, i);
    } else {
      MarkIsLexeme(s, i);
    }
  }

  lemma QuotedIsNotUnclosed(t: Tok)
    requires IsUnclosed(t)
    ensures !IsLexeme(t) && t.kind != TInvalid && t.kind != TCtDirective
  {
  }

  /** Everything that is scanned is that. */
  lemma {:induction false} ScanIsScanned(s: string, i: nat, first: bool)
    requires i < |s|
    ensures var l := Scan(s, i, first);
            IsScanned(s, i, first, Tok(l.kind, s[i..l.end]))
  {
    hide Scan, IsLexeme, IsDirective, PrefixAlone, IsUnclosed, TextAt, WordCharAt;
    var l := Scan(s, i, first);
    var u := Tok(l.kind, s[i..l.end]);
    InvalidExactlyWhen(s, i, first);
    ScanIsLexeme(s, i, first);
    DirectiveStarts(s, i, first);
    StandsThere(s, i, l.end);
    if u.kind == TInvalid { InvalidLength(s, i, first); }
    if PrefixAlone(s, i) { PrefixIsInvalid(s, i, first); }
    if IsUnclosed(u) { QuotedIsNotUnclosed(u); }
    if IsLexeme(u) { NoFixedKind(u); }
    if IsDirective(u) { DirectiveKind(u); }
    if u.kind == TPercent && IsLexeme(u) { FirstCharIsPercent(s, i, u); }
    forall t | LexemeAt(s, i, t) ensures i + |t.text| <= l.end { ScanIsLongest(s, i, t, first); }
  }

  lemma NoFixedKind(t: Tok)
    requires IsLexeme(t)
    ensures t.kind != TInvalid && t.kind != TCtDirective
  {
  }

  lemma DirectiveKind(t: Tok)
    requires IsDirective(t)
    ensures t.kind == TCtDirective && |t.text| > 1
  {
  }

  lemma FirstCharIsPercent(s: string, i: nat, t: Tok)
    requires LexemeAt(s, i, t) && t.kind == TPercent
    ensures i < |s| && s[i] == '%'
  {
    PercentIsSpelled();
    CharIsThere(s, i, '%');
  }

  /** And nothing else is. */
  lemma {:induction false} OnlyTheScanned(s: string, i: nat, first: bool, t: Tok)
    requires i < |s| && TextAt(s, i, t.text) && t.text != "" && IsScanned(s, i, first, t)
    ensures Scan(s, i, first) == Lexeme(t.kind, i + |t.text|)
  {
    hide Scan, IsLexeme, IsDirective, PrefixAlone, IsUnclosed, TextAt, WordCharAt;
    var l := Scan(s, i, first);
    var u := Tok(l.kind, s[i..l.end]);
    if t.kind == TInvalid {
      InvalidExactlyWhen(s, i, first);
      InvalidLength(s, i, first);
    } else if t.kind == TCtDirective {
      DirectiveIsRead(s, i, t);
    } else if IsUnclosed(t) {
      UnclosedIsRead(s, i, t, first);
    } else {
      LongestLexemeIsScanned(s, i, t, first);
      StandsThere(s, i, l.end);
      if IsLexeme(u) {
        assert LexemeAt(s, i, u);
      } else {
        DirectiveKind(u);
        DirectiveStarts(s, i, first);
        FirstCharOf(s, i, t);
      }
    }
  }

  lemma {:induction false} DirectiveIsRead(s: string, i: nat, t: Tok)
    requires TextAt(s, i, t.text) && IsDirective(t) && !WordCharAt(s, i + |t.text|)
    ensures i < |s| && Scan(s, i, true) == Lexeme(TCtDirective, i + |t.text|)
  {
    TextChars(s, i, t.text);
    SpanOf(s, i + 1, i + |t.text|, Word);
  }

  lemma {:induction false} UnclosedIsRead(s: string, i: nat, t: Tok, atLineStart: bool)
    requires TextAt(s, i, t.text) && IsUnclosed(t) && i + |t.text| == |s|
    ensures i < |s| && Scan(s, i, atLineStart) == Lexeme(t.kind, |s|)
  {
    TextChars(s, i, t.text);
    SpanOf(s, i + 1, |s|, InString);
  }
}

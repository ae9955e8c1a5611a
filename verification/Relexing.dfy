/** Printing tokens with gaps between them and lexing the text again. */
module Relexing {
  import opened Tokens
  import opened LexSpec
  import opened Comments
  import opened Gaps
  import opened Lexemes
  import opened LexTheorems

  /** Blanks and closed block comments on one line; a line comment can only come last. */
  ghost predicate OneLineGap(gap: seq<Piece>) {
    gap == [] ||
    match gap[0]
    case Space(c) => InClass(c, Blank) && OneLineGap(gap[1..])
    case BlockComment(p) => Clear(p) && LineBreaks(PieceText(gap[0])) == 0 && OneLineGap(gap[1..])
    case LineComment(text) => '\n' !in text && gap[1..] == []
    case OpenComment(_) => false
  }

  predicate EndsLine(k: TokenType) {
    k == TNewline || k == TEnd
  }

  /** Complete tokens up to the end token, with a gap between any two that do not meet at a line break. */
  ghost predicate Printable(tiles: seq<Tile>) {
    && tiles != [] && OneLineGap(tiles[0].gap)
    && if |tiles| == 1 then tiles[0].tok == Tok(TEnd, "")
       else
         && IsLexeme(tiles[0].tok) && Printable(tiles[1..])
         && (tiles[0].tok.kind == TNewline || tiles[1].gap != [] || EndsLine(tiles[1].tok.kind))
  }

  predicate EndsWithLineComment(gap: seq<Piece>) {
    gap != [] && gap[|gap| - 1].LineComment?
  }

  predicate StartsWithComment(gap: seq<Piece>) {
    gap != [] && !gap[0].Space?
  }

  /** No line comment runs into a token, and no slash into a comment. */
  ghost predicate KeptApart(tiles: seq<Tile>) {
    tiles == [] || (FirstKeptApart(tiles) && KeptApart(tiles[1..]))
  }

  ghost predicate FirstKeptApart(tiles: seq<Tile>)
    requires tiles != []
  {
    && (EndsWithLineComment(tiles[0].gap) ==> EndsLine(tiles[0].tok.kind))
    && (tiles[0].tok.kind == TSlash && |tiles| > 1 ==> !StartsWithComment(tiles[1].gap))
  }

  // ----- Gaps -----

  lemma {:induction false} GapStands(s: string, i: nat, gap: seq<Piece>)
    requires OneLineGap(gap) && TextAt(s, i, GapText(gap)) && EndsGap(s, i + |GapText(gap)|)
    requires EndsWithLineComment(gap) ==> LineEndsAt(s, i + |GapText(gap)|)
    ensures GapAt(s, i, i + |GapText(gap)|, gap) && !LastBreaks(gap, false)
    decreases |gap|
  {
    hide PieceText, Clear, LineBreaks, TextAt, EndsGap;
    if gap != [] {
      var rest := gap[1..];
      TextSplit(s, i, PieceText(gap[0]), GapText(rest));
      if rest == [] { assert GapText(rest) == ""; } else { assert rest[|rest| - 1] == gap[|gap| - 1]; }
      if !gap[0].LineComment? { GapStands(s, i + |PieceText(gap[0])|, rest); }
    }
  }

  /** After such a gap, a comment to the end of the line is skipped too. */
  lemma {:induction false} GapRunsOn(s: string, i: nat, gap: seq<Piece>)
    requires OneLineGap(gap) && TextAt(s, i, GapText(gap))
    requires EndsWithLineComment(gap) || MarkAt(s, i + |GapText(gap)|, '/', '/')
    ensures !SkipGap(s, i, false).newline && LineEndsAt(s, SkipGap(s, i, false).end)
    decreases |gap|
  {
    hide PieceText, Clear, LineBreaks, TextAt, SkipGap, ScanComment;
    if gap == [] {
      LineStep(s, i, false);
    } else {
      var rest := gap[1..];
      TextSplit(s, i, PieceText(gap[0]), GapText(rest));
      assert rest != [] ==> rest[|rest| - 1] == gap[|gap| - 1];
      PieceLength(gap[0]);
      match gap[0]
      case Space(c) =>
        GapRunsOn(s, i + 1, rest);
        CharText(s, i, c);
        BlankStep(s, i, false);
      case BlockComment(p) =>
        GapRunsOn(s, i + |PieceText(gap[0])|, rest);
        BlockIsRead(s, i, p);
        BlockStep(s, i, false);
      case LineComment(text) =>
        LineText(s, i, text);
        LineStep(s, i, false);
    }
  }

  lemma LineText(s: string, i: nat, text: string)
    requires TextAt(s, i, PieceText(LineComment(text)))
    ensures MarkAt(s, i, '/', '/')
  {
    hide TextAt;
    SlashText(s, i, '/', text);
  }

  // ----- What a token starts with, and what follows it -----

  lemma LexemeStarts(s: string, i: nat, t: Tok)
    requires IsLexeme(t) && TextAt(s, i, t.text)
    ensures t.text != "" && i < |s| && !InClass(s[i], Blank) && (s[i] == '/' ==> t.kind == TSlash && t.text == "/")
  {
    hide TextAt, InClass;
    FirstOfLexeme(t);
    TextChars(s, i, t.text);
  }

  lemma {:induction false} FirstOfLexeme(t: Tok)
    requires IsLexeme(t)
    ensures t.text != "" && !InClass(t.text[0], Blank) && (t.text[0] == '/' ==> t.kind == TSlash && t.text == "/")
    ensures t.text[0] != '#'
  {
    hide Spelling;
    if t.kind == TIdent {
      assert InClass(t.text[0], Word);
    } else if t.kind == TNum {
      if IsDecimal(t.text) { assert Numbers.IsDigit(t.text[0]); }
    } else if t.kind != TString && t.kind != TNewline {
      FirstOfFixed(t);
    }
  }

  lemma {:induction false} FirstOfFixed(t: Tok)
    requires Spelling(t.kind) == Some(t.text)
    ensures t.text != "" && !InClass(t.text[0], Blank) && (t.text[0] == '/' ==> t.kind == TSlash && t.text == "/")
    ensures t.text[0] != '#'
  {
    hide Spelling, Keyword, IsMark, IsWord;
    if IsMark(t.kind) {
      FirstOfMark(t.kind);
    } else if t.kind == TPercent {
      PercentIsSpelled();
    } else {
      FixedKinds(t);
      FirstOfWord(t.text);
    }
  }

  lemma {:induction false} FirstOfWord(w: string)
    requires IsWord(w)
    ensures w != "" && !InClass(w[0], Blank) && w[0] != '/' && w[0] != '#'
  {
    assert InClass(w[0], Word);
  }

  lemma FirstOfMark(k: TokenType)
    requires IsMark(k) && Spelling(k).Some?
    ensures var t := Spelling(k).value;
            t != "" && !InClass(t[0], Blank) && (t[0] == '/' ==> k == TSlash && t == "/") && t[0] != '#'
  {
    hide Spelling;
    MarkSpellings();
  }

  lemma PieceStarts(s: string, i: nat, p: Piece)
    requires TextAt(s, i, PieceText(p))
    ensures i < |s| && s[i] == (if p.Space? then p.c else '/')
    ensures |PieceText(p)| >= 1
  {
    TextChars(s, i, PieceText(p));
  }

  lemma {:induction false} SplitTiles(s: string, i: nat, tiles: seq<Tile>)
    requires tiles != [] && TextAt(s, i, TilesText(tiles))
    ensures var start := i + |GapText(tiles[0].gap)|;
            var end := start + |tiles[0].tok.text|;
            && TextAt(s, i, GapText(tiles[0].gap)) && TextAt(s, start, tiles[0].tok.text)
            && TextAt(s, end, TilesText(tiles[1..])) && end + |TilesText(tiles[1..])| == i + |TilesText(tiles)|
  {
    hide TextAt, GapText;
    var g, t, rest := GapText(tiles[0].gap), tiles[0].tok.text, TilesText(tiles[1..]);
    TextSplit(s, i, g + t, rest);
    TextSplit(s, i, g, t);
  }

  lemma {:induction false} GapFirst(s: string, i: nat, gap: seq<Piece>)
    requires gap != [] && TextAt(s, i, GapText(gap))
    ensures TextAt(s, i, PieceText(gap[0]))
  {
    hide TextAt, PieceText;
    TextSplit(s, i, PieceText(gap[0]), GapText(gap[1..]));
  }

  /** What follows a token: a blank, a comment, a line break or the end. */
  lemma {:induction false} FollowsApart(s: string, i: nat, tiles: seq<Tile>)
    requires Printable(tiles) && TextAt(s, i, TilesText(tiles)) && i + |TilesText(tiles)| == |s|
    requires tiles[0].gap != [] || EndsLine(tiles[0].tok.kind)
    ensures Separated(s, i)
    ensures StartsWithComment(tiles[0].gap) <==> CharAt(s, i, '/')
  {
    hide TextAt, PieceText, GapText, TilesText, IsLexeme, Clear, LineBreaks;
    SplitTiles(s, i, tiles);
    if tiles[0].gap != [] {
      GapFirst(s, i, tiles[0].gap);
      PieceStarts(s, i, tiles[0].gap[0]);
    } else {
      NoGapText();
      if tiles[0].tok.kind == TNewline {
        if |tiles| > 1 { NewlineText(tiles[0].tok); }
        CharText(s, i, '\n');
      } else {
        if |tiles| > 1 { OnlyLastEnds(tiles[0].tok); }
        assert tiles[1..] == [];
        NoTiles();
      }
    }
  }

  lemma NoGapText()
    ensures GapText([]) == ""
  {
  }

  lemma NoTiles()
    ensures TilesText([]) == ""
  {
  }

  // ----- One token after another -----

  /** A first tile that is kept apart is what is lexed first. */
  lemma {:induction false} FirstIsLexed(s: string, i: nat, tiles: seq<Tile>, atLineStart: bool)
    requires Printable(tiles) && TextAt(s, i, TilesText(tiles)) && i + |TilesText(tiles)| == |s|
    requires FirstKeptApart(tiles)
    ensures var start := i + |GapText(tiles[0].gap)|;
            var l := Next(s, i, atLineStart);
            && l.kind == tiles[0].tok.kind && l.start == start && l.end == start + |tiles[0].tok.text|
            && TokOf(s, l) == tiles[0].tok
  {
    hide SkipGap, Scan, GapAt, LastBreaks, GapText, TilesText, OneLineGap, IsLexeme, Separated, EndsGap, LineEndsAt;
    var start := i + |GapText(tiles[0].gap)|;
    SplitTiles(s, i, tiles);
    TokenStands(s, start, tiles, atLineStart);
    GapStands(s, i, tiles[0].gap);
    PiecesAreSkipped(s, i, start, tiles[0].gap, false);
  }

  /** The first token itself, after its gap. */
  lemma {:induction false} TokenStands(s: string, start: nat, tiles: seq<Tile>, atLineStart: bool)
    requires Printable(tiles) && FirstKeptApart(tiles) && TextAt(s, start, tiles[0].tok.text)
    requires var end := start + |tiles[0].tok.text|;
             TextAt(s, end, TilesText(tiles[1..])) && end + |TilesText(tiles[1..])| == |s|
    ensures EndsGap(s, start) && (EndsLine(tiles[0].tok.kind) ==> LineEndsAt(s, start))
    ensures start < |s| && |tiles| > 1 ==> Scan(s, start, atLineStart) == Lexeme(tiles[0].tok.kind, start + |tiles[0].tok.text|)
    ensures start < |s| <==> |tiles| > 1
  {
    hide Scan, GapText, TilesText, OneLineGap, IsLexeme, Separated, EndsGap, LineEndsAt, TextAt;
    var t := tiles[0].tok;
    if |tiles| == 1 {
      assert tiles[1..] == [];
      NoTiles();
      NothingAtTheEnd(s);
    } else {
      var end := start + |t.text|;
      LexemeStarts(s, start, t);
      if t.kind == TNewline {
        NewlineText(t);
        NewlineIsScanned(s, start, atLineStart);
        StartsLine(s, start);
      } else {
        FollowsApart(s, end, tiles[1..]);
        LexemeIsScanned(s, start, t, atLineStart);
        OnlyLastEnds(t);
      }
      GapEndsHere(s, start, t);
    }
  }

  lemma GapEndsHere(s: string, i: nat, t: Tok)
    requires IsLexeme(t) && TextAt(s, i, t.text)
    requires t.kind == TSlash ==> Separated(s, i + |t.text|) && !CharAt(s, i + |t.text|, '/')
    ensures EndsGap(s, i)
  {
    hide IsLexeme;
    LexemeStarts(s, i, t);
    if t.kind == TSlash { SlashIsText(t); }
  }

  lemma NothingAtTheEnd(s: string)
    ensures EndsGap(s, |s|) && LineEndsAt(s, |s|)
  {
  }

  lemma NewlineText(t: Tok)
    requires IsLexeme(t) && t.kind == TNewline
    ensures t.text == "\n"
  {
  }

  lemma StartsLine(s: string, i: nat)
    requires TextAt(s, i, "\n")
    ensures LineEndsAt(s, i)
  {
    CharText(s, i, '\n');
  }

  /** Otherwise a comment swallows the token. */
  lemma {:induction false} FirstIsSwallowed(s: string, i: nat, tiles: seq<Tile>, atLineStart: bool)
    requires Printable(tiles) && TextAt(s, i, TilesText(tiles)) && i + |TilesText(tiles)| == |s|
    requires !FirstKeptApart(tiles)
    ensures Next(s, i, atLineStart).kind != tiles[0].tok.kind
  {
    hide SkipGap, GapText, TilesText, OneLineGap, IsLexeme, TextAt, Separated;
    var t, gap := tiles[0].tok, tiles[0].gap;
    var start: nat := i + |GapText(gap)|;
    SplitTiles(s, i, tiles);
    if !EndsWithLineComment(gap) || EndsLine(t.kind) { SlashOpensComment(s, start, tiles); }
    GapRunsOn(s, i, gap);
    LineEndIsLexed(s, i, atLineStart);
  }

  lemma {:induction false} SlashOpensComment(s: string, i: nat, tiles: seq<Tile>)
    requires Printable(tiles) && |tiles| > 1 && tiles[0].tok.kind == TSlash && StartsWithComment(tiles[1].gap)
    requires TextAt(s, i, tiles[0].tok.text)
    requires var end := i + |tiles[0].tok.text|;
             TextAt(s, end, TilesText(tiles[1..])) && end + |TilesText(tiles[1..])| == |s|
    ensures MarkAt(s, i, '/', '/')
  {
    hide GapText, TilesText, OneLineGap, IsLexeme, TextAt, Separated;
    SlashIsText(tiles[0].tok);
    CharText(s, i, '/');
    FollowsApart(s, i + 1, tiles[1..]);
  }

  lemma SlashIsText(t: Tok)
    requires IsLexeme(t) && t.kind == TSlash
    ensures t.text == "/"
  {
  }

  lemma {:induction false} LineEndIsLexed(s: string, i: nat, atLineStart: bool)
    requires i <= |s| && !SkipGap(s, i, false).newline && LineEndsAt(s, SkipGap(s, i, false).end)
    ensures EndsLine(Next(s, i, atLineStart).kind)
  {
    hide SkipGap;
  }

  lemma {:induction false} RelexTiles(s: string, i: nat, tiles: seq<Tile>, atLineStart: bool)
    requires Printable(tiles) && TextAt(s, i, TilesText(tiles)) && i + |TilesText(tiles)| == |s|
    ensures LexFrom(s, i, atLineStart) == ToksOf(tiles) <==> KeptApart(tiles)
    decreases |tiles|
  {
    hide TextAt, TilesText, Next, FirstKeptApart, GapText, IsLexeme, OneLineGap;
    var l := Next(s, i, atLineStart);
    SplitTiles(s, i, tiles);
    assert ToksOf(tiles) == [tiles[0].tok] + ToksOf(tiles[1..]);
    if !FirstKeptApart(tiles) {
      FirstIsSwallowed(s, i, tiles, atLineStart);
      assert LexFrom(s, i, atLineStart)[0].kind == l.kind;
    } else {
      FirstIsLexed(s, i, tiles, atLineStart);
      if |tiles| > 1 {
        OnlyLastEnds(tiles[0].tok);
        RelexTiles(s, l.end, tiles[1..], l.atLineStart);
        SameTail(tiles[0].tok, LexFrom(s, l.end, l.atLineStart), ToksOf(tiles[1..]));
      } else {
        assert tiles[1..] == [];
      }
    }
  }

  lemma OnlyLastEnds(t: Tok)
    requires IsLexeme(t)
    ensures t.kind != TEnd
  {
  }

  lemma SameTail(t: Tok, a: seq<Tok>, b: seq<Tok>)
    ensures [t] + a == [t] + b <==> a == b
  {
    if [t] + a == [t] + b {
      assert a == ([t] + a)[1..] && b == ([t] + b)[1..];
    }
  }

  /**
   Printed tokens are lexed back, types and texts, whatever blanks and one-line comments stand
   between them, exactly when no line comment runs into a token and no slash into a comment.
   */
  lemma {:induction false} PrintedTokensAreLexedBack(tiles: seq<Tile>)
    requires Printable(tiles)
    ensures Lex(TilesText(tiles)) == ToksOf(tiles) <==> KeptApart(tiles)
  {
    hide TilesText, LexFrom, ToksOf, Printable, KeptApart;
    var s := TilesText(tiles);
    assert s[0..0 + |s|] == s;
    RelexTiles(s, 0, tiles, true);
  }

  /** No printed text begins like a shebang line. */
  lemma {:induction false} PrintedHasNoHash(tiles: seq<Tile>)
    requires Printable(tiles)
    ensures var s := TilesText(tiles);
            s == "" || s[0] != '#'
  {
    hide GapText, TilesText, IsLexeme, OneLineGap, TextAt;
    var s := TilesText(tiles);
    assert TextAt(s, 0, s) by { WholeText(s); }
    SplitTiles(s, 0, tiles);
    if tiles[0].gap != [] {
      GapFirst(s, 0, tiles[0].gap);
      PieceStarts(s, 0, tiles[0].gap[0]);
      FirstIsBlank(tiles[0].gap);
    } else if |tiles| > 1 {
      NoGapText();
      FirstOfLexeme(tiles[0].tok);
      TextChars(s, 0, tiles[0].tok.text);
    } else {
      NoGapText();
      assert tiles[1..] == [];
      NoTiles();
    }
  }

  lemma WholeText(s: string)
    ensures TextAt(s, 0, s)
  {
  }

  lemma {:induction false} FirstIsBlank(gap: seq<Piece>)
    requires OneLineGap(gap) && gap != []
    ensures gap[0].Space? ==> InClass(gap[0].c, Blank)
  {
  }

  // ----- Single blanks -----

  /** Tokens with a blank before each of them, and the end token. */
  ghost function Spaced(toks: seq<Tok>): (tiles: seq<Tile>)
    ensures tiles != []
  {
    if toks == [] then [Tile([], Tok(TEnd, ""))] else [Tile([Space(' ')], toks[0])] + Spaced(toks[1..])
  }

  ghost function SpacedText(toks: seq<Tok>): string {
    if toks == [] then "" else " " + toks[0].text + SpacedText(toks[1..])
  }

  lemma {:induction false} SpacedIsPrintable(toks: seq<Tok>)
    requires forall t :: t in toks ==> IsLexeme(t)
    ensures Printable(Spaced(toks)) && KeptApart(Spaced(toks)) && ToksOf(Spaced(toks)) == toks + [Tok(TEnd, "")]
    ensures TilesText(Spaced(toks)) == SpacedText(toks)
    ensures toks != [] ==> Spaced(toks)[0] == Tile([Space(' ')], toks[0])
    decreases |toks|
  {
    hide IsLexeme;
    var tiles := Spaced(toks);
    OneSpace();
    if toks == [] {
      NoGapText();
      assert tiles[1..] == [];
      assert [] + [Tok(TEnd, "")] == [Tok(TEnd, "")];
    } else {
      SpacedIsPrintable(toks[1..]);
      assert tiles[1..] == Spaced(toks[1..]);
      assert toks == [toks[0]] + toks[1..];
    }
  }

  lemma OneSpace()
    ensures OneLineGap([Space(' ')]) && GapText([Space(' ')]) == " "
  {
    assert [Space(' ')][1..] == [];
  }

  /** Complete tokens printed with single blanks are always lexed back. */
  lemma {:induction false} SpacedTokensAreLexedBack(toks: seq<Tok>)
    requires forall t :: t in toks ==> IsLexeme(t)
    ensures Lex(SpacedText(toks)) == toks + [Tok(TEnd, "")]
  {
    hide IsLexeme, Printable, KeptApart, ToksOf, LexFrom, Spaced, SpacedText;
    SpacedIsPrintable(toks);
    PrintedTokensAreLexedBack(Spaced(toks));
  }
}

/** What holds of all the tokens of an input. */
module LexTheorems {
  import opened Tokens
  import opened Numbers
  import opened LexSpec
  import opened LineCounts
  import opened Comments
  import opened Gaps
  import opened Lexemes

  // ----- Tiling -----

  /** A gap and the token after it. */
  datatype Tile = Tile(gap: seq<Piece>, tok: Tok)

  ghost function TilesText(tiles: seq<Tile>): string {
    if tiles == [] then "" else GapText(tiles[0].gap) + tiles[0].tok.text + TilesText(tiles[1..])
  }

  ghost function TilesFrom(s: string, pos: nat, atLineStart: bool): (tiles: seq<Tile>)
    requires pos <= |s|
    ensures tiles != []
    decreases |s| - pos
  {
    var l := Next(s, pos, atLineStart);
    var tile := Tile(PiecesFrom(s, pos), TokOf(s, l));
    if l.kind == TEnd then [tile] else [tile] + TilesFrom(s, l.end, l.atLineStart)
  }

  /** Whether a tile is right where it stands: its gap is made of pieces, and its token is what is scanned after them. */
  ghost predicate TileAt(s: string, pos: nat, first: bool, t: Tile) {
    var start := pos + |GapText(t.gap)|;
    && GapAt(s, pos, start, t.gap) && TextAt(s, start, t.tok.text)
    && if LastBreaks(t.gap, false) then t.tok == Tok(TNewline, "")
       else if start == |s| then t.tok == Tok(TEnd, "")
       else t.tok.text != "" && IsScanned(s, start, first, t.tok)
  }

  /** `first`: no token with a text came before. */
  ghost predicate TilesAt(s: string, pos: nat, first: bool, tiles: seq<Tile>)
    decreases |tiles|
  {
    && tiles != [] && TileAt(s, pos, first, tiles[0])
    && var next := pos + |GapText(tiles[0].gap)| + |tiles[0].tok.text|;
       if |tiles| == 1 then tiles[0].tok.kind == TEnd
       else tiles[0].tok.kind != TEnd && TilesAt(s, next, first && tiles[0].tok.text == "", tiles[1..])
  }

  /** One call of the lexer reads the one tile that is right there. */
  lemma {:induction false} NextIsTile(s: string, pos: nat, first: bool)
    requires pos <= |s|
    ensures var l := Next(s, pos, first);
            var gap := PiecesFrom(s, pos);
            && TileAt(s, pos, first, Tile(gap, TokOf(s, l)))
            && |GapText(gap)| == l.start - pos && s[pos..l.start] == GapText(gap)
            && l.atLineStart == (first && (l.start == l.end))
  {
    hide SkipGap, PiecesFrom, GapAt, LastBreaks, GapText, Scan, IsScanned;
    SkippedPieces(s, pos, false);
    var g := SkipGap(s, pos, false);
    GapRebuilds(s, pos, g.end, PiecesFrom(s, pos));
    if !g.newline && g.end < |s| { ScanIsScanned(s, g.end, first); }
  }

  lemma {:induction false} OnlyTheTile(s: string, pos: nat, first: bool, t: Tile)
    requires pos <= |s| && TileAt(s, pos, first, t)
    ensures t == Tile(PiecesFrom(s, pos), TokOf(s, Next(s, pos, first)))
    ensures Next(s, pos, first).end == pos + |GapText(t.gap)| + |t.tok.text|
  {
    hide SkipGap, PiecesFrom, GapAt, LastBreaks, GapText, Scan, IsScanned;
    var start := pos + |GapText(t.gap)|;
    GapsAreSequencesOfPieces(s, pos, start, LastBreaks(t.gap, false));
    GapRebuilds(s, pos, start, t.gap);
    if !LastBreaks(t.gap, false) && start < |s| {
      OnlyTheScanned(s, start, first, t.tok);
      SameText(s, start, t.tok.text, start + |t.tok.text|);
    }
  }

  lemma {:induction false} TilesAtStep(s: string, pos: nat, first: bool, tile: Tile, rest: seq<Tile>)
    ensures TilesAt(s, pos, first, [tile] + rest)
       <==> && TileAt(s, pos, first, tile)
            && if rest == [] then tile.tok.kind == TEnd
               else
                 && tile.tok.kind != TEnd
                 && TilesAt(s, pos + |GapText(tile.gap)| + |tile.tok.text|, first && tile.tok.text == "", rest)
  {
    hide TileAt, GapText;
    assert ([tile] + rest)[1..] == rest;
  }

  lemma {:induction false} TilesFromStep(s: string, pos: nat, first: bool)
    requires pos <= |s|
    ensures var l := Next(s, pos, first);
            TilesFrom(s, pos, first) == [Tile(PiecesFrom(s, pos), TokOf(s, l))] +
                                        (if l.kind == TEnd then [] else TilesFrom(s, l.end, l.atLineStart))
  {
    hide Next, PiecesFrom, TokOf;
  }

  lemma {:induction false} NextTile(s: string, pos: nat, first: bool)
    requires pos <= |s|
    ensures var l := Next(s, pos, first);
            var tile := Tile(PiecesFrom(s, pos), TokOf(s, l));
            && TileAt(s, pos, first, tile) && tile.tok.kind == l.kind
            && pos + |GapText(tile.gap)| + |tile.tok.text| == l.end && l.atLineStart == (first && tile.tok.text == "")
  {
    hide Next, PiecesFrom, TileAt, GapText;
    NextIsTile(s, pos, first);
    NextTexts(s, pos, first);
  }

  /** Tiles that are right from `pos` on are exactly what the lexer reads from there. */
  lemma {:induction false} LexingIsTiling(s: string, pos: nat, first: bool, tiles: seq<Tile>)
    requires pos <= |s|
    ensures TilesAt(s, pos, first, tiles) <==> tiles == TilesFrom(s, pos, first)
    decreases |s| - pos
  {
    hide Next, PiecesFrom, TileAt, GapText, TokOf, TilesAt, TilesFrom;
    var l := Next(s, pos, first);
    var tile := Tile(PiecesFrom(s, pos), TokOf(s, l));
    NextTile(s, pos, first);
    TilesFromStep(s, pos, first);
    if tiles == [] {
      NoTilesAt(s, pos, first);
    } else {
      assert tiles == [tiles[0]] + tiles[1..];
      TilesAtStep(s, pos, first, tiles[0], tiles[1..]);
      if TileAt(s, pos, first, tiles[0]) { OnlyTheTile(s, pos, first, tiles[0]); }
      if l.kind != TEnd {
        LexingIsTiling(s, l.end, l.atLineStart, tiles[1..]);
      }
    }
  }

  lemma {:induction false} NoTilesAt(s: string, pos: nat, first: bool)
    ensures !TilesAt(s, pos, first, [])
  {
  }

  lemma NextTexts(s: string, pos: nat, first: bool)
    requires pos <= |s|
    ensures var l := Next(s, pos, first);
            TokOf(s, l).kind == l.kind && |TokOf(s, l).text| == l.end - l.start
  {
    hide Next;
  }

  /** The pieces and the texts of the tokens, put one after another, are the input. */
  lemma {:induction false} TilesRebuild(s: string, pos: nat, first: bool)
    requires pos <= |s|
    ensures TilesText(TilesFrom(s, pos, first)) == s[pos..]
    decreases |s| - pos
  {
    hide Next, PiecesFrom, TileAt, GapText, TilesText;
    var l, gap := Next(s, pos, first), PiecesFrom(s, pos);
    var tile := Tile(gap, TokOf(s, l));
    NextIsTile(s, pos, first);
    if l.kind == TEnd {
      OneTileText(tile);
      assert s[pos..] == s[pos..l.start] + s[l.start..l.end];
    } else {
      TilesRebuild(s, l.end, l.atLineStart);
      TilesTextCons(tile, TilesFrom(s, l.end, l.atLineStart));
      assert s[pos..] == s[pos..l.start] + s[l.start..l.end] + s[l.end..];
    }
  }

  lemma {:induction false} TilesTextCons(tile: Tile, rest: seq<Tile>)
    ensures TilesText([tile] + rest) == GapText(tile.gap) + tile.tok.text + TilesText(rest)
  {
    hide GapText;
    assert ([tile] + rest)[1..] == rest;
  }

  lemma {:induction false} OneTileText(tile: Tile)
    ensures TilesText([tile]) == GapText(tile.gap) + tile.tok.text
  {
    hide GapText;
    assert [tile][1..] == [];
  }

  ghost function ToksOf(tiles: seq<Tile>): seq<Tok> {
    if tiles == [] then [] else [tiles[0].tok] + ToksOf(tiles[1..])
  }

  lemma {:induction false} TilesAreTokens(s: string, pos: nat, atLineStart: bool)
    requires pos <= |s|
    ensures ToksOf(TilesFrom(s, pos, atLineStart)) == LexFrom(s, pos, atLineStart)
    decreases |s| - pos
  {
    hide Next, PiecesFrom;
    var l := Next(s, pos, atLineStart);
    var tile := Tile(PiecesFrom(s, pos), TokOf(s, l));
    if l.kind == TEnd {
      assert [tile][1..] == [];
    } else {
      TilesAreTokens(s, l.end, l.atLineStart);
      assert ([tile] + TilesFrom(s, l.end, l.atLineStart))[1..] == TilesFrom(s, l.end, l.atLineStart);
    }
  }

  /**
   The lexer, without a scan: its tokens are those of the one tiling of the input by gaps and, after each
   of them, what is scanned there; nothing is lost and nothing read twice.
   */
  lemma {:induction false} InputIsTiled(s: string, toks: seq<Tok>)
    ensures toks == Lex(s) <==> exists tiles :: ToksOf(tiles) == toks && TilesAt(s, 0, true, tiles)
    ensures forall tiles :: TilesAt(s, 0, true, tiles) ==> TilesText(tiles) == s
  {
    hide TilesAt, ToksOf, LexFrom, TilesText;
    var read := TilesFrom(s, 0, true);
    TilesRebuild(s, 0, true);
    TilesAreTokens(s, 0, true);
    LexingIsTiling(s, 0, true, read);
    forall tiles | TilesAt(s, 0, true, tiles) ensures tiles == read { LexingIsTiling(s, 0, true, tiles); }
    assert s[0..] == s;
  }

  /** Only the first token can be a directive; empty newlines before it do not count. */
  lemma {:induction false} OnlyTheFirstIsDirective(s: string, pos: nat, first: bool, k: nat)
    requires pos <= |s| && k < |LexFrom(s, pos, first)| && LexFrom(s, pos, first)[k].kind == TCtDirective
    ensures first && forall j :: 0 <= j < k ==> LexFrom(s, pos, first)[j] == Tok(TNewline, "")
    decreases k
  {
    hide Next, TileAt, PiecesFrom, TokOf;
    var l := Next(s, pos, first);
    NextIsTile(s, pos, first);
    NextTexts(s, pos, first);
    TileOfText(s, pos, first, Tile(PiecesFrom(s, pos), TokOf(s, l)));
    if k > 0 {
      OnlyTheFirstIsDirective(s, l.end, l.atLineStart, k - 1);
      forall j | 0 < j < k ensures LexFrom(s, pos, first)[j] == Tok(TNewline, "") {
        assert LexFrom(s, pos, first)[j] == LexFrom(s, l.end, l.atLineStart)[j - 1];
      }
    }
  }

  lemma TileOfText(s: string, pos: nat, first: bool, t: Tile)
    requires TileAt(s, pos, first, t)
    ensures t.tok.text == "" && t.tok.kind != TEnd ==> t.tok == Tok(TNewline, "")
    ensures t.tok.kind == TCtDirective ==> first
  {
    hide GapAt, GapText, LastBreaks, IsLexeme;
  }

  // ----- What every token is -----

  ghost predicate IsToken(t: Tok) {
    t.kind == TInvalid || t == Tok(TEnd, "") || t == Tok(TNewline, "") || IsLexeme(t) || IsDirective(t) || IsUnclosed(t)
  }

  lemma {:induction false} TokensAreLexemes(s: string, pos: nat, atLineStart: bool)
    requires pos <= |s|
    ensures forall t :: t in LexFrom(s, pos, atLineStart) ==> IsToken(t)
    decreases |s| - pos
  {
    hide Next, IsToken;
    var l := Next(s, pos, atLineStart);
    NextIsToken(s, pos, atLineStart);
    if l.kind != TEnd { TokensAreLexemes(s, l.end, l.atLineStart); }
  }

  lemma {:induction false} NextIsToken(s: string, pos: nat, atLineStart: bool)
    requires pos <= |s|
    ensures IsToken(TokOf(s, Next(s, pos, atLineStart)))
  {
    hide SkipGap, Scan, IsLexeme, IsDirective, IsUnclosed;
    var g := SkipGap(s, pos, false);
    if !g.newline && g.end < |s| { ScanIsScanned(s, g.end, atLineStart); }
  }

  /** A token with a type that has one spelling has that spelling. */
  lemma TokensAreSpelled(t: Tok)
    requires IsToken(t)
    ensures Spelled(t)
  {
  }

  /**
   A number has no dot, so that it is always read as an integer, and it denotes one; it is accepted
   exactly when that integer is at most 2^63-1.
   */
  lemma NumbersAreIntegers(t: Tok)
    requires IsToken(t) && t.kind == TNum
    ensures '.' !in t.text && (IsDecimal(t.text) || IsHexadecimal(t.text))
    ensures Numeral(t.text).Some? && Numeral(t.text).value >= 0
    ensures FittingNumeral(t.text).Some? <==> Numeral(t.text).value <= INT64_MAX
  {
    hide Value;
    var w := t.text;
    if IsDecimal(w) {
      assert IsDigit(w[0]) && (|w| > 1 ==> IsDigit(w[1]));
      assert forall i :: 0 <= i < |w| ==> IsDigit(w[i]);
    } else {
      assert forall i :: 2 <= i < |w| ==> w[i] == w[2..][i - 2] && IsHexDigit(w[i]);
    }
  }

  // ----- Emitted tokens and their texts -----

  function TextOf(s: string, t: Token): Tok {
    Tok(t.kind, if t.start + t.length <= |s| then s[t.start..t.start + t.length] else "")
  }

  function TextsOf(s: string, ts: seq<Token>): (toks: seq<Tok>)
    ensures |toks| == |ts|
  {
    if ts == [] then [] else [TextOf(s, ts[0])] + TextsOf(s, ts[1..])
  }

  /** The emitted tokens and an end token stand for the lexed texts. */
  lemma {:induction false} EmittedTexts(s: string, pos: nat, atLineStart: bool, line: nat, end: Token)
    requires pos <= |s| && end.kind == TEnd && end.length == 0
    ensures TextsOf(s, EmitFrom(s, pos, atLineStart, line) + [end]) == LexFrom(s, pos, atLineStart)
    decreases |s| - pos
  {
    hide Next, LineBreaks, EmitFrom, TextsOf, TextOf, LineAfter, Emit;
    var l := Next(s, pos, atLineStart);
    EmitStep(s, pos, atLineStart, line);
    TextsCons(s, pos, l, line, end);
    if l.kind == TEnd {
      assert [] + [end] == [end];
    } else {
      var first, next := Emit(s, pos, l, line), LineAfter(s, pos, l, line);
      var rest := EmitFrom(s, l.end, l.atLineStart, next);
      EmittedTexts(s, l.end, l.atLineStart, next, end);
      assert ([first] + rest) + [end] == [first] + (rest + [end]);
    }
  }

  lemma {:induction false} TextsCons(s: string, pos: nat, l: Lexed, line: nat, end: Token)
    requires pos <= l.start <= l.end <= |s|
    ensures forall rest :: TextsOf(s, [Emit(s, pos, l, line)] + rest) == [TokOf(s, l)] + TextsOf(s, rest)
    ensures end.kind == TEnd && end.length == 0 ==> TextsOf(s, [end]) == [Tok(TEnd, "")]
    ensures l.start == l.end == |s| ==> TokOf(s, l) == Tok(l.kind, "")
  {
    hide TextsOf, TextOf, Emit, TokOf;
    var first := Emit(s, pos, l, line);
    forall rest ensures TextsOf(s, [first] + rest) == [TokOf(s, l)] + TextsOf(s, rest) {
      FirstText(s, first, rest);
      EmittedText(s, pos, l, line);
    }
    FirstText(s, end, []);
    assert [end] + [] == [end];
    EmptyTexts(s, l, end);
  }

  lemma {:induction false} FirstText(s: string, t: Token, rest: seq<Token>)
    ensures TextsOf(s, [t] + rest) == [TextOf(s, t)] + TextsOf(s, rest) && TextsOf(s, []) == []
  {
    hide TextOf;
    assert ([t] + rest)[1..] == rest;
  }

  lemma {:induction false} EmittedText(s: string, pos: nat, l: Lexed, line: nat)
    requires pos <= l.start <= l.end <= |s|
    ensures TextOf(s, Emit(s, pos, l, line)) == TokOf(s, l)
  {
    hide LineBreaks;
  }

  lemma {:induction false} EmptyTexts(s: string, l: Lexed, end: Token)
    ensures end.kind == TEnd && end.length == 0 ==> TextOf(s, end) == Tok(TEnd, "")
    ensures l.start == l.end == |s| ==> TokOf(s, l) == Tok(l.kind, "")
  {
  }
}

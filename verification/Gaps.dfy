/** The text between two tokens: blanks, line comments and block comments. */
module Gaps {
  import opened LexSpec
  import opened LineCounts
  import opened Comments

  datatype Piece =
    | Space(c: char)
    | LineComment(text: string)    // runs up to a line break or the end of the input
    | BlockComment(parts: Parts)
    | OpenComment(text: string)    // a block comment that nothing closes

  ghost function PieceText(p: Piece): string {
    match p
    case Space(c) => [c]
    case LineComment(text) => "//" + text
    case BlockComment(parts) => "/*" + Text(parts) + "*/"
    case OpenComment(text) => "/*" + text
  }

  ghost function GapText(ps: seq<Piece>): string {
    if ps == [] then "" else PieceText(ps[0]) + GapText(ps[1..])
  }

  /** Whether the last block comment holds a line break; `before` if there is none. */
  ghost predicate LastBreaks(ps: seq<Piece>, before: bool) {
    if ps == [] then before
    else
      match ps[0]
      case BlockComment(_) => LastBreaks(ps[1..], LineBreaks(PieceText(ps[0])) > 0)
      case OpenComment(_) => LastBreaks(ps[1..], LineBreaks(PieceText(ps[0])) > 0)
      case Space(_) => LastBreaks(ps[1..], before)
      case LineComment(_) => LastBreaks(ps[1..], before)
  }

  /** Neither a blank nor a comment starts at `j`. */
  ghost predicate EndsGap(s: string, j: nat) {
    j == |s| || (j < |s| && !InClass(s[j], Blank) && !MarkAt(s, j, '/', '/') && !MarkAt(s, j, '/', '*'))
  }

  ghost predicate LineEndsAt(s: string, j: nat) {
    j == |s| || CharAt(s, j, '\n')
  }

  ghost predicate NeverClosed(s: string, i: nat) {
    forall p, end :: !Balances(s, i, end, p)
  }

  /** The pieces stand one after another from `i` to `j`, and no more pieces come after them. */
  ghost predicate GapAt(s: string, i: nat, j: nat, ps: seq<Piece>)
    decreases |ps|
  {
    if ps == [] then i == j && EndsGap(s, j)
    else
      && TextAt(s, i, PieceText(ps[0]))
      && var next := i + |PieceText(ps[0])|;
         match ps[0]
         case Space(c) => InClass(c, Blank) && GapAt(s, next, j, ps[1..])
         case LineComment(text) => '\n' !in text && LineEndsAt(s, j) && next == j && ps[1..] == []
         case BlockComment(parts) => Clear(parts) && GapAt(s, next, j, ps[1..])
         case OpenComment(text) => NeverClosed(s, i + 2) && next == j == |s| && ps[1..] == []
  }

  lemma {:induction false} GapRebuilds(s: string, i: nat, j: nat, ps: seq<Piece>)
    requires GapAt(s, i, j, ps)
    ensures i <= j <= |s| && s[i..j] == GapText(ps)
    decreases |ps|
  {
    hide PieceText, Clear, LineBreaks;
    if ps != [] {
      var next := i + |PieceText(ps[0])|;
      if ps[1..] == [] {
        assert GapText(ps[1..]) == "";
      } else {
        GapRebuilds(s, next, j, ps[1..]);
        assert s[i..j] == s[i..next] + s[next..j];
      }
    }
  }

  // ----- What is skipped is such a sequence of pieces -----

  ghost function PiecesFrom(s: string, i: nat): seq<Piece>
    requires i <= |s|
    decreases |s| - i
  {
    if i < |s| && InClass(s[i], Blank) then [Space(s[i])] + PiecesFrom(s, i + 1)
    else if MarkAt(s, i, '/', '/') then [LineComment(s[i + 2..SpanEnd(s, i + 2, InLine)])]
    else if MarkAt(s, i, '/', '*') then
      var b := ReadBody(s, i + 2);
      if b.closed then [BlockComment(b.parts)] + PiecesFrom(s, b.end + 2)
      else [OpenComment(s[i + 2..])]
    else []
  }

  lemma BlankStep(s: string, i: nat, newline: bool)
    requires i < |s| && InClass(s[i], Blank)
    ensures SkipGap(s, i, newline) == SkipGap(s, i + 1, newline)
  {
    hide LineBreaks, ScanComment, SkipGap;
    var j := SpanEnd(s, i + 1, Blank);
    assert SpanEnd(s, i, Blank) == j;
    GapStep(s, i, newline);
    GapStep(s, i + 1, newline);
  }

  lemma {:induction false} LineStep(s: string, i: nat, newline: bool)
    requires MarkAt(s, i, '/', '/')
    ensures SkipGap(s, i, newline) == Gap(SpanEnd(s, i + 2, InLine), newline)
  {
    hide LineBreaks, ScanComment, SkipGap;
    var j := SpanEnd(s, i + 2, InLine);
    assert SpanEnd(s, i, Blank) == i && SpanEnd(s, j, Blank) == j;
    GapStep(s, i, newline);
    GapStep(s, j, newline);
  }

  lemma BlockStep(s: string, i: nat, newline: bool)
    requires MarkAt(s, i, '/', '*')
    ensures var end := ScanComment(s, i + 2, 1).end;
            SkipGap(s, i, newline) == SkipGap(s, end, LineBreaks(s[i..end]) > 0)
  {
    hide LineBreaks, ScanComment, SkipGap;
    assert SpanEnd(s, i, Blank) == i;
    GapStep(s, i, newline);
  }

  lemma {:induction false} NoStep(s: string, i: nat, newline: bool)
    requires i <= |s| && EndsGap(s, i)
    ensures SkipGap(s, i, newline) == Gap(i, newline)
  {
    hide LineBreaks, ScanComment, SkipGap;
    assert SpanEnd(s, i, Blank) == i;
    GapStep(s, i, newline);
  }

  lemma {:induction false} CommentScanned(s: string, i: nat)
    requires i <= |s|
    ensures var b := ReadBody(s, i);
            && (b.closed ==>
                  && Clear(b.parts) && PartsAt(s, i, b.parts) && b.end == i + |Text(b.parts)|
                  && ScanComment(s, i, 1) == CommentScan(b.end + 2, 0))
            && (!b.closed ==> NeverClosed(s, i) && ScanComment(s, i, 1).end == |s|)
  {
    hide ReadBody, Clear, PartsAt, Text;
    var b := ReadBody(s, i);
    ScanReadsBody(s, i, 1);
    if b.closed {
      BodyIsClear(s, i);
    } else {
      forall p, end ensures !Balances(s, i, end, p) { NestedComment(s, i, end); }
    }
  }

  lemma {:induction false} BlockText(s: string, i: nat, p: Parts)
    ensures TextAt(s, i, PieceText(BlockComment(p))) <==> MarkAt(s, i, '/', '*') && PartsAt(s, i + 2, p)
    ensures |PieceText(BlockComment(p))| == |Text(p)| + 4
  {
    hide TextAt, Text;
    var t := Text(p);
    MarkText(s, i, '/', '*');
    MarkText(s, i + 2 + |t|, '*', '/');
    TextSplit(s, i, "/*" + t, "*/");
    TextSplit(s, i, "/*", t);
  }

  lemma SlashText(s: string, i: nat, mark: char, t: string)
    ensures TextAt(s, i, ['/', mark] + t) <==> MarkAt(s, i, '/', mark) && TextAt(s, i + 2, t)
  {
    hide TextAt;
    MarkText(s, i, '/', mark);
    TextSplit(s, i, ['/', mark], t);
  }

  lemma CharText(s: string, i: nat, c: char)
    ensures TextAt(s, i, [c]) <==> CharAt(s, i, c)
  {
    if i < |s| { assert s[i..i + 1] == [s[i]]; }
  }

  /** Skipping runs over the pieces, and the flag is that of the last block comment. */
  lemma {:induction false} SkippedPieces(s: string, i: nat, newline: bool)
    requires i <= |s|
    ensures var ps := PiecesFrom(s, i);
            && GapAt(s, i, SkipGap(s, i, newline).end, ps)
            && SkipGap(s, i, newline).newline == LastBreaks(ps, newline)
    decreases |s| - i
  {
    hide SkipGap, LineBreaks, ScanComment, ReadBody, GapAt, LastBreaks, PiecesFrom, InClass, EndsGap;
    if i < |s| && InClass(s[i], Blank) {
      BlankStep(s, i, newline);
      SkippedPieces(s, i + 1, newline);
      ConsSpace(s, i, SkipGap(s, i, newline).end, newline);
    } else if MarkAt(s, i, '/', '/') {
      LineStep(s, i, newline);
      LastLine(s, i, newline);
    } else if MarkAt(s, i, '/', '*') {
      var b := ReadBody(s, i + 2);
      if b.closed { SkippedPieces(s, b.end + 2, LineBreaks(s[i..b.end + 2]) > 0); }
      BlockPieces(s, i, newline);
    } else {
      NoMorePieces(s, i, newline);
      NoStep(s, i, newline);
    }
  }

  lemma {:induction false} ConsSpace(s: string, i: nat, j: nat, newline: bool)
    requires i < |s| && InClass(s[i], Blank) && GapAt(s, i + 1, j, PiecesFrom(s, i + 1))
    ensures GapAt(s, i, j, PiecesFrom(s, i)) && LastBreaks(PiecesFrom(s, i), newline) == LastBreaks(PiecesFrom(s, i + 1), newline)
  {
    hide InClass, TextAt, NeverClosed, EndsGap, LineBreaks;
    CharText(s, i, s[i]);
    assert PiecesFrom(s, i) == [Space(s[i])] + PiecesFrom(s, i + 1);
    assert PiecesFrom(s, i)[1..] == PiecesFrom(s, i + 1);
  }

  lemma {:induction false} LastLine(s: string, i: nat, newline: bool)
    requires MarkAt(s, i, '/', '/')
    ensures GapAt(s, i, SpanEnd(s, i + 2, InLine), PiecesFrom(s, i)) && LastBreaks(PiecesFrom(s, i), newline) == newline
  {
    hide TextAt, NeverClosed, EndsGap, LineBreaks, SpanEnd, LineEndsAt;
    LinePiece(s, i, SpanEnd(s, i + 2, InLine));
    assert PiecesFrom(s, i)[1..] == [];
  }

  lemma {:induction false} NoMorePieces(s: string, i: nat, newline: bool)
    requires i <= |s| && (i < |s| ==> !InClass(s[i], Blank)) && !MarkAt(s, i, '/', '/') && !MarkAt(s, i, '/', '*')
    ensures EndsGap(s, i) && PiecesFrom(s, i) == [] && GapAt(s, i, i, []) && LastBreaks([], newline) == newline
  {
  }

  lemma {:induction false} LinePiece(s: string, i: nat, end: nat)
    requires MarkAt(s, i, '/', '/') && end == SpanEnd(s, i + 2, InLine)
    ensures var text := s[i + 2..end];
            && TextAt(s, i, PieceText(LineComment(text))) && |PieceText(LineComment(text))| == end - i
            && '\n' !in text && LineEndsAt(s, end)
  {
    SlashText(s, i, '/', s[i + 2..end]);
  }

  lemma {:induction false} BlockPieces(s: string, i: nat, newline: bool)
    requires MarkAt(s, i, '/', '*')
    requires var b := ReadBody(s, i + 2);
             b.closed ==> var after := PiecesFrom(s, b.end + 2);
                          var rest := SkipGap(s, b.end + 2, LineBreaks(s[i..b.end + 2]) > 0);
                          GapAt(s, b.end + 2, rest.end, after)
                          && rest.newline == LastBreaks(after, LineBreaks(s[i..b.end + 2]) > 0)
    ensures var ps := PiecesFrom(s, i);
            && GapAt(s, i, SkipGap(s, i, newline).end, ps)
            && SkipGap(s, i, newline).newline == LastBreaks(ps, newline)
  {
    hide SkipGap, LineBreaks, Clear, PartsAt, Text, ScanComment, ReadBody, NeverClosed, GapAt, LastBreaks, PiecesFrom;
    BlockStep(s, i, newline);
    CommentScanned(s, i + 2);
    var b := ReadBody(s, i + 2);
    CommentPieces(s, i);
    if b.closed {
      BlockText(s, i, b.parts);
      TextIsSlice(s, i, PieceText(BlockComment(b.parts)));
      ConsBlock(s, i, SkipGap(s, i, newline).end, b.parts, PiecesFrom(s, b.end + 2), newline);
    } else {
      SlashText(s, i, '*', s[i + 2..]);
      TextIsSlice(s, i, PieceText(OpenComment(s[i + 2..])));
      NothingAfter(s, LineBreaks(s[i..|s|]) > 0);
      LastOpen(s, i, s[i + 2..], newline);
    }
  }

  lemma {:induction false} CommentPieces(s: string, i: nat)
    requires MarkAt(s, i, '/', '*')
    ensures var b := ReadBody(s, i + 2);
            PiecesFrom(s, i) ==
            if b.closed then [BlockComment(b.parts)] + PiecesFrom(s, b.end + 2) else [OpenComment(s[i + 2..])]
  {
    hide ReadBody;
  }

  lemma {:induction false} TextIsSlice(s: string, i: nat, t: string)
    requires TextAt(s, i, t)
    ensures i + |t| <= |s| && s[i..i + |t|] == t
  {
  }

  lemma {:induction false} NothingAfter(s: string, newline: bool)
    ensures SkipGap(s, |s|, newline) == Gap(|s|, newline)
  {
    hide SkipGap;
    NoStep(s, |s|, newline);
  }

  /** A block comment before other pieces. */
  lemma {:induction false} ConsBlock(s: string, i: nat, j: nat, p: Parts, after: seq<Piece>, newline: bool)
    requires var text := PieceText(BlockComment(p));
             TextAt(s, i, text) && Clear(p) && GapAt(s, i + |text|, j, after)
    ensures GapAt(s, i, j, [BlockComment(p)] + after)
    ensures LastBreaks([BlockComment(p)] + after, newline)
         == LastBreaks(after, LineBreaks(PieceText(BlockComment(p))) > 0)
  {
    hide LineBreaks, Clear, PieceText, TextAt, NeverClosed, EndsGap;
    var ps := [BlockComment(p)] + after;
    assert ps[1..] == after;
  }

  /** A comment that is not closed is the last piece. */
  lemma {:induction false} LastOpen(s: string, i: nat, text: string, newline: bool)
    requires TextAt(s, i, PieceText(OpenComment(text))) && NeverClosed(s, i + 2)
    requires i + |PieceText(OpenComment(text))| == |s|
    ensures GapAt(s, i, |s|, [OpenComment(text)])
    ensures LastBreaks([OpenComment(text)], newline) <==> LineBreaks(PieceText(OpenComment(text))) > 0
  {
    hide LineBreaks, Clear, PieceText, TextAt, NeverClosed;
    var ps := [OpenComment(text)];
    assert ps[1..] == [];
  }

  // ----- And every such sequence of pieces is what is skipped -----

  lemma {:induction false} LineIsRead(s: string, i: nat, j: nat, text: string)
    requires TextAt(s, i, PieceText(LineComment(text))) && '\n' !in text
    requires j == i + 2 + |text| && LineEndsAt(s, j)
    ensures MarkAt(s, i, '/', '/') && SpanEnd(s, i + 2, InLine) == j && s[i + 2..j] == text
  {
    SlashText(s, i, '/', text);
  }

  lemma {:induction false} BlockIsRead(s: string, i: nat, p: Parts)
    requires TextAt(s, i, PieceText(BlockComment(p))) && Clear(p)
    ensures MarkAt(s, i, '/', '*') && ReadBody(s, i + 2) == Body(p, i + 2 + |Text(p)|, true)
    ensures ScanComment(s, i + 2, 1) == CommentScan(i + |PieceText(BlockComment(p))|, 0)
    ensures s[i..i + |PieceText(BlockComment(p))|] == PieceText(BlockComment(p))
  {
    hide ReadBody, Clear, Text;
    BlockText(s, i, p);
    ReadParts(s, i + 2, p);
    CommentScanned(s, i + 2);
  }

  lemma {:induction false} OpenIsRead(s: string, i: nat, text: string)
    requires TextAt(s, i, PieceText(OpenComment(text))) && i + 2 + |text| == |s| && NeverClosed(s, i + 2)
    ensures MarkAt(s, i, '/', '*') && !ReadBody(s, i + 2).closed && s[i + 2..] == text
    ensures ScanComment(s, i + 2, 1).end == |s| && s[i..|s|] == PieceText(OpenComment(text))
  {
    hide ReadBody, ScanComment, Clear, PartsAt, Text;
    SlashText(s, i, '*', text);
    CommentScanned(s, i + 2);
    var b := ReadBody(s, i + 2);
    var from: nat, end: nat := i + 2, b.end + 2;
    assert b.closed ==> Balances(s, from, end, b.parts);
  }

  lemma {:induction false} PiecesAreSkipped(s: string, i: nat, j: nat, ps: seq<Piece>, newline: bool)
    requires GapAt(s, i, j, ps)
    ensures i <= j <= |s| && ps == PiecesFrom(s, i) && SkipGap(s, i, newline) == Gap(j, LastBreaks(ps, newline))
    decreases |ps|
  {
    hide SkipGap, LineBreaks, NeverClosed, Clear, ReadBody, ScanComment, SpanEnd, PieceText, TextAt, EndsGap, PiecesFrom, MarkAt;
    GapRebuilds(s, i, j, ps);
    if ps == [] {
      NoStep(s, i, newline);
      NoPieces(s, i);
    } else {
      var rest := ps[1..];
      match ps[0]
      case Space(c) =>
        CharText(s, i, c);
        PieceLength(ps[0]);
        PiecesAreSkipped(s, i + 1, j, rest, newline);
        SpaceIsRead(s, i, j, ps, newline);
      case LineComment(text) =>
        PieceLength(ps[0]);
        LineIsRead(s, i, j, text);
        LineStep(s, i, newline);
        LineIsPiece(s, i);
        assert ps == [ps[0]] + rest;
      case BlockComment(p) =>
        PieceLength(ps[0]);
        BlockIsRead(s, i, p);
        PiecesAreSkipped(s, i + |PieceText(ps[0])|, j, rest, LineBreaks(PieceText(ps[0])) > 0);
        BlockIsFirst(s, i, j, ps, newline);
      case OpenComment(text) =>
        PieceLength(ps[0]);
        OpenIsRead(s, i, text);
        OpenIsLast(s, i, newline);
        assert ps == [ps[0]] + rest;
    }
  }

  lemma SpaceIsRead(s: string, i: nat, j: nat, ps: seq<Piece>, newline: bool)
    requires ps != [] && ps[0].Space? && CharAt(s, i, ps[0].c) && InClass(ps[0].c, Blank)
    requires ps[1..] == PiecesFrom(s, i + 1) && SkipGap(s, i + 1, newline) == Gap(j, LastBreaks(ps[1..], newline))
    ensures ps == PiecesFrom(s, i) && SkipGap(s, i, newline) == Gap(j, LastBreaks(ps, newline))
  {
    hide SkipGap;
    BlankStep(s, i, newline);
    assert ps == [ps[0]] + ps[1..];
  }

  lemma {:induction false} LineIsPiece(s: string, i: nat)
    requires MarkAt(s, i, '/', '/')
    ensures PiecesFrom(s, i) == [LineComment(s[i + 2..SpanEnd(s, i + 2, InLine)])]
  {
    hide SpanEnd;
  }

  lemma BlockIsFirst(s: string, i: nat, j: nat, ps: seq<Piece>, newline: bool)
    requires ps != [] && ps[0].BlockComment? && MarkAt(s, i, '/', '*')
    requires var text := PieceText(ps[0]);
             var next := i + |text|;
             && next <= |s| && s[i..next] == text && ReadBody(s, i + 2) == Body(ps[0].parts, next - 2, true)
             && ScanComment(s, i + 2, 1) == CommentScan(next, 0)
             && ps[1..] == PiecesFrom(s, next)
             && SkipGap(s, next, LineBreaks(text) > 0) == Gap(j, LastBreaks(ps[1..], LineBreaks(text) > 0))
    ensures ps == PiecesFrom(s, i) && SkipGap(s, i, newline) == Gap(j, LastBreaks(ps, newline))
  {
    hide SkipGap, ReadBody, ScanComment, LineBreaks, PieceText;
    BlockStep(s, i, newline);
    assert ps == [ps[0]] + ps[1..];
  }

  lemma {:induction false} OpenIsLast(s: string, i: nat, newline: bool)
    requires MarkAt(s, i, '/', '*') && !ReadBody(s, i + 2).closed && ScanComment(s, i + 2, 1).end == |s|
    ensures PiecesFrom(s, i) == [OpenComment(s[i + 2..])]
    ensures SkipGap(s, i, newline) == Gap(|s|, LineBreaks(s[i..|s|]) > 0)
  {
    hide SkipGap, ReadBody, ScanComment, LineBreaks;
    BlockStep(s, i, newline);
    NoStep(s, |s|, LineBreaks(s[i..|s|]) > 0);
  }

  lemma {:induction false} NoPieces(s: string, i: nat)
    requires i <= |s| && EndsGap(s, i)
    ensures PiecesFrom(s, i) == []
  {
  }

  lemma PieceLength(p: Piece)
    ensures p.Space? ==> PieceText(p) == [p.c]
    ensures p.LineComment? ==> |PieceText(p)| == |p.text| + 2
    ensures p.BlockComment? ==> |PieceText(p)| == |Text(p.parts)| + 4
    ensures p.OpenComment? ==> |PieceText(p)| == |p.text| + 2
  {
  }

  /** A gap is skipped exactly when it is a sequence of pieces; there is only one such sequence. */
  lemma {:induction false} GapsAreSequencesOfPieces(s: string, i: nat, j: nat, newline: bool)
    requires i <= |s|
    ensures SkipGap(s, i, false) == Gap(j, newline) <==> exists ps :: GapAt(s, i, j, ps) && newline == LastBreaks(ps, false)
    ensures forall ps, k :: GapAt(s, i, k, ps) ==> ps == PiecesFrom(s, i)
  {
    hide GapAt, SkipGap, LastBreaks;
    SkippedPieces(s, i, false);
    forall ps, k | GapAt(s, i, k, ps)
      ensures ps == PiecesFrom(s, i) && SkipGap(s, i, false) == Gap(k, LastBreaks(ps, false))
    {
      PiecesAreSkipped(s, i, k, ps, false);
    }
  }
}

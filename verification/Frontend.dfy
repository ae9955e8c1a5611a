/** From source text to a pool of nodes. */
module Frontend {
  import opened Tokens
  import opened Syntax
  import opened ParserSpec
  import opened Grammar
  import opened ParserTheorems
  import opened Pool
  import opened PoolTheorems
  import opened ParserSteps
  import opened ParserMachine
  import opened LexSpec
  import opened LexTheorems
  import opened Lexemes
  import opened Relexing
  import opened TokenArrays
  import opened Heaps
  import opened HeldTrees
  import opened HeapTheorems
  import opened Shown
  import Converse
  import RoundTrip

  const NODE_CAPACITY: nat := 256

  /** The end token comes last and nowhere else. */
  lemma {:induction false} OnlyTheLastEnds(s: string, pos: nat, atLineStart: bool)
    requires pos <= |s|
    ensures var toks := LexFrom(s, pos, atLineStart);
            && toks[|toks| - 1] == Tok(TEnd, "")
            && forall k :: 0 <= k < |toks| - 1 ==> toks[k].kind != TEnd
    decreases |s| - pos
  {
    hide Next;
    var l := Next(s, pos, atLineStart);
    if l.kind != TEnd { OnlyTheLastEnds(s, l.end, l.atLineStart); }
  }

  lemma {:induction false} LexedTokensAreSpelled(s: string, pos: nat)
    requires pos <= |s|
    ensures Converse.AllSpelled(LexFrom(s, pos, true))
    ensures forall t :: t in LexFrom(s, pos, true) && t.kind == TNum ==> '.' !in t.text
  {
    hide LexFrom, IsToken, Tokens.Spelled;
    TokensAreLexemes(s, pos, true);
    forall t | t in LexFrom(s, pos, true) ensures Tokens.Spelled(t) && (t.kind == TNum ==> '.' !in t.text) {
      TokensAreSpelled(t);
      if t.kind == TNum { NumbersAreIntegers(t); }
    }
  }

  /** The tokens of a file, if it has no shebang line or one that ends. */
  ghost function SourceTokens(s: string): Option<seq<Tok>> {
    var start := SkipShebang(s);
    if start.Some? then Some(LexFrom(s, start.value, true)) else None
  }

  /** A file is read as a program without error exactly when its tokens are those of that well-bound program. */
  lemma {:induction false} SourceCharacterised(s: string, items: Items, end: nat)
    requires SourceTokens(s).Some?
    ensures var ts := SourceTokens(s).value;
            Program(ts) == Done(items, end, 0) <==>
              WellBoundItems(items) && end == |YieldItems(items)| && ts == YieldItems(items) + [Tok(TEnd, "")]
  {
    hide LexFrom, WellBoundItems, YieldItems, Statements, Converse.AllSpelled, SkipShebang;
    var start := SkipShebang(s).value;
    var ts, body := LexFrom(s, start, true), YieldItems(items);
    LexedTokensAreSpelled(s, start);
    OnlyTheLastEnds(s, start, true);
    ProgramCharacterised(ts, items, end);
    if TokensAt(ts, 0, body) && RoundTrip.KindAt(ts, |body|, TEnd) {
      assert |body| == |ts| - 1;
      assert ts == ts[0..|body|] + [ts[|body|]];
    } else if ts == body + [Tok(TEnd, "")] {
      assert ts[0..|body|] == body;
    }
  }

  /** A printed text has no shebang line, so it is lexed from its first character. */
  lemma {:induction false} PrintedSource(tiles: seq<Tile>)
    requires Printable(tiles)
    ensures SkipShebang(TilesText(tiles)) == Some(0) && SourceTokens(TilesText(tiles)) == Some(Lex(TilesText(tiles)))
  {
    hide Printable, TilesText, LexFrom;
    PrintedHasNoHash(tiles);
  }

  /**
   Round trip from text to derivation: a well-bound program printed with any blanks and one-line
   comments between its tokens, kept apart from them, is read back as itself.
   */
  lemma {:induction false} SourceRoundTrip(items: Items, tiles: seq<Tile>)
    requires WellBoundItems(items) && ToksOf(tiles) == YieldItems(items) + [Tok(TEnd, "")]
    requires Printable(tiles) && KeptApart(tiles)
    ensures var ts := SourceTokens(TilesText(tiles));
            ts.Some? && |ts.value| == |YieldItems(items)| + 1 && Program(ts.value) == Done(items, |YieldItems(items)|, 0)
  {
    hide WellBoundItems, YieldItems, Program, LexFrom, TilesText, Printable, KeptApart, ToksOf;
    PrintedSource(tiles);
    PrintedTokensAreLexedBack(tiles);
    SourceCharacterised(TilesText(tiles), items, |YieldItems(items)|);
  }

  /** The same with single blanks, for every well-bound program of complete tokens. */
  lemma {:induction false} SpacedSourceRoundTrip(items: Items)
    requires WellBoundItems(items) && forall t :: t in YieldItems(items) ==> IsLexeme(t)
    ensures var ts := SourceTokens(SpacedText(YieldItems(items)));
            ts.Some? && Program(ts.value) == Done(items, |YieldItems(items)|, 0)
  {
    hide WellBoundItems, YieldItems, Program, LexFrom, SpacedText, IsLexeme, TilesText, Printable, KeptApart, ToksOf, Spaced;
    var toks := YieldItems(items);
    SpacedIsPrintable(toks);
    SourceRoundTrip(items, Spaced(toks));
  }

  lemma {:induction false} EmittedCount(s: string, pos: nat, atLineStart: bool, line: nat)
    requires pos <= |s|
    ensures |LexFrom(s, pos, atLineStart)| == |EmitFrom(s, pos, atLineStart, line)| + 1
    decreases |s| - pos
  {
    hide Next, LineBreaks, LineAfter, Emit, TokOf;
    var l := Next(s, pos, atLineStart);
    if l.kind != TEnd { EmittedCount(s, l.end, l.atLineStart, LineAfter(s, pos, l, line)); }
  }

  /** A shebang line is no part of the program but for its line break, which is the first token. */
  lemma {:induction false} ShebangTokens(w: string, rest: string)
    requires '\n' !in w
    ensures var s := "#!" + w + "\n" + rest;
            SourceTokens(s) == Some([Tok(TNewline, "\n")] + LexFrom(s, |w| + 3, false))
  {
    hide SkipShebang;
    var s := "#!" + w + "\n" + rest;
    var at := |w| + 2;
    ShebangIsSkipped(s);
    assert s[at] == '\n' && s[at..at + 1] == "\n";
    assert SpanEnd(s, at, Blank) == at;
    assert Next(s, at, true) == Lexed(TNewline, at, at + 1, false);
  }

  /** A file of at most 512 tokens, the end token included, is tokenised exactly when its shebang line ends and 512 slots fit. */
  lemma {:induction false} SmallFilesFinish(input: string, room: nat)
    requires SourceTokens(input).Some? ==> |SourceTokens(input).value| <= 512
    ensures LexOutcome(input, room) == Finished <==> SourceTokens(input).Some? && 512 <= room
  {
    hide LexFrom, EmitFrom, SkipShebang, LastCapacity, SlotsFor;
    if SourceTokens(input).Some? {
      EmittedCount(input, SkipShebang(input).value, true, 1);
      FirstArrayIsEnough(|SourceTokens(input).value| - 1);
    }
  }

  /** The pool shows the program as it was written, and through memory exactly when the program's tree is intact. */
  ghost predicate HoldsProgram(parser: Parser, items: Items)
    reads parser, parser.nodes
  {
    && parser.Valid() && ShowsBlock(parser.Pool(), Some(0), items)
    && (ShowsBlock(PoolRead(parser.Pool(), parser.heap), Some(0), items) <==> Intact(BlockTree(EraseItems(items))))
  }

  lemma {:induction false} PoolHoldsProgram(parser: Parser, items: Items)
    requires parser.ReadBack(BlockTree(EraseItems(items)))
    ensures HoldsProgram(parser, items)
  {
    hide Represents, PoolRead, Held, Intact, ShowsBlock, ParentCount;
    BlockIsShown(parser.Pool(), Some(0), items);
    MemoryShowsExactlyWhen(items);
  }

  /** What parsing a file gives: the answer of the parser for the file's tokens, and the tree in pool and memory. */
  ghost predicate Parsed(input: string, parser: Parser, before: Heap, out: Exit<Ref>)
    reads parser, parser.nodes
  {
    && SourceTokens(input) == Some(parser.tokens) && parser.nodes.Length == 256
    && var run := ErasedBlock(Program(parser.tokens));
       && parser.Answers(run, [], 0, before, out)
       && (out.Value? ==> out.value == Some(0) && parser.ReadBack(run.value) && HoldsProgram(parser, Program(parser.tokens).value))
       && (Converse.Clean(Program(parser.tokens)) && |parser.tokens| <= 256 ==>
             |Build(run.value, 0, before).mem| <= parser.room ==> out.Value?)
  }

  /**
   Tokenises and parses a file. `room` is how many token slots there are; the parser's arena of `size`
   bytes holds `mem` already.
   */
  method Compile(input: string, room: nat, mem: seq<Cell>, size: nat)
    returns (outcome: Outcome, parser: Parser?, out: Exit<Ref>)
    requires |mem| <= size
    ensures outcome == LexOutcome(input, room)
    ensures outcome.Finished? ==>
              && parser != null && fresh(parser) && fresh(parser.nodes) && parser.room == size
              && Parsed(input, parser, Heap(mem, map[]), out)
  {
    hide LexFrom, EmitFrom, LastCapacity, SlotsFor, Converse.AllSpelled, OneTree, Program, TextsOf, Build, SkipShebang;
    var list;
    outcome, list := LexFile(input, room);
    if !outcome.Finished? { return outcome, null, Stop(OffTokens); }
    ghost var start := SkipShebang(input).value;
    EmittedTexts(input, start, true, 1, END_TOKEN);
    LexedTokensAreSpelled(input, start);
    var nodes := new Node[NODE_CAPACITY](_ => Node(NilData, []));
    parser := new Parser(TextsOf(input, list.slots[..list.size]), nodes, mem, size);
    assert parser.Pool() == [];
    out := parser.ParseProgram();
    if out.Value? { PoolHoldsProgram(parser, Program(parser.tokens).value); }
  }

  /**
   From text to tree: a well-bound program, printed with any gaps kept apart from its tokens, of at most
   256 tokens, with 512 token slots and enough memory for its lists, is compiled without an error into a
   pool that is its tree; and what memory holds is that tree too exactly when the tree is intact.
   */
  method CompilePrinted(input: string, ghost items: Items, ghost tiles: seq<Tile>, room: nat, mem: seq<Cell>, size: nat)
    returns (parser: Parser?, out: Exit<Ref>)
    requires WellBoundItems(items) && ToksOf(tiles) == YieldItems(items) + [Tok(TEnd, "")]
    requires Printable(tiles) && KeptApart(tiles) && input == TilesText(tiles)
    requires |YieldItems(items)| < 256 && 512 <= room && |mem| <= size
    requires |Build(BlockTree(EraseItems(items)), 0, Heap(mem, map[])).mem| <= size
    ensures parser != null && fresh(parser) && fresh(parser.nodes)
    ensures out == Value(Some(0)) && parser.errorCount == 0
    ensures parser.ReadBack(BlockTree(EraseItems(items))) && HoldsProgram(parser, items)
  {
    hide LexFrom, WellBoundItems, YieldItems, ToksOf, Printable, KeptApart, TilesText, Program, Build, EraseItems, LexOutcome;
    SourceRoundTrip(items, tiles);
    SmallFilesFinish(input, room);
    var outcome;
    outcome, parser, out := Compile(input, room, mem, size);
  }
}

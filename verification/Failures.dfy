/** Concrete inputs at which the code does not do what its comments promise. */
module Failures {
  import opened Tokens
  import opened Syntax
  import opened Grammar
  import opened ParserSpec
  import opened ParserTheorems
  import opened Chains
  import opened Pool
  import opened PoolTheorems
  import opened HeldTrees
  import opened Frontend
  import opened LexSpec
  import opened LineCounts
  import opened Gaps
  import opened Lexemes
  import opened LexTheorems
  import opened Relexing
  import opened SourceLines
  import opened TokenArrays
  import Layout
  import ListsInMemory

  // ----- A token array that is exactly full -----

  ghost function EmptyLines(n: nat): (s: string)
    ensures |s| == n && forall i :: 0 <= i < n ==> s[i] == '\n'
  {
    seq(n, _ => '\n')
  }

  /** Every line break is one token. */
  lemma {:induction false} EmptyLinesAreTokens(n: nat, pos: nat, atLineStart: bool, line: nat)
    requires pos <= n
    ensures |EmitFrom(EmptyLines(n), pos, atLineStart, line)| == n - pos
    decreases n - pos
  {
    hide LineBreaks, LineAfter;
    var s := EmptyLines(n);
    if pos < n {
      var l := Next(s, pos, atLineStart);
      assert SkipGap(s, pos, false) == Gap(pos, false);
      assert l == Lexed(TNewline, pos, pos + 1, false);
      EmptyLinesAreTokens(n, pos + 1, false, LineAfter(s, pos, l, line));
    } else {
      assert SkipGap(s, pos, false) == Gap(pos, false);
    }
  }

  /** 512 empty lines: the tokeniser writes its end token past the array, in an arena with enough room. */
  lemma {:induction false} OverrunAt512()
    ensures var s := EmptyLines(512);
            && SkipShebang(s) == Some(0) && |EmitFrom(s, 0, true, 1)| == 512
            && 512 == LastCapacity(FIRST_CAPACITY, 512) == SlotsFor(FIRST_CAPACITY, 512)
  {
    hide EmitFrom;
    EmptyLinesAreTokens(512, 0, true, 1);
  }

  // ----- A slash before a comment -----

  /** `/` and then the comment `//` are lexed as a comment alone, and the slash is lost. */
  lemma {:induction false} SlashMeetsComment()
    ensures var tiles := [Tile([], Tok(TSlash, "/")), Tile([LineComment("")], Tok(TNewline, "\n")), Tile([], Tok(TEnd, ""))];
            Printable(tiles) && !KeptApart(tiles) && Lex(TilesText(tiles)) != ToksOf(tiles)
  {
    hide LexFrom, TilesText, ToksOf, KeptApart, Printable;
    var slash, newline := Tile([], Tok(TSlash, "/")), Tile([LineComment("")], Tok(TNewline, "\n"));
    var tiles := [slash, newline, Tile([], Tok(TEnd, ""))];
    LineIsPrintable(newline, tiles[2]);
    assert tiles[1..] == [newline, tiles[2]];
    SlashIsPrintable(tiles);
    PrintedTokensAreLexedBack(tiles);
  }

  lemma {:induction false} LineIsPrintable(newline: Tile, end: Tile)
    requires newline == Tile([LineComment("")], Tok(TNewline, "\n")) && end == Tile([], Tok(TEnd, ""))
    ensures Printable([newline, end])
  {
    hide Spelling;
    assert Printable([end]);
    assert [newline, end][1..] == [end];
    assert newline.gap[1..] == [];
  }

  lemma {:induction false} SlashIsPrintable(tiles: seq<Tile>)
    requires |tiles| > 1 && tiles[0] == Tile([], Tok(TSlash, "/")) && tiles[1].gap == [LineComment("")]
    requires Printable(tiles[1..])
    ensures Printable(tiles) && !KeptApart(tiles)
  {
    hide Spelling;
    MarkSpellings();
  }

  // ----- The empty line at the end -----

  /** Line 2 of "a" and a line break is empty, but `SourceLine` finds line 1 for it. */
  lemma {:induction false} LineAfterLastBreak()
    ensures var s := "a\n";
            && IsEmptyLastLine(s, 2) && IsLine(s, 2, 2, 2)
            && forall start, end :: IsLine(s, 1, start, end) ==> start == 0 && end == 1
  {
    hide LineBreaks;
    var s := "a\n";
    BreaksStep(s, 0, 0);
    BreaksStep(s, 0, 1);
    NothingCounted(s, 0);
    NothingCounted(s, 2);
    assert s[0..1] == s[..1] && s[0..2] == s[..2] == s && s[..0] == s[0..0];
    assert IsLine(s, 1, 0, 1);
    forall start, end | IsLine(s, 1, start, end) ensures start == 0 && end == 1 {
      LinesAreUnique(s, 1, start, end, 0, 1);
    }
  }

  // ----- A chain that is grouped differently -----

  ghost function Name(name: string): Syn {
    Leaf(Tok(TIdent, name))
  }

  /** `a + b * c` is a sum in the grammar of the comments and a product in the tree that the code builds. */
  lemma {:induction false} SumOfProduct()
    ensures var links := [Link(TPlus, Name("b")), Link(TAsterisk, Name("c"))];
            && IsChain(Name("a"), links) && !NonIncreasing(links)
            && LeftFold(Name("a"), links) == Infix(Infix(Name("a"), TPlus, Name("b")), TAsterisk, Name("c"))
            && LayeredTree(Name("a"), links) == Infix(Name("a"), TPlus, Infix(Name("b"), TAsterisk, Name("c")))
            && Erase(LeftFold(Name("a"), links)) != Erase(LayeredTree(Name("a"), links))
  {
    hide Erase, LeftFold, LayeredTree, Layered, Links, First, IsOperand;
    var a, b, c := Name("a"), Name("b"), Name("c");
    var links := [Link(TPlus, b), Link(TAsterisk, c)];
    NamesAreOperands("a");
    NamesAreOperands("b");
    NamesAreOperands("c");
    TwoLinksFold(a, Link(TPlus, b), Link(TAsterisk, c));
    SumIsLayered(a, b, c);
    LayeredTreeIsUnique(Infix(a, TPlus, Infix(b, TAsterisk, c)), PREC_CMP);
    assert Precedence(links[1].op) > Precedence(links[0].op);
    CodeAgreesWithGrammarIff(a, links);
  }

  lemma NamesAreOperands(name: string)
    ensures IsOperand(Name(name)) && !IsNode(Name(name))
  {
  }

  lemma {:induction false} TwoLinksFold(first: Syn, l1: Link, l2: Link)
    ensures LeftFold(first, [l1, l2]) == Infix(Infix(first, l1.op, l1.operand), l2.op, l2.operand)
  {
    assert [l1, l2][..1] == [l1] && [l1][..0] == [];
    assert LeftFold(first, []) == first;
    assert LeftFold(first, [l1]) == Infix(first, l1.op, l1.operand);
  }

  lemma {:induction false} SumIsLayered(a: Syn, b: Syn, c: Syn)
    requires !IsNode(a) && !IsNode(b) && !IsNode(c)
    ensures var doc := Infix(a, TPlus, Infix(b, TAsterisk, c));
            && Layered(doc, PREC_CMP) && First(doc) == a
            && Links(doc) == [Link(TPlus, b), Link(TAsterisk, c)]
  {
    var doc := Infix(a, TPlus, Infix(b, TAsterisk, c));
    assert Layered(a, PREC_TERM) && Layered(b, PREC_FACTOR) && Layered(c, PREC_FACTOR + 1);
    assert Layered(doc.rhs, PREC_FACTOR);
    assert Links(doc.rhs) == [Link(TAsterisk, c)] && First(doc.rhs) == b;
  }

  // ----- Lists of three -----

  ghost function Names(names: seq<string>): Trees {
    if names == [] then NoTrees else Trees(IdentTree(names[0]), Names(names[1..]))
  }

  /** Three statements `a`, `b` and `c`, each on a line of its own. */
  ghost function ThreeLines(): Items {
    var newline := Tok(TNewline, "\n");
    Item(Expression(Name("a")), Sep(newline, Item(Expression(Name("b")), Sep(newline, Item(Expression(Name("c")), Sep(newline, NoItems))))))
  }

  ghost function ThreeTiles(): seq<Tile> {
    var newline := Tile([], Tok(TNewline, "\n"));
    [Tile([], Tok(TIdent, "a")), newline, Tile([], Tok(TIdent, "b")), newline, Tile([], Tok(TIdent, "c")), newline,
     Tile([], Tok(TEnd, ""))]
  }

  /** A tile without a gap in front of others. */
  lemma {:induction false} PlainTile(tok: Tok, rest: seq<Tile>)
    requires Printable(rest) && KeptApart(rest) && rest[0].gap == [] && IsLexeme(tok) && tok.kind != TSlash
    requires tok.kind == TNewline || EndsLine(rest[0].tok.kind)
    ensures Printable([Tile([], tok)] + rest) && KeptApart([Tile([], tok)] + rest)
    ensures TilesText([Tile([], tok)] + rest) == tok.text + TilesText(rest)
    ensures ToksOf([Tile([], tok)] + rest) == [tok] + ToksOf(rest)
  {
    hide IsLexeme;
    var tiles := [Tile([], tok)] + rest;
    assert tiles[1..] == rest;
    NoGapText();
    assert "" + tok.text == tok.text;
  }

  lemma NamesAreLexemes(name: string)
    requires name in {"a", "b", "c"}
    ensures IsLexeme(Tok(TIdent, name)) && IsLexeme(Tok(TNewline, "\n"))
  {
    hide Spelling;
  }

  /** One line: a name and a line break. */
  lemma {:induction false} OneLine(name: string, rest: seq<Tile>)
    requires name in {"a", "b", "c"} && Printable(rest) && KeptApart(rest) && rest[0].gap == []
    ensures var line := NameLine(name) + rest;
            && Printable(line) && KeptApart(line) && TilesText(line) == name + "\n" + TilesText(rest)
            && ToksOf(line) == LineToks(name) + ToksOf(rest) && line[0].gap == []
  {
    hide IsLexeme, Printable, KeptApart, TilesText, ToksOf;
    NamesAreLexemes(name);
    var newline := [Tile([], Tok(TNewline, "\n"))];
    PlainTile(Tok(TNewline, "\n"), rest);
    PlainTile(Tok(TIdent, name), newline + rest);
    assert NameLine(name) + rest == [Tile([], Tok(TIdent, name))] + (newline + rest);
    assert LineToks(name) + ToksOf(rest) == [Tok(TIdent, name)] + ([Tok(TNewline, "\n")] + ToksOf(rest));
    assert name + ("\n" + TilesText(rest)) == name + "\n" + TilesText(rest);
  }

  lemma {:induction false} ThreeLinesPrinted()
    ensures Printable(ThreeTiles()) && KeptApart(ThreeTiles()) && TilesText(ThreeTiles()) == "a\nb\nc\n"
    ensures ToksOf(ThreeTiles()) == YieldItems(ThreeLines()) + [Tok(TEnd, "")]
  {
    hide *;
    var end := [Tile([], Tok(TEnd, ""))];
    EndIsPrinted();
    OneLine("c", end);
    OneLine("b", NameLine("c") + end);
    OneLine("a", NameLine("b") + (NameLine("c") + end));
    ThreeTilesAre();
    ThreeLinesYield();
    JoinedText();
    JoinedToks();
  }

  ghost function NameLine(name: string): seq<Tile> {
    [Tile([], Tok(TIdent, name)), Tile([], Tok(TNewline, "\n"))]
  }

  ghost function LineToks(name: string): seq<Tok> {
    [Tok(TIdent, name), Tok(TNewline, "\n")]
  }

  lemma ThreeTilesAre()
    ensures ThreeTiles() == NameLine("a") + (NameLine("b") + (NameLine("c") + [Tile([], Tok(TEnd, ""))]))
  {
  }

  lemma JoinedText()
    ensures "a" + "\n" + ("b" + "\n" + ("c" + "\n" + "")) == "a\nb\nc\n"
  {
  }

  lemma JoinedToks()
    ensures LineToks("a") + (LineToks("b") + (LineToks("c") + [Tok(TEnd, "")]))
         == [Tok(TIdent, "a"), Tok(TNewline, "\n"), Tok(TIdent, "b"), Tok(TNewline, "\n"), Tok(TIdent, "c"), Tok(TNewline, "\n")]
            + [Tok(TEnd, "")]
  {
  }

  lemma {:induction false} EndIsPrinted()
    ensures var end := [Tile([], Tok(TEnd, ""))];
            Printable(end) && KeptApart(end) && TilesText(end) == "" && ToksOf(end) == [Tok(TEnd, "")]
  {
    var end := [Tile([], Tok(TEnd, ""))];
    assert end[1..] == [];
    NoGapText();
  }

  lemma {:induction false} LineYield(name: string, rest: Items)
    ensures var newline := Tok(TNewline, "\n");
            YieldItems(Item(Expression(Name(name)), Sep(newline, rest))) == [Tok(TIdent, name), newline] + YieldItems(rest)
  {
    var newline := Tok(TNewline, "\n");
    assert YieldItems(Sep(newline, rest)) == [newline] + YieldItems(rest);
    assert YieldStmt(Expression(Name(name))) == [Tok(TIdent, name)];
  }

  lemma {:induction false} ThreeLinesYield()
    ensures var newline := Tok(TNewline, "\n");
            YieldItems(ThreeLines()) == [Tok(TIdent, "a"), newline, Tok(TIdent, "b"), newline, Tok(TIdent, "c"), newline]
    ensures WellBoundItems(ThreeLines()) && EraseItems(ThreeLines()) == Names(["a", "b", "c"])
  {
    hide YieldItems, WellBoundItems, EraseItems, Names;
    var newline := Tok(TNewline, "\n");
    var c := Item(Expression(Name("c")), Sep(newline, NoItems));
    var b := Item(Expression(Name("b")), Sep(newline, c));
    NoYield();
    LineYield("c", NoItems);
    LineYield("b", c);
    LineYield("a", b);
    assert ["c"] + [] == ["c"] && ["b"] + ["c"] == ["b", "c"] && ["a"] + ["b", "c"] == ["a", "b", "c"];
    LineIsBound("c", NoItems, []);
    LineIsBound("b", c, ["c"]);
    LineIsBound("a", b, ["b", "c"]);
  }

  lemma {:induction false} NoYield()
    ensures YieldItems(NoItems) == [] && WellBoundItems(NoItems) && EraseItems(NoItems) == Names([])
  {
  }

  lemma {:induction false} LineIsBound(name: string, rest: Items, names: seq<string>)
    requires WellBoundItems(rest) && EraseItems(rest) == Names(names)
    ensures var line := Item(Expression(Name(name)), Sep(Tok(TNewline, "\n"), rest));
            WellBoundItems(line) && EraseItems(line) == Names([name] + names)
  {
    assert ([name] + names)[1..] == names;
    var after, stmt := Sep(Tok(TNewline, "\n"), rest), Expression(Name(name));
    assert ShapedItems(after) && BoundItems(after) && EraseItems(after) == Names(names);
    NameIsBound(name);
    assert ShapedItems(Item(stmt, after)) && BoundItems(Item(stmt, after));
  }

  lemma NameIsBound(name: string)
    ensures var stmt := Expression(Name(name));
            ShapedStmt(stmt) && BoundStmt(stmt) && EraseStmt(stmt) == IdentTree(name)
  {
  }

  lemma {:induction false} ThreeNames()
    ensures List(Names(["a", "b", "c"])) == [IdentTree("a"), IdentTree("b"), IdentTree("c")]
  {
    assert ["a", "b", "c"][1..] == ["b", "c"] && ["b", "c"][1..] == ["c"] && ["c"][1..] == [];
    assert Names(["c"]) == Trees(IdentTree("c"), NoTrees);
    assert Names(["b", "c"]) == Trees(IdentTree("b"), Names(["c"]));
    assert List(Names(["c"])) == [IdentTree("c")];
    assert List(Names(["b", "c"])) == [IdentTree("b"), IdentTree("c")];
  }

  lemma {:induction false} NamesAskNothing(name: string)
    ensures !Asks(IdentTree(name)) && !IdentTree(name).NoTree?
  {
    assert Parts(IdentTree(name)) == [];
  }

  /** Lists of three names lose their first two elements: statements, arguments, array elements; so do three parameters. */
  lemma {:induction false} ThreeAreLost(f: Tree, length: Tree, ident: Tree, block: Tree)
    ensures !Intact(BlockTree(Names(["a", "b", "c"])))
    ensures !Intact(CallTree(f, Names(["a", "b", "c"])))
    ensures !Intact(ArrayTree(Names(["a", "b", "c"]), length))
    ensures !Intact(FuncTree(ident, [Param("a", None), Param("b", None), Param("c", None)], block))
  {
    hide Asks, Names, List;
    ThreeNames();
    NamesAskNothing("a");
    NamesAskNothing("b");
    NamesAskNothing("c");
    var params := [Param("a", None), Param("b", None), Param("c", None)];
    LostNode(BlockTree(Names(["a", "b", "c"])));
    LostNode(CallTree(f, Names(["a", "b", "c"])));
    LostNode(ArrayTree(Names(["a", "b", "c"]), length));
    assert params[0].name[0] == 'a';
    LostNode(FuncTree(ident, params, block));
  }

  lemma {:induction false} LostNode(t: Tree)
    requires !t.NoTree? && !NodeIntact(t)
    ensures !Intact(t)
  {
    hide NodeIntact, IntactAll, Parts;
  }

  /**
   The source `a`, `b`, `c` on three lines is compiled without error, but in memory the program's block
   holds two null pointers, and what its pointers lead to is not its tree.
   */
  lemma {:induction false} ThreeStatements()
    ensures var t := BlockTree(Names(["a", "b", "c"]));
            && SourceTokens("a\nb\nc\n").Some?
            && Program(SourceTokens("a\nb\nc\n").value) == Done(ThreeLines(), 6, 0) && BlockTree(EraseItems(ThreeLines())) == t
            && !Intact(t) && !OneTree(Held(t, 0), t) && Held(t, 0)[0] == Node(BlockData, [None, None, Some(3)])
  {
    hide Printable, KeptApart, TilesText, ToksOf, YieldItems, WellBoundItems, EraseItems, Names, Program, SourceTokens;
    hide Intact, OneTree, HeldTrees.Held, Asks;
    ThreeLinesPrinted();
    ThreeLinesYield();
    SourceRoundTrip(ThreeLines(), ThreeTiles());
    ThreeAreLost(NoTree, NoTree, NoTree, NoTree);
    WholeInMemory(BlockTree(Names(["a", "b", "c"])));
    ThreeHeld();
  }

  lemma {:induction false} ThreeHeld()
    ensures var t := BlockTree(Names(["a", "b", "c"]));
            Size(t) > 0 && Held(t, 0)[0] == Node(BlockData, [None, None, Some(3)])
  {
    hide Asks, Names, List, HeldTrees.Held, HeldAll, Size, Sizes, Roots;
    var t := BlockTree(Names(["a", "b", "c"]));
    ThreeNames();
    NamesAskNothing("b");
    NamesAskNothing("c");
    assert Parts(t)[..0] == [] && Parts(t)[0..] == Parts(t);
    HeldParts(t, 0);
    SizeOfParts(t);
    ListsInMemory.HeldOne(t, 0);
    Layout.NoParts(0);
    ListsInMemory.NodeFirst(t, 0);
    ThreeRoots();
  }

  lemma {:induction false} ThreeRoots()
    ensures Roots([IdentTree("a"), IdentTree("b"), IdentTree("c")], 1) == [Some(1), Some(2), Some(3)]
  {
    hide Roots, Root, Size;
    Layout.LayThree(IdentTree("a"), IdentTree("b"), IdentTree("c"), 1);
    Layout.LayLeaf(IdentTree("a"), 1);
    Layout.LayLeaf(IdentTree("b"), 2);
    Layout.LayLeaf(IdentTree("c"), 3);
  }
}

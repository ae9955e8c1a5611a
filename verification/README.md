# Tira front end: a verified model

Tira is a small compiler front end written in C without a C library. This project models its lexer,
its Pratt parser with the node pool and the arena it fills, its arena allocator and its text
conversions, and proves what they do for all inputs. `dafny verify dfyconfig.toml` checks everything.

## How it is organised

- **Lexing.** `LexSpec` says what one call reads; `LexMachine` is the cursor machine, proved equal to
  it; `Comments` and `Gaps` are grammars for nested comments and for the text between tokens;
  `Lexemes` is the lexical grammar. `LexTheorems` (tiling, literals), `Relexing`, `SourceLines` and
  `TokenArrays` (the tokenising driver) hold the results.
- **Parsing.** `ParserSpec` gives every run as a function of the token array, with errors counted and
  with the reason when a run cannot go on. It returns a derivation (`Syntax`), which keeps what the
  tree forgets: operators, parentheses, separators. `Grammar` says, without reference to the parser,
  which derivations are well shaped and well bound. `RoundTrip` and `Converse` (with `Spelled`, about
  the tokens of a derivation) show that the two describe the same language, `ParserTheorems` states
  it; `Ladder` is the grammar that the parser really reads, written with token types alone, and shown to
  be the same language. `Brackets` prints derivations, `Minimality` shows that it does so with the fewest
  parentheses, `TreePrinting` prints trees; `Chains` compares the grouping of operator chains with the
  grammar in the source comments; `Recovery` says what is read where one token is missing.
- **The machine.** `ParserMachine.Parser` is the parser as it runs: a cursor, an array of nodes that
  only grows, an arena for lists, an error count, and every handler as a method. `Pool`, `Layout` and
  `Placement` say which slice of the array a tree takes, `PoolTheorems` what the finished array is,
  `Handlers` and the two `Steps` modules what each handler does to a run. Each handler is proved to do
  what `ParserSpec` says and to leave exactly that slice. `Shown` says node by node what the finished pool
  holds of a program, straight from its derivation.
- **Lists in memory.** The parser's lists of statements, arguments, array elements and parameters grow
  by `realloc_array`. `Growth` is that function on the bytes handed out so far, `Heaps.Build` what
  building a tree does to the arena; each handler is proved to leave exactly that heap. `ListSteps`
  and `ListsInMemory` say where every list then stands and what it holds, `HeldTrees` says the same of
  the tree alone, and `HeapTheorems` what the finished pool is when it is read through memory;
  `Footprints` says how many bytes a tree takes.
  `Parser.Pool()` is the pool with the pointers that were written, `HeapTheorems.PoolRead` the pool
  with the lists that memory holds.
- **Memory and text.** `Bits`, `Copying` and `Arenas` (64-bit arithmetic, memcpy, the arena);
  `Numbers`, `TextOutput` and `Formats` (integers, string builder, format strings).
- `Frontend` joins lexer and parser; `Failures` has concrete inputs for what follows.

## What the code does that its documentation does not say

- A list of three or more statements, arguments, array elements or parameters loses its first two
  elements in memory, unless something else is requested from the arena between its first pushes
  (`HeapTheorems.ProgramInMemory` has the exact condition, `HeldTrees.Intact`). The source `a`, `b`,
  `c` on three lines ends as a block with two null pointers (`Failures.ThreeStatements`).
- The cause is memcpy, which is right exactly when the destination does not start strictly inside the
  source (`Copying.CopiesExactlyWhen`); a third push into a two-element array at the arena's top
  starts there (`Arenas.PushKeepsExactlyWhen`, `Arenas.ThirdPushOverlaps`).
- A chain of binary operators groups flat to the left whatever the operators are, because the right
  operand is always parsed at the precedence of a factor. It agrees with the grammar in the comments,
  read as left-associative, exactly when precedence never increases along the chain
  (`Chains.CodeAgreesWithGrammarIff`; `Failures.SumOfProduct` is `a + b * c`).
- Ternaries nest to the left, `a ? b : c ? d : e` being `(a ? b : c) ? d : e`, where the comment at
  src/parser.c:754 asks for the right; ranges form chains, to the left as well, where the comment at
  src/parser.c:775 allows one operator (`Ladder.TernariesNestLeft`, `Ladder.RangesNestLeft`).
- A list of n elements takes a quadratic number of bytes, because every push from the third on moves it
  (`Footprints.BuildTakes`, `Footprints.PlainBlockBytes`).
- An array literal may end in a comma, and its elements are prefix forms only.
- Whatever token follows `const` or `var` becomes the declared name; `func` and `main` without an
  identifier are named after the keyword itself. An opening parenthesis needs at least one parameter;
  any token can name it.
- A slash token that is printed directly before a comment is lexed as part of a line comment
  (`Relexing.PrintedTokensAreLexedBack` has the exact condition, `Failures.SlashMeetsComment` an input).
- `source_line` returns the first line when it is asked for the empty line after a final line break
  (`SourceLines.SourceLine`, `Failures.LineAfterLastBreak`).
- The tokeniser writes its end token past the array when the token count is 512 times a power of two
  (`TokenArrays.LexFile`, `TokenArrays.FullAtPowers`, `Failures.OverrunAt512`), and reads a shebang line
  without a line break for ever.
- `sb_build_int` leaves a lone minus sign when the digits do not fit (`TextOutput.LoneSignExactlyWhen`);
  `sb_build_u64` writes past its digit buffer from 10^16 on, and `sb_build_char` past a builder without
  capacity (`TextOutput.StringBuilder.BuildU64`, `TextOutput.StringBuilder.BuildChar`).
- `vsnprintf` never ends when a text does not fit its buffer, drops a number that does not fit, and
  starts a directive with the second half of a double `%` that does not fit
  (`Formats.Print`, `Formats.FullTextExactlyWhen`, `Formats.TextsLoopExactlyWhen`,
  `Formats.NumberIsDroppedExactlyWhen`).

## Model

| member | source | states |
|---|---|---|
| ParserTheorems.ExpressionRoundTrip | src/parser.c:638-661 | For every well-bound derivation spelled at a position, before a token that its right edge and the calling precedence leave alone, parsing returns that derivation, stops exactly at that token and raises no error |
| ParserTheorems.ExpressionCharacterised | src/parser.c:638-661 | A run at a calling precedence ends without error with derivation `s` at `end` if and only if `s` is well bound, its tokens are exactly those consumed and the next token may follow |
| ParserTheorems.ExpressionUnambiguous | src/parser.c:445-505 | Two well-bound derivations with the same tokens, parentheses included, are equal |
| ParserTheorems.ProgramCharacterised | src/parser.c:515-542 | A token array is read without error as a program if and only if it is the tokens of that well-bound program followed by the end token |
| ParserTheorems.ProgramRoundTrip | src/parser.c:515-542 | Every well-bound program of declarations, functions, returns, blocks and if/else chains, with any non-empty mix of separators between statements and any newlines before `else`, is read back as itself |
| ParserTheorems.ProgramUnambiguous | src/parser.c:1151-1204 | Two well-bound programs with the same tokens are equal |
| Ladder.ExpressionLadder | src/parser.c:638-661 | An expression is read without error if and only if it is one of a grammar of token types and constructors, without precedences, its tokens stand there, and the next one goes on with no expression |
| Ladder.ProgramLadder | src/parser.c:515-542 | A token array is read without error as a program if and only if it is statements of that grammar, with newlines and semicolons around and between them, before the end token |
| Ladder.EveryExpressionIsRead | src/parser.c:638-661 | At whatever precedence the parser is called, what it reads without error is an expression of that grammar |
| Ladder.BoundReads | src/parser.c:445-505 | The rule table and the right-hand precedences bind exactly as that grammar says: calls, indexes and members tightest, then minus and not, binary operators, ranges, ternaries, assignments |
| Ladder.OneReading | src/parser.c:638-661 | Tokens have at most one reading in that grammar |
| Ladder.PrefixTakesCall | src/parser.c:806-815 | A minus or a not before a call applies to the whole call, and that is the only reading |
| Ladder.PrefixTakesIndex | src/parser.c:806-815 | The same before an index |
| Ladder.PrefixTakesMember | src/parser.c:806-815 | The same before a member |
| Ladder.TernariesNestLeft | src/parser.c:756-769 | A ternary after a ternary's else branch takes the whole ternary as its condition; the derivation nested to the right has the same tokens and is never read |
| Ladder.RangesNestLeft | src/parser.c:777-785 | A chain of ranges nests to the left |
| Ladder.AssignmentsNestRight | src/parser.c:665-672 | A chain of assignments nests to the right |
| ParserTheorems.IfWithoutElseRewinds | src/parser.c:1079-1096 | In every run, erroneous ones included, an if that took no else arm ends right after the closing brace at which the statements of its own block stopped |
| ParserTheorems.IfKeepsSeparators | src/parser.c:1079-1096 | In every run the newlines such an if statement looked over are read by the block around it as its own separators, and no error is counted for them |
| ParserTheorems.NewlinesSeparate | src/parser.c:1185-1187 | Newlines where a statement could start are separators of the statements around them |
| ParserTheorems.SeparatorsSeparate | src/parser.c:1184-1187 | In every run a newline or a semicolon where a statement could start is a separator, and no error is counted for it |
| ParserTheorems.StatementsAreClosed | src/parser.c:1188-1198 | In every run one error is counted after a statement exactly if neither a newline nor a semicolon nor the end token comes next |
| Recovery.NoExpression | src/parser.c:645-649 | A token that no expression starts with is one error, is passed over and leaves a null pointer; the twelve types that start one are listed |
| Recovery.BadNumber | src/parser.c:993-1003 | A number that does not fit 64 bits is one error and still a leaf |
| Recovery.OpenGroup | src/parser.c:973-979 | Parentheses that are not closed are one error; the expression inside is kept and nothing else is consumed |
| Recovery.OpenIndex | src/parser.c:914-922 | The same for an index |
| Recovery.OpenCall | src/parser.c:886-909 | The same for a call, with all its arguments kept |
| Recovery.OpenArray | src/parser.c:1034-1061 | The same for an array literal, with all its elements kept |
| Recovery.ManyRepeated | src/parser.c:1053-1056 | A repeat count after several elements is one error; elements and count are kept |
| Recovery.NoMember | src/parser.c:928-936 | A dot without a name after it is one error and leaves a null member |
| Recovery.NoColon | src/parser.c:762-766 | A ternary without its colon is one error; both branches are kept |
| Recovery.NoThenBrace | src/parser.c:1070-1077 | An `if` without the opening brace of its block is one error; the statements up to the closing brace are its block |
| Recovery.NoFunctionBrace | src/parser.c:567-604 | The same for a function without parameters |
| Recovery.OpenParameters | src/parser.c:581-601 | A parameter list that is not closed is one error; the block after it is read |
| ParserSpec.Expr | src/parser.c:638-661 | Parsing an expression consumes at least one token on every call that returns, errors included, and never reads past the array |
| ParserSpec.Statements | src/parser.c:1180-1204 | The statement loop stops only at its end token |
| Brackets.BracketPlaces | src/parser.c:756-815 | Bracketing an operand where the table and the right-hand precedences require it gives a well-bound derivation of the same tree in the right place |
| Brackets.BracketChangesTheUnbound | src/parser.c:638-661 | Bracketing leaves a derivation as it is if and only if it is already bound for its place |
| Minimality.BracketIsMinimal | src/parser.c:638-661 | Of all derivations that differ in parentheses only and are bound for a place, the bracketed one has the fewest parentheses |
| Minimality.ItemsBracketIsMinimal | src/parser.c:1180-1204 | The same for whole programs |
| Minimality.TighterCostsOne | src/parser.c:653-658 | Moving an operand to a place of higher precedence costs at most one pair of parentheses |
| Brackets.BracketItemsFit | src/parser.c:1180-1204 | A bracketed program is well bound and has the same tree |
| TreePrinting.TreeRoundTrip | src/parser.c:638-661 | Every derivation of an expression tree, with any operators at its binary nodes, printed anywhere with the parentheses its place asks for and before any token that leaves it alone, parses back to that tree and stops at that token |
| TreePrinting.DeriveIsFaithful | src/parser.c:794-802 | Every tree of the language has a derivation for every choice of an operator at each of its binary nodes |
| TreePrinting.ProgramTreeRoundTrip | src/parser.c:515-542 | Every derivation of a program's trees, printed with the parentheses it needs, parses back to the same trees; what memory then holds of them is in HeapTheorems.ProgramInMemory |
| Chains.ChainParsesLeft | src/parser.c:794-802 | A chain of comparison, additive and multiplicative operators parses to its left fold whatever the operators are |
| Chains.LayeredTreeIsLayered | src/parser.c:787-792 | The tree that splits at the last loosest operator is a derivation of the layered grammar of the comments, read as left-associative |
| Chains.LayeredTreeIsUnique | src/parser.c:787-792 | That left-associative grammar derives a chain in one way only |
| Chains.CodeAgreesWithGrammarIff | src/parser.c:787-802 | The tree the code builds equals the tree of the documented grammar, read as left-associative, if and only if precedence never increases from one operator to the next |
| Pool.PoolIsOneTree | src/parser.c:351-367 | In the slice of a whole tree the root is nobody's child and every other node is a child exactly once |
| Pool.OneParentEach | src/parser.c:351-367 | Wherever a slice lies, its child pointers and its root name each of its indices exactly once and nothing outside it |
| Pool.SliceRepresents | src/parser.c:351-367 | Following the pointers from the root of a slice gives the tree back |
| Pool.RepresentsOnlyOne | src/parser.c:351-367 | No pointer represents two different trees |
| Pool.NodesWithinTokens | src/parser.c:357-366 | An expression has at most as many nodes as tokens |
| Pool.ItemsWithinTokens | src/parser.c:357-366 | A program's statements have at most as many nodes as tokens |
| PoolTheorems.ProgramBudget | src/compiler.c:194-195 | An error-free program needs at most as many nodes as there are tokens, the end token included |
| PoolTheorems.WholePool | src/parser.c:515-542 | The finished pool of a program, with the pointers that were written, is one tree rooted at node 0 |
| Shown.PoolShowsProgram | src/parser.c:515-542 | Node 0 of the finished pool is the program's block, and every node below it holds the data, and the children in the order, that the tokens say: number, text, truth value, operator, range flag, names, parameters, each statement once |
| Shown.ShownIsRepresented | src/parser.c:351-367 | The nodes from a pointer are those of an expression's derivation exactly when they represent its tree |
| Shown.MemoryShowsExactlyWhen | src/parser.c:345-349 | Through memory the pool holds that exactly when no list of the program has lost anything |
| HeapTheorems.ProgramInMemory | src/parser.c:515-542 | The finished pool of a program as it is read through memory is one tree, the program's, and is the pool that was written, if and only if every list has at most two elements, or something is requested between its first pushes, or its first two elements are null |
| HeapTheorems.PoolIsHeld | src/parser.c:345-349 | Every list that is read through the pool is the one that was written, or has null pointers for its first two elements, as a property of the tree says |
| HeapTheorems.PushesKeepExactlyWhen | src/memory.c:55-70 | Pointers pushed onto a fresh list with no other request in between all survive if and only if there are at most two, or the first two are null |
| HeldTrees.WholeInMemory | src/parser.c:515-542 | The pool that memory holds for a tree is one tree, and the pool that was written, exactly when the tree is intact |
| HeldTrees.RepresentedIsIntact | src/parser.c:345-349 | If the pointers in memory lead from the root back to the tree, no list of the tree has lost anything |
| ListsInMemory.BuildStores | src/parser.c:345-349 | After a tree was built, every list of it stands in memory above all earlier bytes, with or without its first two elements |
| Footprints.BuildTakes | src/memory.c:50-70 | Building a tree requests an exact number of bytes, given by the lengths of its lists and by what comes between their first two pushes |
| Footprints.PlainBlockBytes | src/memory.c:50-70 | A block of n statements that request nothing takes 8n^2 + 8n - 32 bytes, for two or more |
| Footprints.AsksExactlyWhen | src/parser.c:345-349 | The trees that request memory are exactly those that take a positive number of bytes |
| ListsInMemory.NextArgHeld | src/parser.c:894-899 | One more argument: room first, then the argument with its own requests, then its pointer; the earlier pointers stay, or the first two are lost at the third push |
| ListsInMemory.NextStmtHeld | src/parser.c:345-349 | One more statement: built first, then room and its pointer, with the same effect on the earlier ones |
| ListsInMemory.NextParamHeld | src/parser.c:584-587 | One more parameter, with nothing requested in between |
| HeapFrames.BuildFrame | src/memory.c:37-70 | Building a tree changes no byte handed out before and no other node's list; memory grows exactly when the tree asks for some |
| Growth.GrowList | src/memory.c:55-70 | One push onto a list: in place, or into a new block with the old bytes, or with zeros for two elements at the top |
| Growth.GrowIsRealloc | src/memory.c:55-70 | In an arena that is zero above its used bytes, the growth that the parser's lists go through is what realloc_array does, and fails exactly when the bytes do not fit |
| ParserMachine.Parser.constructor | src/compiler.c:187-200 | A parser starts at the first token with an empty pool and the arena as it is |
| ParserMachine.Parser.NewNode | src/parser.c:351-367 | Appends one node to the pool; fails exactly when the pool is full |
| ParserMachine.Parser.ReserveSlot | src/memory.c:55-70 | Makes room for one more list element as realloc_array does; stops exactly when the arena is exhausted |
| ParserMachine.Parser.RaiseError | src/parser.c:309-320 | Counts one error |
| ParserMachine.Parser.Match | src/parser.c:293-299 | Consumes the next token exactly when it has the given type |
| ParserMachine.Parser.ExpectToken | src/parser.c:332-343 | Consumes a token of the given type, or counts an error and stays |
| ParserMachine.Parser.ParseExprPrec | src/parser.c:638-661 | Does what the specification says of the run, leaves exactly the slice of the returned tree after the earlier pool, and the heap that building the tree gives; stops early only if the pool or the arena is too small for the tree |
| ParserMachine.Parser.ParsePrefix | src/parser.c:645-651 | Dispatches on the table; same outcome and slice as the specified prefix handler |
| ParserMachine.Parser.ParseInfix | src/parser.c:653-658 | Dispatches on the table; same outcome as the specified infix handler, the slice of the left operand first |
| ParserMachine.Parser.ParseUnary | src/parser.c:810-815 | The unary node comes first, its operand right after it |
| ParserMachine.Parser.ParseBinary | src/parser.c:794-803 | The node stands between its operands; the right one is parsed at the precedence of a factor |
| ParserMachine.Parser.ParseRange | src/parser.c:777-785 | The node stands between its operands and records whether the range is inclusive |
| ParserMachine.Parser.ParseAssign | src/parser.c:665-672 | The node stands between target and value, which is parsed at the lowest precedence |
| ParserMachine.Parser.ParseIndex | src/parser.c:914-922 | The node stands between base and index; a missing bracket counts one error |
| ParserMachine.Parser.ParseDot | src/parser.c:928-937 | The node follows its owner and records the member name, or none and one error |
| ParserMachine.Parser.ParseTernary | src/parser.c:756-769 | The node follows the condition; then the two branches, the second parsed at the precedence of a ternary |
| ParserMachine.Parser.ParseNumber | src/parser.c:987-1005 | Stores the value of a number that fits, or counts one error |
| ParserMachine.Parser.ParseString | src/parser.c:1008-1014 | Stores the token's text |
| ParserMachine.Parser.ParseIdentifier | src/parser.c:1126-1133 | One node named after the token just consumed, whatever that is |
| ParserMachine.Parser.ParseNil | src/parser.c:1017-1020 | One nil node |
| ParserMachine.Parser.ParseBool | src/parser.c:1024-1029 | One node with the truth value of the token |
| ParserMachine.Parser.ParseGrouping | src/parser.c:973-979 | Adds no node of its own |
| ParserMachine.Parser.ParseCall | src/parser.c:886-908 | The node follows the callee, the arguments follow the node in order; the node gets the array that the arena made of the list |
| ParserMachine.Parser.ParseArguments | src/parser.c:893-900 | No arguments before a closing parenthesis, else the whole list in order and its array |
| ParserMachine.Parser.ParseArgumentList | src/parser.c:894-899 | The do-while loop collects exactly the arguments that the specification lists, in an array that grows before each of them |
| ParserMachine.Parser.AddExpr | src/parser.c:897-898 | Makes room in the array, parses one expression, stores its pointer |
| ParserMachine.Parser.ParseArrayLit | src/parser.c:1034-1065 | The node comes first, then its elements, then its length; the node gets the elements' array |
| ParserMachine.Parser.ParseElements | src/parser.c:1041-1048 | The loop collects the elements in a growing array, and stops at a closing bracket after a comma |
| ParserMachine.Parser.ParseArrayLength | src/parser.c:1052-1059 | A semicolon needs exactly one element and brings a length; the bracket is expected after it |
| ParserMachine.Parser.SkipNewlineTokens | src/parser.c:404-407 | Moves to the first token that is not a newline |
| ParserMachine.Parser.ParseIfExpr | src/parser.c:1070-1103 | Condition, block and else arm come before the if node |
| ParserMachine.Parser.ParseThen | src/parser.c:1074-1076 | Newlines, an opening brace and a block |
| ParserMachine.Parser.TakeElse | src/parser.c:1079-1096 | Looks ahead over newlines; without `else` the cursor is where it was |
| ParserMachine.Parser.ParseElseArm | src/parser.c:1082-1096 | An else arm if `else` comes after newlines, and nothing otherwise |
| ParserMachine.Parser.ParseArm | src/parser.c:1086-1092 | Another if expression, or a block |
| ParserMachine.Parser.ParseBlock | src/parser.c:1180-1204 | The block node comes first with an empty list, then its statements; the closing brace is consumed; heap and slice are those of the block |
| ParserMachine.Parser.ParseStatements | src/parser.c:1185-1199 | The loop collects exactly the statements that the specification lists, in an array that grows after each of them, and counts one error for every missing separator |
| ParserMachine.Parser.AddStatement | src/parser.c:345-349 | The block's pointers and its array in the arena grow by the root of the statement just parsed |
| ParserMachine.Parser.ParseStmt | src/parser.c:1151-1161 | Dispatches on the statement keyword |
| ParserMachine.Parser.ParseReturn | src/parser.c:1165-1173 | The return node comes first, its expression right after it |
| ParserMachine.Parser.ParseConstVarDecl | src/parser.c:547-563 | Node, identifier, initialiser; whatever token follows the keyword is the name |
| ParserMachine.Parser.ParseInit | src/parser.c:556-557 | An initialiser exactly after an equals sign |
| ParserMachine.Parser.ParseFuncDecl | src/parser.c:567-604 | Node, identifier, block; without an identifier the keyword is the name |
| ParserMachine.Parser.ParseFuncName | src/parser.c:570-573 | The node, then the identifier after it; fails exactly when the pool is full or the tokens have run out |
| ParserMachine.Parser.ParseFuncBody | src/parser.c:578-601 | Parameters, the record for them, an opening brace and the block |
| ParserMachine.Parser.ParseParams | src/parser.c:581-590 | The parameters in parentheses, if there are any, and their array |
| ParserMachine.Parser.ParseParamList | src/parser.c:584-587 | The do-while loop collects the parameters in an array that grows before each of them |
| ParserMachine.Parser.AddParam | src/parser.c:585-586 | Makes room in the array, parses one parameter, stores it |
| ParserMachine.Parser.ParseParam | src/parser.c:615-629 | A name, and after a colon a type |
| ParserMachine.Parser.ParseProgram | src/parser.c:515-542 | The finished pool as written is one tree rooted at node 0, the tree of the program; read through memory it is that tree if and only if the tree is intact; an error-free program cannot exhaust a pool as large as its token count, and stops only if the arena is too small for its lists |
| ParserMachine.Parser.ProgramReadsBack | src/parser.c:515-542 | The pool and the heap of a program's tree are one tree as written, and as read through memory exactly when the tree is intact |
| LexMachine.Lexer.constructor | src/compiler.c:72-77 | A lexer starts at the first character, on line 1, at the start of a line |
| LexMachine.Lexer.Advance | src/lexer.c:108-115 | Returns the next character and moves on, or a NUL at the end |
| LexMachine.Lexer.SkipSpan | src/lexer.c:166 | Moves to the first character outside a class |
| LexMachine.Lexer.SkipLineComment | src/lexer.c:133-142 | Moves to the line break, which it leaves |
| LexMachine.Lexer.SkipBlockComment | src/lexer.c:144-164 | Stops where the comment grammar says, reports a newline exactly when the skipped text holds one, and raises the line count by their exact number |
| LexMachine.Lexer.SkipBlanksAndComments | src/lexer.c:181-191 | Skips exactly the gap; the flag is that of its last block comment |
| LexMachine.Lexer.LexNext | src/lexer.c:176-342 | One token: type, place and line as specified, and the whole new state |
| LexMachine.Lexer.LexText | src/lexer.c:211-340 | The token that the specification scans at the cursor, which is at least as long as any lexeme there (Lexemes.ScanIsLongest) |
| LexMachine.Lexer.LexNumber | src/lexer.c:316-331 | Digits, or 0x and hexadecimal digits; 0x alone is invalid |
| LexMachine.Lexer.LexMark | src/lexer.c:218-292 | The operator or mark that the specification scans at the cursor, which is the longest one there (Lexemes.MarkIsLongest) |
| Comments.NestedComment | src/lexer.c:144-164 | The scan ends at `end` with no comment open if and only if a derivation of the nested-comment grammar and its closing mark end there; without one it runs to the end of the input |
| Comments.CommentUnambiguous | src/lexer.c:151-157 | A text has at most one such derivation |
| Comments.ScanReadsBody | src/lexer.c:151-157 | At any depth, counting marks amounts to reading one comment body by recursive descent |
| Gaps.GapsAreSequencesOfPieces | src/lexer.c:181-191 | A text is skipped, with a given newline flag, if and only if it is a sequence of blanks, line comments and block comments of which the last block comment has that flag; there is only one such sequence |
| Lexemes.ScanIsLexeme | src/lexer.c:199-341 | Everything scanned is a lexeme of its type, a directive, an unclosed string at the end of the input, or invalid |
| Lexemes.LexemeIsScanned | src/lexer.c:199-341 | Every lexeme of the lexical grammar that stands apart is scanned whole, with its type |
| Lexemes.ScanIsLongest | src/lexer.c:199-341 | No lexeme that stands at a position is longer than what is scanned there, whatever comes after it |
| Lexemes.LongestLexemeIsScanned | src/lexer.c:199-342 | Where a lexeme starts, whatever follows it, the token scanned is valid, the longest lexeme there, and of its type; a directive stands for a longer text than the percent sign; only a number's prefix without a digit is invalid |
| Lexemes.InvalidExactlyWhen | src/lexer.c:199-342 | A token is invalid exactly where no lexeme and no string starts, or a number's prefix stands without a digit |
| Lexemes.ScanIsScanned | src/lexer.c:199-342 | What is scanned satisfies the lexical grammar: longest lexeme, directive to the end of its word, string cut off by the end, or invalid text of one or two characters |
| Lexemes.OnlyTheScanned | src/lexer.c:199-342 | Nothing else at that place satisfies it |
| Lexemes.OneTypeEach | src/lexer.c:199-342 | A text is a lexeme of one type only |
| Lexemes.ClassesAre | src/lexer.c:63-79 | Blanks, word characters, digits and hexadecimal digits are the listed characters |
| Lexemes.KeywordsAre | src/lexer.c:81-101 | The words that are no identifiers are the sixteen listed ones |
| Lexemes.KeywordSpellings | src/lexer.c:81-101 | Each keyword type has its keyword as its spelling |
| Lexemes.MarkSpellings | src/lexer.c:211-292 | Each operator or mark has its characters as its spelling |
| Lexemes.MarkIsLongest | src/lexer.c:218-292 | No operator or mark that stands at a position is longer than the one scanned there |
| Lexemes.KeywordsAreSpelled | src/lexer.c:81-101 | A word gets a keyword's type only if it is that keyword's spelling |
| LexTheorems.InputIsTiled | src/lexer.c:176-342 | A token sequence is that of an input if and only if it comes from a tiling of it by gaps and, after each, what the lexical grammar says stands there; a tiling rebuilds the input |
| LexTheorems.LexingIsTiling | src/lexer.c:176-342 | From any position there is exactly one such tiling, the one that is read |
| LexTheorems.OnlyTheFirstIsDirective | src/lexer.c:301-309 | A directive is the first token but for the textless newlines of block comments |
| LexTheorems.TokensAreLexemes | src/lexer.c:176-342 | Every token of an input is of one of the specified forms |
| LexTheorems.NumbersAreIntegers | src/lexer.c:316-331 | A number token is decimal digits or 0x and hexadecimal digits, holds no dot, and is accepted exactly when its value is at most 2^63-1 |
| LexTheorems.EmittedTexts | src/compiler.c:90-103 | The emitted tokens and the end token stand for the lexed types and texts |
| Relexing.PrintedTokensAreLexedBack | src/lexer.c:176-342 | Complete tokens printed with any one-line gaps between them are lexed back, types and texts, if and only if no line comment runs into a token and no slash into a comment |
| Relexing.SpacedTokensAreLexedBack | src/lexer.c:176-342 | Complete tokens printed with single blanks are always lexed back, types and texts |
| SourceLines.TokenLine | src/lexer.c:193-209 | A token's line, less one, plus the line breaks inside earlier strings is the number of line breaks before it |
| LineCounts.LineBreaksCount | src/lexer.c:201-203 | What counts as line breaks are the positions that hold one |
| SourceLines.SourceLine | src/compiler.c:108-135 | Finds a line exactly when the source has it; returns that line, except that for the empty line after a final break it returns the first |
| SourceLines.TokenIsOnItsLine | src/compiler.c:80-135 | A token of a file, shebang line or not, with text and no line break in an earlier string, starts inside or at the end of the span found for its recorded line |
| SourceLines.LinesAreUnique | src/compiler.c:108-135 | A line number names one span |
| TokenArrays.TokenArray.constructor | src/compiler.c:72-73 | An empty token array with the arena's room |
| TokenArrays.TokenArray.Start | src/compiler.c:72-74 | Allocates 512 slots if there is room |
| TokenArrays.TokenArray.Add | src/compiler.c:92-100 | Appends a token, doubling and copying a full array; fails exactly when the arena has no room for that |
| TokenArrays.TokenArray.Append | src/compiler.c:91-101 | One round of the loop succeeds exactly when the room is enough for every doubling so far, and keeps the earlier tokens |
| TokenArrays.LexFile | src/compiler.c:66-106 | The array holds the token sequence and one end token, unless the shebang line has no break, the arena runs out or the array is exactly full; each outcome exactly in its case |
| TokenArrays.FillArray | src/compiler.c:90-101 | The loop ends, and across all doublings the array holds the token sequence |
| TokenArrays.FullAtPowers | src/compiler.c:92-103 | The array is full exactly at the counts that doubling reaches |
| TokenArrays.ShebangIsSkipped | src/compiler.c:80-86 | A file of `#!` and at least one more character is read from its first line break, for ever if it has none; any other file from its start |
| TokenArrays.SlotsAreTwice | src/compiler.c:92-99 | All the arrays together take twice the slots of the last one, less those of the first |
| Frontend.ShebangTokens | src/compiler.c:80-86 | Of a shebang line only its line break is left, as the first token |
| Frontend.SourceCharacterised | src/compiler.c:80-203 | A file whose shebang line, if any, ends is read as a program without error if and only if the tokens after that line are those of that well-bound program |
| Frontend.SourceRoundTrip | src/compiler.c:183-203 | A well-bound program printed with any one-line gaps kept apart from its tokens is read back from the text as itself |
| Frontend.SpacedSourceRoundTrip | src/compiler.c:183-203 | Every well-bound program of complete tokens, printed with single blanks, is read back from the text as itself |
| Frontend.Compile | src/compiler.c:183-203 | Finishes exactly when the tokeniser does; then the pool of 256 nodes answers the program's run, is its tree as written, and is read back through memory as that tree exactly when it is intact; always if there is no error, at most 256 tokens and room in the arena |
| Frontend.PoolHoldsProgram | src/parser.c:515-542 | After any run that ends, errors included, the pool shows the program that was read, and memory does exactly when no list has lost anything |
| Frontend.SmallFilesFinish | src/compiler.c:66-106 | A file of at most 512 tokens is tokenised exactly when its shebang line ends and 512 slots fit |
| Frontend.CompilePrinted | src/compiler.c:183-203 | A printed well-bound program of at most 256 tokens, with room, is compiled without an error into a pool that is its tree, in memory too exactly when the tree is intact |
| Failures.ThreeStatements | src/parser.c:345-349 | The source a, b, c on three lines is read without error, but its block holds two null pointers in memory and the pool is not its tree |
| Failures.ThreeAreLost | src/parser.c:894-899 | No list of three names is intact: statements, arguments, array elements, parameters |
| Failures.OverrunAt512 | src/compiler.c:103 | 512 empty lines fill the token array exactly, so that the end token is written past it |
| Failures.SlashMeetsComment | src/lexer.c:181-191 | A slash printed directly before a line comment is not lexed back |
| Failures.LineAfterLastBreak | src/compiler.c:108-135 | Line 2 of the text a and a line break is empty, and not what is returned for it |
| Failures.SumOfProduct | src/parser.c:787-802 | a + b * c is a sum in the grammar of the comments and a product in the tree the code builds |
| Bits.MaskRoundsUp | src/memory.c:42 | For a power of two and no overflow, the mask expression gives the least multiple that is not below the address |
| Bits.MaskClears | src/memory.c:42 | And with the bits from k up subtracts the remainder by 2^k |
| Copying.CopiesExactlyWhen | src/memory.c:72-89 | memcpy copies every memory correctly if and only if the destination does not start strictly inside the source |
| Copying.OverlapLosesBytes | src/memory.c:80-83 | If it does start there, any byte but the last can be lost |
| Copying.CrossedExactly | src/memory.c:80-83 | Where the destination starts inside the source, each byte from its end on is the one as far beyond the source's last, or unchanged where that was overwritten before it was read |
| Copying.MemCopy | src/memory.c:72-89 | Leaves in memory exactly what the copy specification says |
| Copying.CopyUp | src/memory.c:84-86 | The upward loop copies the cells and changes nothing else |
| Copying.CopyCrossed | src/memory.c:80-83 | The overlapping loop goes down through the destination and up through the source |
| Arenas.AllocRoundsUp | src/memory.c:37-48 | A sensible request is granted the next aligned address exactly when it fits |
| Arenas.GrantedExactlyWhen | src/memory.c:37-48 | A request is granted exactly if size and count are positive and the block fits behind the next aligned address |
| Arenas.GrantKeepsSound | src/memory.c:37-48 | The new block is aligned, above all earlier blocks and inside the arena |
| Arenas.StepKeepsSound | src/memory.c:13-70 | Every sensible request keeps all blocks disjoint, aligned and inside the arena and moves none, whether or not growing blocks own their elements |
| Arenas.RunKeepsSound | src/memory.c:13-70 | So does every run of requests; blocks stay aligned, `used` never falls and never exceeds the size |
| Arenas.RunKeepsBytes | src/memory.c:13-89 | Over every run a block that its owner does not store into keeps its bytes, whatever is allocated, pushed and grown |
| Arenas.GrowthKeepsElements | src/memory.c:55-70 | An array that owns its elements keeps them when it grows: in place exactly when it ends at the top, else in a new block for twice as many |
| Arenas.PushKeepsExactlyWhen | src/memory.c:55-89 | A push keeps the elements for every content of memory if and only if it is in place or the new block does not start inside the region that is copied |
| Arenas.InPlaceIsSafeExactlyWhen | src/memory.c:60-64 | After a push in place the new element lies inside the array's block if and only if the block has room for it |
| Arenas.BlocksAreDisjoint | src/memory.c:13-48 | Any two blocks of a sound arena are disjoint and below `used` |
| Arenas.ThirdPushOverlaps | src/memory.c:55-70 | A third push into a two-element array at the top starts the copy inside its source and does not keep the elements |
| Arenas.Arena.constructor | src/memory.c:22-34 | An empty arena |
| Arenas.Arena.AllocBytes | src/memory.c:37-48 | Aligned, disjoint, inside the arena; a refused request changes nothing |
| Arenas.Arena.PushBytes | src/memory.c:13-20 | The bytes right above `used`, exactly when they fit |
| Arenas.Arena.ReallocArray | src/memory.c:55-70 | The exact new state, memory included: succeeds exactly at the top or when the new block fits; at the top the array is returned as it is, else copied into a new block for twice as many elements; elements that the array owns are kept |
| Numbers.StringToInt64 | src/string.c:130-179 | Accepts a numeral exactly when its magnitude is at most 2^63-1 and returns its value, with no overflow on the way |
| Numbers.ReadDigits | src/string.c:146-175 | The digit loop: accepts exactly the digit strings whose value fits |
| Numbers.DecimalTextValue | src/string.c:85-91 | The decimal text of a number denotes it |
| Numbers.DecimalRoundTrip | src/string.c:51-92 | The text of every integer of 64-bit magnitude is read back as that integer |
| Numbers.HexRoundTrip | src/string.c:144-164 | Positional hexadecimal in either case, after either prefix, is read as its number exactly if that is at most 2^63-1 |
| Numbers.SignedRoundTrip | src/string.c:166-178 | The decimal text of a magnitude, bare, with plus and with minus, is read as that number or its negative exactly if it is at most 2^63-1 |
| Numbers.HexDigitsInOrder | src/string.c:152-155 | The k-th character of each list of sixteen digits has the value k |
| Numbers.HexDigitsAreThese | src/string.c:152-156 | No other character is a digit |
| Numbers.LeadingZeros | src/string.c:158-160 | Leading zeros change no value |
| Numbers.NoNumerals | src/string.c:131-170 | Nothing, a lone sign, a lone prefix and a signed hexadecimal are no numerals |
| TextOutput.StringBuilder.constructor | src/string.c:21-25 | An empty builder |
| TextOutput.StringBuilder.BuildString | src/string.c:36-43 | Appends the string exactly when it fits |
| TextOutput.StringBuilder.BuildChar | src/string.c:45-49 | Appends the character unless only one place is left; writes past a builder without capacity and no other |
| TextOutput.StringBuilder.BuildU64 | src/string.c:74-92 | Appends the decimal text when it fits with room to spare, and keeps the earlier text; writes past its digit buffer exactly from 10^16 on |
| TextOutput.StringBuilder.BuildInt | src/string.c:51-70 | Appends the sign and the digits of any 32-bit integer, the minimum included, and keeps the earlier text |
| TextOutput.TakeDigits | src/string.c:82-88 | The digit loop stores the decimal text backwards, if the buffer has room for it |
| TextOutput.BuiltIntReadsBack | src/string.c:51-70 | With enough room the appended text is the integer's text and reads back as it |
| TextOutput.BuiltU64ReadsBack | src/string.c:74-92 | The same for unsigned values below 10^16 |
| TextOutput.LoneSignExactlyWhen | src/string.c:60-69 | A lone sign is appended exactly when it fits and the digits do not |
| TextOutput.U64IsWrittenExactlyWhen | src/string.c:74-92 | A number is appended whole exactly if one more character would fit after it, or it is zero and fits, and not at all otherwise |
| TextOutput.IntIsWrittenExactlyWhen | src/string.c:51-70 | The same for a signed number, except that its sign is appended alone where its digits do not fit |
| Formats.VsnPrintf | src/print.c:19-119 | For every format, arguments and buffer size does what the printer says: ends with its text, terminated, and nothing after it changed; or loops; or reads past its format or its arguments |
| Formats.FullTextExactlyWhen | src/print.c:19-119 | The whole rendered text comes out if and only if the buffer is two characters larger, or one if the text does not end in a nonzero number, or there is no text |
| Formats.TextsLoopExactlyWhen | src/print.c:26-47 | A format of texts alone is printed whole or loops, and loops exactly when the text does not fit |
| Formats.NumberIsDroppedExactlyWhen | src/print.c:70-95 | A number is written whole or dropped, and dropped exactly when it does not fit with a character to spare; zero needs none |
| Formats.CharPrints | src/print.c:28-31 | In a buffer of any size a plain character is written if another would fit after it, and is tried for ever otherwise |
| Formats.TextPrints | src/print.c:40-48 | A text is written if it fits with the terminator, and is tried for ever otherwise; an empty one needs no room |
| Formats.IntPrints | src/print.c:70-95 | An integer is written if it fits, with a character to spare unless it is zero, and is dropped otherwise; the rest of the format goes on |
| Formats.SizePrints | src/print.c:50-68 | The same for an unsigned integer |
| Formats.PercentPrints | src/print.c:33-38 | A double percent sign is written as one if another character would fit after it; otherwise its second half starts a directive |
| Formats.UnknownPrints | src/print.c:97-99 | An unknown directive is passed over in a buffer of any size |
| Formats.ReadsPast | src/print.c:33-42 | A percent sign at the end and a missing argument are read past |
| Formats.PutDirective | src/print.c:26-100 | One directive writes its text if that fits, drops a number that does not, and loops on any other |
| Formats.PutText | src/print.c:43-45 | The copy loop writes the whole text, or loops exactly when it does not fit |
| Formats.PutSize | src/print.c:50-68 | Writes the decimal text of an unsigned value, or nothing if it does not fit |
| Formats.PutInt | src/print.c:70-95 | Writes the decimal text of a 32-bit integer, the minimum included, or nothing if it does not fit |
| Formats.PutDigits | src/print.c:60-64 | Writes the digit buffer backwards if it fits with a character to spare |
| Formats.NumberFormats | src/print.c:50-95 | `%d` and `%zu` give the texts that the string builder appends, and they read back as the same numbers |
| Formats.PlainRenders | src/print.c:28-31 | A format without a percent sign renders as itself |
| Formats.TextRenders | src/print.c:40-48 | `%s` renders as its text, a null pointer as `(null)` |
| Formats.IntRenders | src/print.c:70-95 | `%d` renders as the integer in decimal, with a minus sign if negative |
| Formats.SizeRenders | src/print.c:50-68 | `%zu` renders as the unsigned integer in decimal |
| Formats.PercentRenders | src/print.c:35-38 | A double percent sign renders as one |
| Formats.UnknownRenders | src/print.c:97-99 | Any other directive renders as nothing and reads no argument |
| Formats.JoinedRenders | src/print.c:26-100 | A complete format before another renders as their texts one after the other |
| Formats.UnfinishedDirective | src/print.c:50-51 | `%z` before `u` is why a complete format must not end in it |

## Left out

- Tuple assignment and `for` expressions: a run that meets a comma operator or `for` halts with that reason, because the code returns tuples through by-value parameters and drops the body of a loop.
- Reads past the token array, a colon without a type name and an exhausted pool: a run halts with the reason; what the process then does is not modelled.
- The text of error messages, trace output, and the token positions they print.
- The parser's arena as an object: it is a value that is zero above its used bytes, as a fresh mapping is (`Growth.GrowIsRealloc` connects it with the arena), and it is separate from the room for tokens and nodes.
- The record of a function's parameters: its 40 bytes are requested but left blank, and its pointer and count are kept beside it.
- Identity of names: an interned string is its text, and a type name is its text or none; a zeroed parameter is one without name and type.
- Widths of counters: positions, node counts, error counts, line numbers and statement counts are unbounded.
- Stage checks, the statement array and the second error report at the end of parsing.
- Floating-point literals: `string_to_double` is never reached from a lexed number (`LexTheorems.NumbersAreIntegers`).
- `parse_postfix`, `parse_primary` and `parse_struct_init`: unused or asserting stubs.
- The lexer's column: it is written and never read.
- The arena behind the token array: it is the number of slots it can still provide.
- memset, memcmp and memchr: plain loops.
- memcpy with a null pointer: it does nothing, so the model calls it only when both pointers are there.
- What happens after a write past a buffer: the two string builder methods that do so report it.
- What vsnprintf does after it has read past its format or its arguments: that is an outcome of its own.
- Arenas.Arena.AllocBytes: stated for power-of-two alignments and sizes that do not wrap around; `Arenas.AllocAt` computes the wrapped values too.
- Arenas.Arena.ReallocArray: stated for power-of-two alignments and sizes that do not wrap around, and for pointers to live blocks.
- Bytecode generation, the disassembler, platform code, console output, file reading and process start-up.

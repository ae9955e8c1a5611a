/** A derivation is spelled in place exactly where its yield stands. */
module Spelled {
  import opened Tokens
  import opened Syntax
  import opened Grammar

  lemma One(ts: seq<Tok>, i: nat, t: Tok)
    ensures TokensAt(ts, i, [t]) <==> TokenAt(ts, i, t)
  {
    if TokensAt(ts, i, [t]) { assert ts[i] == ts[i..i + 1][0]; }
  }

  lemma Two(ts: seq<Tok>, i: nat, a: seq<Tok>, b: seq<Tok>)
    ensures TokensAt(ts, i, a + b) <==> TokensAt(ts, i, a) && TokensAt(ts, i + |a|, b)
  {
    if TokensAt(ts, i, a + b) {
      assert ts[i..i + |a|] == ts[i..i + |a + b|][..|a|] == a;
      assert ts[i + |a|..i + |a| + |b|] == ts[i..i + |a + b|][|a|..] == b;
    }
    if TokensAt(ts, i, a) && TokensAt(ts, i + |a|, b) {
      assert ts[i..i + |a + b|] == ts[i..i + |a|] + ts[i + |a|..i + |a| + |b|];
    }
  }

  lemma Three(ts: seq<Tok>, i: nat, a: seq<Tok>, t: Tok, c: seq<Tok>)
    ensures TokensAt(ts, i, a + [t] + c)
       <==> TokensAt(ts, i, a) && TokenAt(ts, i + |a|, t) && TokensAt(ts, i + |a| + 1, c)
  {
    Two(ts, i, a + [t], c);
    Two(ts, i, a, [t]);
    One(ts, i + |a|, t);
  }

  /** A run of tokens between two single ones. */
  lemma Bracketed(ts: seq<Tok>, i: nat, open: Tok, a: seq<Tok>, close: Tok)
    ensures TokensAt(ts, i, [open] + a + [close])
       <==> TokenAt(ts, i, open) && TokensAt(ts, i + 1, a) && TokenAt(ts, i + 1 + |a|, close)
  {
    Two(ts, i, [open] + a, [close]);
    Two(ts, i, [open], a);
    One(ts, i, open);
    One(ts, i + 1 + |a|, close);
  }

  lemma Nothing(ts: seq<Tok>, i: nat)
    requires i <= |ts|
    ensures TokensAt(ts, i, [])
  {
  }

  lemma {:induction false} SpelledSyn(ts: seq<Tok>, i: nat, s: Syn)
    requires i + |Yield(s)| <= |ts|
    ensures Len(s) == |Yield(s)| && (Spells(ts, i, s) <==> TokensAt(ts, i, Yield(s)))
    decreases s, 1
  {
    hide TokensAt, TokenAt, Fixed;
    match s
    case Missing => Nothing(ts, i);
    case Leaf(tok) => One(ts, i, tok);
    case Unary(op, e) =>
      Two(ts, i, [Fixed(op)], Yield(e));
      One(ts, i, Fixed(op));
      SpelledSyn(ts, i + 1, e);
    case Group(e) =>
      Bracketed(ts, i, Fixed(TLParen), Yield(e), Fixed(TRParen));
      SpelledSyn(ts, i + 1, e);
    case Infix(l, op, r) =>
      Three(ts, i, Yield(l), Fixed(op), Yield(r));
      SpelledSyn(ts, i, l);
      SpelledSyn(ts, i + |Yield(l)| + 1, r);
    case Index(_, _) => SpelledIndex(ts, i, s);
    case Dot(l, member) =>
      Three(ts, i, Yield(l), Fixed(TDot), [Tok(TIdent, member.GetOr(""))]);
      One(ts, i + |Yield(l)| + 1, Tok(TIdent, member.GetOr("")));
      SpelledSyn(ts, i, l);
    case Ternary(_, _, _) => SpelledTernary(ts, i, s);
    case Call(_, _) => SpelledCall(ts, i, s);
    case Array(_, _, _) => SpelledArray(ts, i, s);
    case If(_, _, _, _) => SpelledIf(ts, i, s);
  }

  lemma {:induction false} SpelledIndex(ts: seq<Tok>, i: nat, s: Syn)
    requires s.Index? && i + |Yield(s)| <= |ts|
    ensures Len(s) == |Yield(s)| && (Spells(ts, i, s) <==> TokensAt(ts, i, Yield(s)))
    decreases s, 0
  {
    hide TokensAt, TokenAt, Fixed;
    var b, e := Yield(s.base), Yield(s.index);
    var rest := e + [Fixed(TRSqBracket)];
    assert Yield(s) == b + [Fixed(TLSqBracket)] + rest;
    Three(ts, i, b, Fixed(TLSqBracket), rest);
    Two(ts, i + |b| + 1, e, [Fixed(TRSqBracket)]);
    One(ts, i + |b| + 1 + |e|, Fixed(TRSqBracket));
    SpelledSyn(ts, i, s.base);
    SpelledSyn(ts, i + |b| + 1, s.index);
  }

  lemma {:induction false} SpelledTernary(ts: seq<Tok>, i: nat, s: Syn)
    requires s.Ternary? && i + |Yield(s)| <= |ts|
    ensures Len(s) == |Yield(s)| && (Spells(ts, i, s) <==> TokensAt(ts, i, Yield(s)))
    decreases s, 0
  {
    hide TokensAt, TokenAt, Fixed;
    var c, y, n := Yield(s.cond), Yield(s.yes), Yield(s.no);
    var rest := y + [Fixed(TColon)] + n;
    assert Yield(s) == c + [Fixed(TQuestion)] + rest;
    Three(ts, i, c, Fixed(TQuestion), rest);
    Three(ts, i + |c| + 1, y, Fixed(TColon), n);
    SpelledSyn(ts, i, s.cond);
    SpelledSyn(ts, i + |c| + 1, s.yes);
    SpelledSyn(ts, i + |c| + 1 + |y| + 1, s.no);
  }

  lemma {:induction false} SpelledCall(ts: seq<Tok>, i: nat, s: Syn)
    requires s.Call? && i + |Yield(s)| <= |ts|
    ensures Len(s) == |Yield(s)| && (Spells(ts, i, s) <==> TokensAt(ts, i, Yield(s)))
    decreases s, 0
  {
    hide TokensAt, TokenAt, Fixed;
    var f, args := Yield(s.callee), YieldList(s.args);
    var rest := args + [Fixed(TRParen)];
    assert Yield(s) == f + [Fixed(TLParen)] + rest;
    Three(ts, i, f, Fixed(TLParen), rest);
    Two(ts, i + |f| + 1, args, [Fixed(TRParen)]);
    One(ts, i + |f| + 1 + |args|, Fixed(TRParen));
    SpelledSyn(ts, i, s.callee);
    SpelledList(ts, i + |f| + 1, s.args);
  }

  lemma {:induction false} SpelledArray(ts: seq<Tok>, i: nat, s: Syn)
    requires s.Array? && i + |Yield(s)| <= |ts|
    ensures Len(s) == |Yield(s)| && (Spells(ts, i, s) <==> TokensAt(ts, i, Yield(s)))
    decreases s, 0
  {
    hide TokensAt, TokenAt, Fixed, Spells, SpellsList, Yield, YieldList, Len, LenList;
    var elems := YieldList(s.elems);
    var comma := if s.comma then [Fixed(TComma)] else [];
    var length := if s.length.Missing? then [] else [Fixed(TSemicolon)] + Yield(s.length);
    var at := i + 1 + |elems|;
    ArrayYield(s);
    MissingYield(s.length);
    Regroup(Fixed(TLSqBracket), elems, comma, length, Fixed(TRSqBracket));
    Two(ts, i, [Fixed(TLSqBracket)], elems + (comma + (length + [Fixed(TRSqBracket)])));
    One(ts, i, Fixed(TLSqBracket));
    Two(ts, i + 1, elems, comma + (length + [Fixed(TRSqBracket)]));
    SpelledList(ts, i + 1, s.elems);
    Two(ts, at, comma, length + [Fixed(TRSqBracket)]);
    Optional(ts, at, s.comma, Fixed(TComma));
    SpelledLength(ts, at + |comma|, s.length);
    ArraySpells(ts, i, s);
  }

  lemma {:induction false} MissingYield(s: Syn)
    ensures s.Missing? ==> Yield(s) == []
  {
  }

  lemma {:induction false} ArrayYield(s: Syn)
    requires s.Array?
    ensures var comma := if s.comma then [Fixed(TComma)] else [];
            var length := if s.length.Missing? then [] else [Fixed(TSemicolon)] + Yield(s.length);
            Yield(s) == [Fixed(TLSqBracket)] + YieldList(s.elems) + comma + length + [Fixed(TRSqBracket)]
    ensures Len(s) == 1 + LenList(s.elems) + (if s.comma then 1 else 0)
                      + (if s.length.Missing? then 0 else 1 + Len(s.length)) + 1
  {
    hide Fixed, YieldList, LenList;
  }

  lemma {:induction false} ArraySpells(ts: seq<Tok>, i: nat, s: Syn)
    requires s.Array?
    ensures var at := i + 1 + LenList(s.elems);
            var next := at + (if s.comma then 1 else 0);
            Spells(ts, i, s) <==>
              && TokenAt(ts, i, Fixed(TLSqBracket)) && SpellsList(ts, i + 1, s.elems)
              && (s.comma ==> TokenAt(ts, at, Fixed(TComma)))
              && (if s.length.Missing? then TokenAt(ts, next, Fixed(TRSqBracket))
                  else && TokenAt(ts, next, Fixed(TSemicolon)) && Spells(ts, next + 1, s.length)
                       && TokenAt(ts, next + 1 + Len(s.length), Fixed(TRSqBracket)))
  {
    hide TokenAt, Fixed, SpellsList, LenList, Len;
  }

  lemma Regroup(t: Tok, a: seq<Tok>, b: seq<Tok>, c: seq<Tok>, u: Tok)
    ensures [t] + a + b + c + [u] == [t] + (a + (b + (c + [u])))
  {
  }

  lemma Optional(ts: seq<Tok>, i: nat, present: bool, t: Tok)
    requires i <= |ts|
    ensures TokensAt(ts, i, if present then [t] else []) <==> (present ==> TokenAt(ts, i, t))
  {
    if present { One(ts, i, t); } else { Nothing(ts, i); }
  }

  lemma {:induction false} SpelledLength(ts: seq<Tok>, i: nat, length: Syn)
    requires i + |Yield(length)| + 1 <= |ts| && (!length.Missing? ==> i + |Yield(length)| + 2 <= |ts|)
    ensures Len(length) == |Yield(length)|
    ensures TokensAt(ts, i, (if length.Missing? then [] else [Fixed(TSemicolon)] + Yield(length)) + [Fixed(TRSqBracket)])
       <==> if length.Missing? then TokenAt(ts, i, Fixed(TRSqBracket))
            else && TokenAt(ts, i, Fixed(TSemicolon)) && Spells(ts, i + 1, length)
                 && TokenAt(ts, i + 1 + Len(length), Fixed(TRSqBracket))
    decreases length, 2
  {
    hide TokensAt, TokenAt, Fixed;
    SpelledSyn(ts, if length.Missing? then i else i + 1, length);
    if length.Missing? {
      assert [] + [Fixed(TRSqBracket)] == [Fixed(TRSqBracket)];
      One(ts, i, Fixed(TRSqBracket));
    } else {
      Bracketed(ts, i, Fixed(TSemicolon), Yield(length), Fixed(TRSqBracket));
    }
  }

  lemma {:induction false} SpelledIf(ts: seq<Tok>, i: nat, s: Syn)
    requires s.If? && i + |Yield(s)| <= |ts|
    ensures Len(s) == |Yield(s)| && (Spells(ts, i, s) <==> TokensAt(ts, i, Yield(s)))
    decreases s, 0
  {
    hide TokensAt, TokenAt, Fixed;
    var test, body, els := Yield(s.test), YieldItems(s.body), YieldElse(s.els);
    var head := [Fixed(TIf)] + test;
    var brace := i + 1 + |test| + |s.newlines|;
    Two(ts, i, head + s.newlines + YieldBlock(s.body), els);
    Two(ts, i, head + s.newlines, YieldBlock(s.body));
    Two(ts, i, head, s.newlines);
    Two(ts, i, [Fixed(TIf)], test);
    One(ts, i, Fixed(TIf));
    Bracketed(ts, brace, Fixed(TLBrace), body, Fixed(TRBrace));
    SpelledSyn(ts, i + 1, s.test);
    SpelledItems(ts, brace + 1, s.body);
    SpelledElse(ts, brace + 1 + |body| + 1, s.els);
  }

  lemma {:induction false} SpelledList(ts: seq<Tok>, i: nat, ss: Syns)
    requires i + |YieldList(ss)| <= |ts|
    ensures LenList(ss) == |YieldList(ss)| && (SpellsList(ts, i, ss) <==> TokensAt(ts, i, YieldList(ss)))
    decreases ss
  {
    hide TokensAt, TokenAt, Fixed;
    match ss
    case NoSyns => Nothing(ts, i);
    case Syns(head, tail) =>
      var at := i + |Yield(head)|;
      SpelledSyn(ts, i, head);
      if tail.NoSyns? {
        assert YieldList(ss) == Yield(head);
      } else {
        assert YieldList(ss) == Yield(head) + [Fixed(TComma)] + YieldList(tail);
        Three(ts, i, Yield(head), Fixed(TComma), YieldList(tail));
        SpelledList(ts, at + 1, tail);
      }
  }

  lemma {:induction false} SpelledElse(ts: seq<Tok>, i: nat, e: Else)
    requires i + |YieldElse(e)| <= |ts|
    ensures LenElse(e) == |YieldElse(e)| && (SpellsElse(ts, i, e) <==> TokensAt(ts, i, YieldElse(e)))
    decreases e
  {
    hide TokensAt, TokenAt, Fixed;
    match e
    case NoElse => Nothing(ts, i);
    case ElseIf(before, after, nested) =>
      Two(ts, i, before + [Fixed(TElse)] + after, Yield(nested));
      Three(ts, i, before, Fixed(TElse), after);
      SpelledSyn(ts, i + |before| + 1 + |after|, nested);
    case ElseBlock(before, after, items) =>
      var arm := i + |before| + 1 + |after|;
      Two(ts, i, before + [Fixed(TElse)] + after, YieldBlock(items));
      Three(ts, i, before, Fixed(TElse), after);
      Bracketed(ts, arm, Fixed(TLBrace), YieldItems(items), Fixed(TRBrace));
      SpelledItems(ts, arm + 1, items);
  }

  lemma {:induction false} SpelledStmt(ts: seq<Tok>, i: nat, s: Stmt)
    requires i + |YieldStmt(s)| <= |ts|
    ensures LenStmt(s) == |YieldStmt(s)| && (SpellsStmt(ts, i, s) <==> TokensAt(ts, i, YieldStmt(s)))
    decreases s
  {
    hide TokensAt, TokenAt, Fixed;
    match s
    case Expression(e) => SpelledSyn(ts, i, e);
    case Return(e) =>
      Two(ts, i, [Fixed(TReturn)], Yield(e));
      One(ts, i, Fixed(TReturn));
      SpelledSyn(ts, i + 1, e);
    case Decl(_, _, _) => SpelledDecl(ts, i, s);
    case Func(_, _, _, _) => SpelledFunc(ts, i, s);
  }

  lemma {:induction false} SpelledDecl(ts: seq<Tok>, i: nat, s: Stmt)
    requires s.Decl? && i + |YieldStmt(s)| <= |ts|
    ensures LenStmt(s) == |YieldStmt(s)| && (SpellsStmt(ts, i, s) <==> TokensAt(ts, i, YieldStmt(s)))
    decreases s, 0
  {
    hide TokensAt, TokenAt, Fixed;
    var keyword := Fixed(DeclKeyword(s.isConst));
    var rest := if s.init.Missing? then [] else [Fixed(TEquals)] + Yield(s.init);
    Two(ts, i, [keyword, s.declared], rest);
    assert [keyword, s.declared] == [keyword] + [s.declared];
    Two(ts, i, [keyword], [s.declared]);
    One(ts, i, keyword);
    One(ts, i + 1, s.declared);
    Nothing(ts, i + 2);
    if !s.init.Missing? {
      Two(ts, i + 2, [Fixed(TEquals)], Yield(s.init));
      One(ts, i + 2, Fixed(TEquals));
      SpelledSyn(ts, i + 3, s.init);
    }
  }

  lemma {:induction false} SpelledFunc(ts: seq<Tok>, i: nat, s: Stmt)
    requires s.Func? && i + |YieldStmt(s)| <= |ts|
    ensures LenStmt(s) == |YieldStmt(s)| && (SpellsStmt(ts, i, s) <==> TokensAt(ts, i, YieldStmt(s)))
    decreases s, 0
  {
    hide TokensAt, TokenAt, Fixed, SpellsSignature, LenSignature, YieldParams;
    var name := if s.named.Some? then [Tok(TIdent, s.named.value)] else [];
    var list := if s.params.NoParams? then [] else [Fixed(TLParen)] + YieldParams(s.params) + [Fixed(TRParen)];
    var brace := i + 1 + |name| + |list|;
    Two(ts, i, [s.keyword] + name + list, YieldBlock(s.block));
    Two(ts, i, [s.keyword] + name, list);
    Two(ts, i, [s.keyword], name);
    One(ts, i, s.keyword);
    SpelledSignature(ts, i + 1, s.named, s.params);
    Bracketed(ts, brace, Fixed(TLBrace), YieldItems(s.block), Fixed(TRBrace));
    SpelledItems(ts, brace + 1, s.block);
  }

  lemma {:induction false} SpelledSignature(ts: seq<Tok>, i: nat, named: Option<string>, params: Params)
    requires i + (if named.Some? then 1 else 0) + (if params.NoParams? then 0 else |YieldParams(params)| + 2) <= |ts|
    ensures var name := if named.Some? then [Tok(TIdent, named.value)] else [];
            var list := if params.NoParams? then [] else [Fixed(TLParen)] + YieldParams(params) + [Fixed(TRParen)];
            && LenSignature(named, params) == 1 + |name| + |list|
            && (SpellsSignature(ts, i, named, params) <==> TokensAt(ts, i, name) && TokensAt(ts, i + |name|, list))
  {
    hide TokensAt, TokenAt, Fixed, SpellsParams, LenParams, YieldParams;
    LenYieldParams(params);
    SpelledParamList(ts, i + (if named.Some? then 1 else 0), params);
    if named.Some? { One(ts, i, Tok(TIdent, named.value)); } else { Nothing(ts, i); }
  }

  lemma {:induction false} SpelledParamList(ts: seq<Tok>, i: nat, params: Params)
    requires i + (if params.NoParams? then 0 else |YieldParams(params)| + 2) <= |ts|
    ensures TokensAt(ts, i, if params.NoParams? then [] else [Fixed(TLParen)] + YieldParams(params) + [Fixed(TRParen)])
       <==> (params.Params? ==>
              && TokenAt(ts, i, Fixed(TLParen)) && SpellsParams(ts, i + 1, params)
              && TokenAt(ts, i + 1 + LenParams(params), Fixed(TRParen)))
  {
    hide TokensAt, TokenAt, Fixed, SpellsParams, LenParams, YieldParams;
    LenYieldParams(params);
    Nothing(ts, i);
    if params.Params? {
      Bracketed(ts, i, Fixed(TLParen), YieldParams(params), Fixed(TRParen));
      SpelledParams(ts, i + 1, params);
    }
  }

  lemma {:induction false} LenYieldParams(ps: Params)
    ensures LenParams(ps) == |YieldParams(ps)|
  {
    if ps.Params? { LenYieldParams(ps.more); }
  }

  lemma {:induction false} SpelledParams(ts: seq<Tok>, i: nat, ps: Params)
    requires i + |YieldParams(ps)| <= |ts|
    ensures SpellsParams(ts, i, ps) <==> TokensAt(ts, i, YieldParams(ps))
    decreases ps
  {
    hide TokensAt, TokenAt, Fixed;
    match ps
    case NoParams => Nothing(ts, i);
    case Params(name, typ, more) =>
      var typed := if typ.Some? then [Fixed(TColon), Tok(TIdent, typ.value)] else [];
      var rest := if more.NoParams? then [] else [Fixed(TComma)] + YieldParams(more);
      var at := i + 1 + |typed|;
      Two(ts, i, [name] + typed, rest);
      Two(ts, i, [name], typed);
      One(ts, i, name);
      Nothing(ts, i + 1);
      Nothing(ts, at);
      if typ.Some? {
        assert typed == [Fixed(TColon)] + [Tok(TIdent, typ.value)];
        Two(ts, i + 1, [Fixed(TColon)], [Tok(TIdent, typ.value)]);
        One(ts, i + 1, Fixed(TColon));
        One(ts, i + 2, Tok(TIdent, typ.value));
      }
      if more.Params? {
        Two(ts, at, [Fixed(TComma)], YieldParams(more));
        One(ts, at, Fixed(TComma));
        SpelledParams(ts, at + 1, more);
      }
  }

  lemma {:induction false} SpelledItems(ts: seq<Tok>, i: nat, items: Items)
    requires i + |YieldItems(items)| <= |ts|
    ensures LenItems(items) == |YieldItems(items)| && (SpellsItems(ts, i, items) <==> TokensAt(ts, i, YieldItems(items)))
    decreases items
  {
    hide TokensAt, TokenAt, Fixed;
    match items
    case NoItems => Nothing(ts, i);
    case Sep(mark, rest) =>
      Two(ts, i, [mark], YieldItems(rest));
      One(ts, i, mark);
      SpelledItems(ts, i + 1, rest);
    case Item(stmt, rest) =>
      Two(ts, i, YieldStmt(stmt), YieldItems(rest));
      SpelledStmt(ts, i, stmt);
      SpelledItems(ts, i + |YieldStmt(stmt)|, rest);
  }
}

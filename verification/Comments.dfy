/** The grammar of nested block comments, and what the depth-counting scan has to do with it. */
module Comments {
  import opened LexSpec

  /** What stands between the marks of a block comment: characters and whole comments. */
  datatype Parts = Nothing | Plain(c: char, rest: Parts) | Inner(body: Parts, rest: Parts)

  ghost function Text(p: Parts): string {
    match p
    case Nothing => ""
    case Plain(c, rest) => [c] + Text(rest)
    case Inner(body, rest) => "/*" + Text(body) + "*/" + Text(rest)
  }

  /** The first character of the text, the closing mark included. */
  ghost function First(p: Parts): char {
    match p
    case Nothing => '*'
    case Plain(c, _) => c
    case Inner(_, _) => '/'
  }

  /** Marks are read greedily from left to right, so no plain character starts one. */
  ghost predicate Clear(p: Parts) {
    match p
    case Nothing => true
    case Plain(c, rest) => Clear(rest) && !(c == '/' && First(rest) == '*') && !(c == '*' && First(rest) == '/')
    case Inner(body, rest) => Clear(body) && Clear(rest)
  }

  ghost predicate TextAt(s: string, i: nat, t: string) {
    i + |t| <= |s| && s[i..i + |t|] == t
  }

  /** The parts `p` and the mark that closes them stand at `i`. */
  ghost predicate PartsAt(s: string, i: nat, p: Parts) {
    TextAt(s, i, Text(p)) && MarkAt(s, i + |Text(p)|, '*', '/')
  }

  /** Reading the grammar by recursive descent: the parts, where they end, and whether a mark closes them. */
  datatype Body = Body(parts: Parts, end: nat, closed: bool)

  ghost function ReadBody(s: string, i: nat): (b: Body)
    requires i <= |s|
    ensures i <= b.end <= |s| && (if b.closed then MarkAt(s, b.end, '*', '/') else b.end == |s|)
    decreases |s| - i
  {
    if i == |s| then Body(Nothing, i, false)
    else if MarkAt(s, i, '*', '/') then Body(Nothing, i, true)
    else if MarkAt(s, i, '/', '*') then
      var inner := ReadBody(s, i + 2);
      if !inner.closed then Body(Inner(inner.parts, Nothing), inner.end, false)
      else
        var after := ReadBody(s, inner.end + 2);
        Body(Inner(inner.parts, after.parts), after.end, after.closed)
    else
      var after := ReadBody(s, i + 1);
      Body(Plain(s[i], after.parts), after.end, after.closed)
  }

  lemma TextSplit(s: string, i: nat, a: string, b: string)
    ensures TextAt(s, i, a + b) <==> TextAt(s, i, a) && TextAt(s, i + |a|, b)
  {
    if TextAt(s, i, a + b) {
      var t := s[i..i + |a + b|];
      assert t[..|a|] == a && t[|a|..] == b;
      assert s[i..i + |a|] == t[..|a|] && s[i + |a|..i + |a| + |b|] == t[|a|..];
    }
  }

  lemma MarkText(s: string, i: nat, a: char, b: char)
    ensures MarkAt(s, i, a, b) <==> TextAt(s, i, [a, b])
  {
    if i + 2 <= |s| { assert s[i..i + 2] == [s[i], s[i + 1]]; }
  }

  lemma {:induction false} InnerText(s: string, i: nat, body: Parts, rest: Parts)
    ensures TextAt(s, i, Text(Inner(body, rest))) <==>
            && MarkAt(s, i, '/', '*') && PartsAt(s, i + 2, body) && TextAt(s, i + 2 + |Text(body)| + 2, Text(rest))
  {
    hide TextAt;
    var b, r := Text(body), Text(rest);
    MarkText(s, i, '/', '*');
    MarkText(s, i + 2 + |b|, '*', '/');
    TextSplit(s, i, "/*" + b + "*/", r);
    TextSplit(s, i, "/*" + b, "*/");
    TextSplit(s, i, "/*", b);
  }

  lemma {:induction false} PlainText(s: string, i: nat, c: char, rest: Parts)
    ensures TextAt(s, i, Text(Plain(c, rest))) <==> i < |s| && s[i] == c && TextAt(s, i + 1, Text(rest))
  {
    hide Text;
    assert Text(Plain(c, rest)) == [c] + Text(rest) by { TextOfPlain(c, rest); }
    TextSplit(s, i, [c], Text(rest));
    if i < |s| { assert s[i..i + 1] == [s[i]]; }
  }

  lemma {:induction false} TextOfPlain(c: char, rest: Parts)
    ensures Text(Plain(c, rest)) == [c] + Text(rest)
  {
  }

  lemma FirstChar(s: string, i: nat, p: Parts)
    requires PartsAt(s, i, p)
    ensures i < |s| && s[i] == First(p)
  {
    match p
    case Nothing =>
    case Plain(c, rest) => PlainText(s, i, c, rest);
    case Inner(body, rest) => InnerText(s, i, body, rest);
  }

  /** A clear derivation that stands at `i` is the one that is read there. */
  lemma {:induction false} ReadParts(s: string, i: nat, p: Parts)
    requires Clear(p) && PartsAt(s, i, p)
    ensures ReadBody(s, i) == Body(p, i + |Text(p)|, true)
    decreases p
  {
    hide TextAt, ReadBody;
    match p
    case Nothing => BodyEnds(s, i);
    case Plain(c, rest) =>
      PlainText(s, i, c, rest);
      TextOfPlain(c, rest);
      FirstChar(s, i, p);
      FirstChar(s, i + 1, rest);
      ReadParts(s, i + 1, rest);
      PlainStep(s, i);
    case Inner(body, rest) =>
      InnerText(s, i, body, rest);
      ReadParts(s, i + 2, body);
      ReadParts(s, i + 2 + |Text(body)| + 2, rest);
      InnerStep(s, i);
  }

  lemma {:induction false} BodyEnds(s: string, i: nat)
    requires MarkAt(s, i, '*', '/')
    ensures ReadBody(s, i) == Body(Nothing, i, true)
  {
  }

  lemma PlainStep(s: string, i: nat)
    requires i < |s| && !MarkAt(s, i, '*', '/') && !MarkAt(s, i, '/', '*')
    ensures var after := ReadBody(s, i + 1);
            ReadBody(s, i) == Body(Plain(s[i], after.parts), after.end, after.closed)
  {
  }

  lemma InnerStep(s: string, i: nat)
    requires MarkAt(s, i, '/', '*') && ReadBody(s, i + 2).closed
    ensures var inner := ReadBody(s, i + 2);
            var after := ReadBody(s, inner.end + 2);
            ReadBody(s, i) == Body(Inner(inner.parts, after.parts), after.end, after.closed)
  {
  }

  /** What is read and closed is a clear derivation that stands there. */
  lemma {:induction false} BodyIsClear(s: string, i: nat)
    requires i <= |s| && ReadBody(s, i).closed
    ensures var b := ReadBody(s, i);
            Clear(b.parts) && PartsAt(s, i, b.parts) && b.end == i + |Text(b.parts)|
    decreases |s| - i
  {
    hide TextAt, ReadBody;
    if MarkAt(s, i, '*', '/') {
      BodyEnds(s, i);
      TextSplit(s, i, "", "");
      EmptyText(s, i);
    } else if MarkAt(s, i, '/', '*') {
      OpenStep(s, i);
      var inner := ReadBody(s, i + 2);
      BodyIsClear(s, i + 2);
      BodyIsClear(s, inner.end + 2);
      InnerStep(s, i);
      InnerText(s, i, inner.parts, ReadBody(s, inner.end + 2).parts);
    } else {
      ClosedInside(s, i);
      PlainStep(s, i);
      BodyIsClear(s, i + 1);
      FirstChar(s, i + 1, ReadBody(s, i + 1).parts);
      PlainText(s, i, s[i], ReadBody(s, i + 1).parts);
      TextOfPlain(s[i], ReadBody(s, i + 1).parts);
    }
  }

  lemma EmptyText(s: string, i: nat)
    requires i <= |s|
    ensures TextAt(s, i, "")
  {
  }

  lemma OpenStep(s: string, i: nat)
    requires MarkAt(s, i, '/', '*') && ReadBody(s, i).closed
    ensures ReadBody(s, i + 2).closed && ReadBody(s, ReadBody(s, i + 2).end + 2).closed
  {
  }

  lemma {:induction false} ClosedInside(s: string, i: nat)
    requires i <= |s| && ReadBody(s, i).closed
    ensures i < |s|
  {
  }

  /** Counting depth reads the same body, at whatever depth it stands. */
  lemma {:induction false} ScanReadsBody(s: string, i: nat, depth: nat)
    requires i <= |s| && depth > 0
    ensures var b := ReadBody(s, i);
            if b.closed then ScanComment(s, i, depth) == ScanComment(s, b.end + 2, depth - 1)
            else ScanComment(s, i, depth).end == |s| && ScanComment(s, i, depth).depth > 0
    decreases |s| - i
  {
    if i < |s| {
      if MarkAt(s, i, '*', '/') {
      } else if MarkAt(s, i, '/', '*') {
        ScanReadsBody(s, i + 2, depth + 1);
        if ReadBody(s, i + 2).closed { ScanReadsBody(s, ReadBody(s, i + 2).end + 2, depth); }
      } else {
        ScanReadsBody(s, i + 1, depth);
      }
    }
  }

  /** A clear derivation and its closing mark stand between `i` and `end`. */
  ghost predicate Balances(s: string, i: nat, end: nat, p: Parts) {
    Clear(p) && PartsAt(s, i, p) && end == i + |Text(p)| + 2
  }

  /** The comment opened just before `i` ends where a derivation says, or else at the end of the input. */
  lemma {:induction false} NestedComment(s: string, i: nat, end: nat)
    requires i <= |s|
    ensures ScanComment(s, i, 1) == CommentScan(end, 0) <==> exists p :: Balances(s, i, end, p)
    ensures (forall p, e :: !Balances(s, i, e, p)) ==> ScanComment(s, i, 1).end == |s|
  {
    hide ReadBody, Clear, PartsAt, Text;
    var b, r := ReadBody(s, i), ScanComment(s, i, 1);
    ScanReadsBody(s, i, 1);
    if b.closed {
      BodyIsClear(s, i);
      assert Balances(s, i, b.end + 2, b.parts);
      assert r == CommentScan(b.end + 2, 0);
    }
    if p :| Balances(s, i, end, p) {
      ReadParts(s, i, p);
    }
  }

  /** One text, one derivation. */
  lemma {:induction false} CommentUnambiguous(s: string, i: nat, p1: Parts, p2: Parts)
    requires Clear(p1) && PartsAt(s, i, p1) && Clear(p2) && PartsAt(s, i, p2)
    ensures p1 == p2
  {
    ReadParts(s, i, p1);
    ReadParts(s, i, p2);
  }
}

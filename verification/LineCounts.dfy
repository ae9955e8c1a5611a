/** Counting line breaks over parts of a text. */
module LineCounts {
  import opened Tokens
  import opened LexSpec

  lemma {:induction false} BreaksAppend(a: string, b: string)
    ensures LineBreaks(a + b) == LineBreaks(a) + LineBreaks(b)
    decreases |a|
  {
    if a == "" {
      assert a + b == b;
    } else {
      assert (a + b)[1..] == a[1..] + b;
      BreaksAppend(a[1..], b);
    }
  }

  lemma BreaksJoin(s: string, i: nat, j: nat, k: nat)
    requires i <= j <= k <= |s|
    ensures LineBreaks(s[i..k]) == LineBreaks(s[i..j]) + LineBreaks(s[j..k])
  {
    assert s[i..k] == s[i..j] + s[j..k];
    BreaksAppend(s[i..j], s[j..k]);
  }

  lemma OneChar(c: char)
    ensures LineBreaks([c]) == if c == '\n' then 1 else 0
  {
    assert [c][1..] == "";
  }

  lemma BreaksStep(s: string, i: nat, j: nat)
    requires i <= j < |s|
    ensures LineBreaks(s[i..j + 1]) == LineBreaks(s[i..j]) + (if s[j] == '\n' then 1 else 0)
  {
    assert s[i..j + 1] == s[i..j] + [s[j]];
    BreaksAppend(s[i..j], [s[j]]);
    OneChar(s[j]);
  }

  lemma {:induction false} NoBreaks(s: string, i: nat, j: nat)
    requires i <= j <= |s| && forall k :: i <= k < j ==> s[k] != '\n'
    ensures LineBreaks(s[i..j]) == 0
    decreases j - i
  {
    if i < j {
      NoBreaks(s, i, j - 1);
      BreaksStep(s, i, j - 1);
    }
  }

  lemma NothingCounted(s: string, i: nat)
    requires i <= |s|
    ensures LineBreaks(s[i..i]) == 0
  {
  }

  /** A span of characters other than line breaks adds none. */
  lemma SpanCounted(s: string, start: nat, i: nat, j: nat, k: CharClass)
    requires start <= i <= j <= |s| && (forall x :: i <= x < j ==> InClass(s[x], k)) && k != InString
    ensures LineBreaks(s[start..j]) == LineBreaks(s[start..i])
  {
    BreaksJoin(s, start, i, j);
    NoBreaks(s, i, j);
  }

  lemma CommentCounted(s: string, start: nat, i: nat, j: nat)
    requires start <= i <= |s| && MarkAt(s, i, '/', '/') && i + 2 <= j <= |s|
    requires forall x :: i + 2 <= x < j ==> InClass(s[x], InLine)
    ensures LineBreaks(s[start..j]) == LineBreaks(s[start..i])
  {
    BreaksJoin(s, start, i, j);
    NoBreaks(s, i, j);
  }

  /** One round of the loop over blanks and comments. */
  lemma GapStep(s: string, i: nat, newline: bool)
    requires i <= |s|
    ensures var j := SpanEnd(s, i, Blank);
            && (MarkAt(s, j, '/', '/') ==> SkipGap(s, i, newline) == SkipGap(s, SpanEnd(s, j + 2, InLine), newline))
            && (MarkAt(s, j, '/', '*') ==>
                  var end := ScanComment(s, j + 2, 1).end;
                  SkipGap(s, i, newline) == SkipGap(s, end, LineBreaks(s[j..end]) > 0))
            && (!MarkAt(s, j, '/', '/') && !MarkAt(s, j, '/', '*') ==> SkipGap(s, i, newline) == Gap(j, newline))
  {
    hide SpanEnd, ScanComment, LineBreaks;
  }

  lemma OneBreak(s: string, i: nat)
    requires i <= |s|
    ensures i < |s| && s[i] == '\n' ==> LineBreaks(s[i..i + 1]) == 1
    ensures LineBreaks(s[i..i]) == 0
  {
    if i < |s| { assert s[i..i + 1] == [s[i]]; }
  }

  lemma ScanNewline(s: string, i: nat, atLineStart: bool)
    requires i < |s| && s[i] == '\n'
    ensures Scan(s, i, atLineStart) == Lexeme(TNewline, i + 1)
  {
  }

  lemma OnlyNewlines(s: string, i: nat, atLineStart: bool)
    requires i < |s| && s[i] != '\n'
    ensures Scan(s, i, atLineStart).kind != TNewline
  {
  }

  lemma {:induction false} EmitStep(s: string, pos: nat, atLineStart: bool, line: nat)
    requires pos <= |s|
    ensures var l := Next(s, pos, atLineStart);
            EmitFrom(s, pos, atLineStart, line) ==
            if l.kind == TEnd then []
            else [Emit(s, pos, l, line)] + EmitFrom(s, l.end, l.atLineStart, LineAfter(s, pos, l, line))
  {
    hide Next, Emit, LineAfter;
  }

  /** What is counted: the positions that hold a line break. */
  lemma {:induction false} LineBreaksCount(s: string)
    ensures LineBreaks(s) == |set i: nat | i < |s| && s[i] == '\n'|
  {
    var all := set i: nat | i < |s| && s[i] == '\n';
    if s != "" {
      LineBreaksCount(s[1..]);
      var rest := set i: nat | i < |s[1..]| && s[1..][i] == '\n';
      var moved := set i: nat | i in rest :: i + 1;
      SameSize(rest);
      assert all - {0} == moved by {
        forall i: nat | i in all - {0} ensures i in moved { assert i - 1 in rest; }
      }
      assert s[0] == '\n' ==> all == {0} + moved;
      assert s[0] != '\n' ==> all == moved;
    } else {
      assert all == {};
    }
  }

  lemma {:induction false} SameSize(a: set<nat>)
    ensures |set i: nat | i in a :: i + 1| == |a|
  {
    var moved := set i: nat | i in a :: i + 1;
    if a != {} {
      var x :| x in a;
      SameSize(a - {x});
      var less := set i: nat | i in a - {x} :: i + 1;
      forall i | i in a ensures i + 1 in less + {x + 1} { assert i == x || i in a - {x}; }
      assert moved == less + {x + 1};
    } else {
      assert moved == {};
    }
  }
}

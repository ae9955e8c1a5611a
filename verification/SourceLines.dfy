/** Line numbers: what tokens record, and finding a line again in the source. */
module SourceLines {
  import opened Tokens
  import opened Numbers
  import opened LexSpec
  import opened LineCounts
  import opened TokenArrays

  /** Line breaks inside the string tokens of a run, which the lexer does not count. */
  ghost function StringBreaks(s: string, ts: seq<Token>): nat {
    if ts == [] then 0
    else
      var t := ts[0];
      (if t.kind == TString && t.start + t.length <= |s| then LineBreaks(s[t.start..t.start + t.length]) else 0)
      + StringBreaks(s, ts[1..])
  }

  /** A lexeme holds a line break only if it is a newline or a string. */
  lemma LexemeBreaks(s: string, pos: nat, atLineStart: bool)
    requires pos <= |s|
    ensures var l := Next(s, pos, atLineStart);
            l.kind != TNewline && l.kind != TString ==> LineBreaks(s[l.start..l.end]) == 0
  {
    hide SkipGap, LineBreaks;
    var g := SkipGap(s, pos, false);
    if !g.newline && g.end < |s| {
      var l := Scan(s, g.end, atLineStart);
      if l.kind != TNewline && l.kind != TString {
        NoBreakInside(s, g.end, atLineStart);
        NoBreaks(s, g.end, l.end);
      }
    } else {
      NothingCounted(s, g.end);
    }
  }

  lemma {:induction false} NoBreakInside(s: string, i: nat, atLineStart: bool)
    requires i < |s|
    ensures var l := Scan(s, i, atLineStart);
            l.kind != TNewline && l.kind != TString ==> forall k :: i <= k < l.end ==> s[k] != '\n'
  {
    hide SpanEnd, ScanMark, ScanNumber;
    if s[i] != '\n' { MarkIsOnOneLine(s, i); }
    if IsDigit(s[i]) { NumberIsOnOneLine(s, i); }
  }

  lemma {:induction false} MarkIsOnOneLine(s: string, i: nat)
    requires i < |s| && s[i] != '\n'
    ensures forall k :: i <= k < ScanMark(s, i).end ==> s[k] != '\n'
  {
  }

  lemma {:induction false} NumberIsOnOneLine(s: string, i: nat)
    requires i < |s| && IsDigit(s[i])
    ensures forall k :: i <= k < ScanNumber(s, i).end ==> s[k] != '\n'
  {
    hide SpanEnd;
  }

  /** The line count after a token makes up for the breaks in the text read, strings apart. */
  lemma CountedBreaks(s: string, pos: nat, atLineStart: bool, line: nat)
    requires pos <= |s|
    ensures var l := Next(s, pos, atLineStart);
            LineAfter(s, pos, l, line) + (if l.kind == TString then LineBreaks(s[l.start..l.end]) else 0)
              == line + LineBreaks(s[pos..l.end])
  {
    hide LineBreaks, Next;
    var l := Next(s, pos, atLineStart);
    LexemeBreaks(s, pos, atLineStart);
    BreaksJoin(s, pos, l.start, l.end);
  }

  lemma {:induction false} StringBreaksCons(s: string, pos: nat, l: Lexed, line: nat, ts: seq<Token>)
    requires pos <= l.start <= l.end <= |s|
    ensures StringBreaks(s, [Emit(s, pos, l, line)] + ts)
         == (if l.kind == TString then LineBreaks(s[l.start..l.end]) else 0) + StringBreaks(s, ts)
  {
    hide LineBreaks;
    var t := Emit(s, pos, l, line);
    assert ([t] + ts)[1..] == ts;
  }

  /** A recorded line number and the strings before the token account for every line break before it. */
  lemma {:induction false} TokenLine(s: string, pos: nat, atLineStart: bool, line: nat, k: nat)
    requires pos <= |s| && k < |EmitFrom(s, pos, atLineStart, line)|
    ensures var ts := EmitFrom(s, pos, atLineStart, line);
            && pos <= ts[k].start && ts[k].start + ts[k].length <= |s|
            && ts[k].line + StringBreaks(s, ts[..k]) == line + LineBreaks(s[pos..ts[k].start])
    decreases k
  {
    hide LineBreaks, Next, StringBreaks, EmitFrom, LineAfter;
    var l := Next(s, pos, atLineStart);
    var next := LineAfter(s, pos, l, line);
    var ts, rest := EmitFrom(s, pos, atLineStart, line), EmitFrom(s, l.end, l.atLineStart, next);
    EmitStep(s, pos, atLineStart, line);
    if k == 0 {
      assert ts[..0] == [];
      NoStrings(s);
    } else {
      TokenLine(s, l.end, l.atLineStart, next, k - 1);
      CountedBreaks(s, pos, atLineStart, line);
      BreaksJoin(s, pos, l.end, ts[k].start);
      StringBreaksCons(s, pos, l, line, rest[..k - 1]);
      assert ts[..k] == [ts[0]] + rest[..k - 1];
    }
  }

  lemma {:induction false} NoStrings(s: string)
    ensures StringBreaks(s, []) == 0
  {
  }

  // ----- Finding a line -----

  /** Line `n` of the source runs from `start` to `end`. */
  ghost predicate IsLine(s: string, n: nat, start: nat, end: nat) {
    && start <= end <= |s|
    && (start == 0 || s[start - 1] == '\n') && (end == |s| || s[end] == '\n')
    && LineBreaks(s[..start]) + 1 == n && LineBreaks(s[start..end]) == 0
  }

  /** The line after a final line break, which is empty. */
  ghost predicate IsEmptyLastLine(s: string, n: nat) {
    s != "" && s[|s| - 1] == '\n' && n == LineBreaks(s) + 1
  }

  lemma InsideLine(s: string, n: nat, start: nat, end: nat, i: nat)
    requires IsLine(s, n, start, end) && i <= |s| && LineBreaks(s[..i]) + 1 == n
    ensures start <= i <= end
  {
    hide LineBreaks;
    if i < start {
      BreaksJoin(s, 0, i, start - 1);
      BreaksStep(s, 0, start - 1);
    } else if end < i {
      BreaksJoin(s, 0, start, end);
      BreaksStep(s, 0, end);
      BreaksJoin(s, 0, end + 1, i);
    }
  }

  lemma LinesAreUnique(s: string, n: nat, start1: nat, end1: nat, start2: nat, end2: nat)
    requires IsLine(s, n, start1, end1) && IsLine(s, n, start2, end2)
    ensures start1 == start2 && end1 == end2
  {
    hide LineBreaks;
    BreaksJoin(s, 0, start1, end1);
    BreaksJoin(s, 0, start2, end2);
    InsideLine(s, n, start1, end1, start2);
    InsideLine(s, n, start1, end1, end2);
    InsideLine(s, n, start2, end2, start1);
    InsideLine(s, n, start2, end2, end1);
  }

  /**
   Finds line `lineno`, if the source has one. For the empty line after a final line break it
   finds the first line instead.
   */
  method SourceLine(source: string, lineno: nat) returns (found: bool, start: nat, end: nat)
    ensures found <==> 1 <= lineno <= LineBreaks(source) + 1
    ensures found && !IsEmptyLastLine(source, lineno) ==> IsLine(source, lineno, start, end)
    ensures found && IsEmptyLastLine(source, lineno) ==> IsLine(source, 1, start, end) && lineno > 1
  {
    hide LineBreaks;
    var curLine := 1;
    start := 0;
    var i := 0;
    NothingCounted(source, 0);
    assert source[..|source|] == source;
    while i < |source|
      invariant 0 <= i <= |source| && curLine == LineBreaks(source[..i]) + 1
      invariant lineno >= 1 ==> curLine <= lineno
      invariant curLine == lineno ==> i == 0 || source[i - 1] == '\n'
    {
      if curLine == lineno {
        start := i;
        break;
      }
      BreaksStep(source, 0, i);
      if source[i] == '\n' { curLine := curLine + 1; }
      i := i + 1;
    }
    BreaksJoin(source, 0, i, |source|);
    if source != "" {
      BreaksStep(source, 0, |source| - 1);
      if i < |source| { BreaksJoin(source, 0, i, |source| - 1); }
    }
    if curLine != lineno { return false, 0, 0; }

    end := start;
    NothingCounted(source, start);
    while end < |source| && source[end] != '\n'
      invariant start <= end <= |source| && LineBreaks(source[start..end]) == 0
    {
      BreaksStep(source, start, end);
      end := end + 1;
    }
    found := true;
  }

  /** A shebang line that is skipped holds no line break. */
  lemma {:induction false} NoBreakInShebang(s: string)
    requires SkipShebang(s).Some?
    ensures LineBreaks(s[..SkipShebang(s).value]) == 0
  {
    hide LineBreaks;
    var start := SkipShebang(s).value;
    NoBreaks(s, 0, start);
    assert s[0..start] == s[..start];
  }

  /**
   A token of a file that covers text, with no line break in an earlier string, starts on the line
   it records.
   */
  lemma {:induction false} TokenIsOnItsLine(s: string, k: nat, start: nat, end: nat)
    requires SkipShebang(s).Some?
    requires var ts := EmitFrom(s, SkipShebang(s).value, true, 1);
             k < |ts| && ts[k].length > 0 && StringBreaks(s, ts[..k]) == 0
    ensures var t := EmitFrom(s, SkipShebang(s).value, true, 1)[k];
            && 1 <= t.line <= LineBreaks(s) + 1 && !IsEmptyLastLine(s, t.line)
            && (IsLine(s, t.line, start, end) ==> start <= t.start <= end)
  {
    hide LineBreaks, EmitFrom, SkipShebang;
    var from := SkipShebang(s).value;
    var t := EmitFrom(s, from, true, 1)[k];
    NoBreakInShebang(s);
    TokenLine(s, from, true, 1, k);
    BreaksJoin(s, 0, from, t.start);
    assert s[..|s|] == s;
    BreaksJoin(s, 0, t.start, |s|);
    BreaksJoin(s, 0, t.start, |s| - 1);
    BreaksStep(s, 0, |s| - 1);
    if IsLine(s, t.line, start, end) { InsideLine(s, t.line, start, end, t.start); }
  }
}

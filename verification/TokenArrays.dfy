/** Tokenising a whole file into an array that doubles whenever it is full. */
module TokenArrays {
  import opened Tokens
  import opened LexSpec
  import opened LineCounts
  import opened LexMachine

  const FIRST_CAPACITY: nat := 512
  const END_TOKEN := Token(TEnd, 0, 0, 0)

  /** The capacity that `count` tokens lead to, and how many slots are allocated for them in all. */
  ghost function LastCapacity(cap: nat, count: nat): (last: nat)
    requires cap > 0
    ensures count <= last && cap <= last
    decreases count - cap
  {
    if count <= cap then cap else LastCapacity(2 * cap, count)
  }

  ghost function SlotsFor(cap: nat, count: nat): (slots: nat)
    requires cap > 0
    ensures slots >= cap
    decreases count - cap
  {
    if count <= cap then cap else cap + SlotsFor(2 * cap, count)
  }

  /** The array is full at exactly the counts reached by doubling. */
  lemma {:induction false} FullAtPowers(cap: nat, count: nat)
    requires cap > 0
    ensures count == LastCapacity(cap, count) <==> exists k: nat :: count == Scaled(cap, k)
    decreases count - cap
  {
    ScaledOnce(cap);
    if count < cap {
      forall k: nat ensures count != Scaled(cap, k) { ScaledGrows(cap, k); }
    } else if count > cap {
      FullAtPowers(2 * cap, count);
      if count == LastCapacity(cap, count) {
        var k: nat :| count == Scaled(2 * cap, k);
        ScaledTwice(cap, k);
      }
      forall k: nat | count == Scaled(cap, k) ensures count == LastCapacity(cap, count) {
        ScaledTwice(cap, k - 1);
        assert count == Scaled(2 * cap, k - 1);
      }
    }
  }

  /** `cap`, doubled `k` times. */
  ghost function Scaled(cap: nat, k: nat): nat {
    if k == 0 then cap else 2 * Scaled(cap, k - 1)
  }

  lemma {:induction false} ScaledOnce(cap: nat)
    ensures Scaled(cap, 0) == cap
  {
  }

  lemma {:induction false} ScaledTwice(cap: nat, k: nat)
    ensures Scaled(2 * cap, k) == Scaled(cap, k + 1)
  {
    if k > 0 { ScaledTwice(cap, k - 1); }
  }

  lemma {:induction false} ScaledGrows(cap: nat, k: nat)
    ensures cap <= Scaled(cap, k)
  {
    if k > 0 { ScaledGrows(cap, k - 1); }
  }

  /** All the arrays together take twice the last one, less the first. */
  lemma {:induction false} SlotsAreTwice(cap: nat, count: nat)
    requires cap > 0
    ensures SlotsFor(cap, count) == 2 * LastCapacity(cap, count) - cap
    decreases count - cap
  {
    if count > cap { SlotsAreTwice(2 * cap, count); }
  }

  /** One more token: nothing is allocated, or an array of twice the capacity is. */
  lemma {:induction false} GrowStep(cap: nat, count: nat)
    requires cap > 0
    ensures var last := LastCapacity(cap, count);
            if count < last then LastCapacity(cap, count + 1) == last && SlotsFor(cap, count + 1) == SlotsFor(cap, count)
            else LastCapacity(cap, count + 1) == 2 * last && SlotsFor(cap, count + 1) == SlotsFor(cap, count) + 2 * last
    decreases count - cap
  {
    if count > cap { GrowStep(2 * cap, count); }
  }

  lemma {:induction false} SlotsGrow(cap: nat, count: nat, more: nat)
    requires cap > 0 && count <= more
    ensures SlotsFor(cap, count) <= SlotsFor(cap, more)
    decreases more - cap
  {
    if more > cap { SlotsGrow(2 * cap, count, more); }
  }

  class TokenArray {
    var slots: array<Token>
    var size: nat
    var cap: nat
    var room: nat   // slots that the arena can still provide

    constructor (room: nat)
      ensures fresh(slots) && size == 0 && cap == 0 && slots.Length == 0 && this.room == room
    {
      slots := new Token[0];
      size, cap := 0, 0;
      this.room := room;
    }

    ghost predicate Valid()
      reads this
    {
      size <= cap == slots.Length && 0 < cap
    }

    ghost function Contents(): seq<Token>
      reads this, slots
      requires Valid()
    {
      slots[..size]
    }

    method Allocate(n: nat) returns (ok: bool, block: array<Token>)
      modifies this`room
      ensures ok <==> n <= old(room)
      ensures room == if ok then old(room) - n else old(room)
      ensures fresh(block) && (ok ==> block.Length == n)
    {
      ok := n <= room;
      block := new Token[if ok then n else 0](_ => END_TOKEN);
      if ok { room := room - n; }
    }

    method Start() returns (ok: bool)
      requires size == 0
      modifies this
      ensures size == 0 && (ok <==> FIRST_CAPACITY <= old(room))
      ensures ok ==> Valid() && fresh(slots) && cap == FIRST_CAPACITY && room == old(room) - FIRST_CAPACITY && Contents() == []
    {
      cap := FIRST_CAPACITY;
      ok, slots := Allocate(FIRST_CAPACITY);
    }

    /** Appends a token, after moving to an array of twice the capacity if this one is full. */
    method Add(t: Token) returns (ok: bool)
      requires Valid()
      modifies this, slots
      ensures ok <==> old(size) < old(cap) || 2 * old(cap) <= old(room)
      ensures ok ==>
                && Valid() && Contents() == old(Contents()) + [t] && (slots == old(slots) || fresh(slots))
                && (if old(size) < old(cap) then cap == old(cap) && room == old(room)
                    else cap == 2 * old(cap) && room == old(room) - cap)
    {
      if size >= cap {
        var block;
        ok, block := Allocate(2 * cap);
        if !ok { return; }
        var i := 0;
        while i < size
          invariant 0 <= i <= size && block[..i] == slots[..i]
          modifies block
        {
          block[i] := slots[i];
          i := i + 1;
        }
        cap := 2 * cap;
        slots := block;
      }
      slots[size] := t;
      size := size + 1;
      ok := true;
    }

    /** The capacity and the room are what the tokens so far lead to, from `total` slots in all. */
    ghost predicate Grown(total: nat)
      reads this
    {
      && Valid() && cap == LastCapacity(FIRST_CAPACITY, size) && total == room + SlotsFor(FIRST_CAPACITY, size)
    }

    /** One round of the tokeniser's loop. */
    method Append(t: Token, ghost total: nat) returns (ok: bool)
      requires Grown(total)
      modifies this, slots
      ensures ok <==> SlotsFor(FIRST_CAPACITY, old(size) + 1) <= total
      ensures ok ==> Grown(total) && Contents() == old(Contents()) + [t] && (slots == old(slots) || fresh(slots))
    {
      hide LastCapacity, SlotsFor;
      GrowStep(FIRST_CAPACITY, size);
      ok := Add(t);
    }
  }

  datatype Outcome =
    | Finished
    | Endless    // a shebang line without a line break is read forever
    | NoMemory   // the arena cannot provide the array, and a null pointer is written to
    | Overrun    // the end token is written past a full array

  /** Where the tokens start: at the line break after a shebang, if there is one. */
  ghost function SkipShebang(s: string): (start: Option<nat>)
    ensures start.Some? ==> start.value <= |s|
  {
    if |s| > 2 && s[0] == '#' && s[1] == '!' then
      var end := SpanEnd(s, 0, InLine);
      if end < |s| then Some(end) else None
    else Some(0)
  }

  /**
   A file of `#!` and at least one more character is read from its first line break on, and for ever if it
   has none; any other file is read from its start.
   */
  lemma {:induction false} ShebangIsSkipped(s: string)
    ensures var shebang := |s| > 2 && s[..2] == "#!";
            && (!shebang ==> SkipShebang(s) == Some(0))
            && (shebang && '\n' !in s ==> SkipShebang(s) == None)
            && (forall w, rest :: '\n' !in w && s == "#!" + w + "\n" + rest ==> SkipShebang(s) == Some(2 + |w|))
  {
    hide SpanEnd;
    var end := SpanEnd(s, 0, InLine);
    assert |s| > 2 && s[0] == '#' && s[1] == '!' ==> s[..2] == "#!";
    forall w, rest | '\n' !in w && s == "#!" + w + "\n" + rest ensures SkipShebang(s) == Some(2 + |w|) {
      var at := 2 + |w|;
      assert s[at] == '\n';
      assert forall i :: 0 <= i < at ==> s[i] == ("#!" + w)[i] != '\n';
      assert end == at;
    }
  }

  /** How the tokeniser ends, when the arena can provide `room` token slots. */
  ghost function LexOutcome(input: string, room: nat): Outcome {
    if SkipShebang(input).None? then Endless
    else
      var count := |EmitFrom(input, SkipShebang(input).value, true, 1)|;
      if room < SlotsFor(FIRST_CAPACITY, count) then NoMemory
      else if count == LastCapacity(FIRST_CAPACITY, count) then Overrun
      else Finished
  }

  /** Tokenises a file; `room` is how many token slots the arena can provide. */
  method LexFile(input: string, room: nat) returns (outcome: Outcome, list: TokenArray)
    ensures outcome == LexOutcome(input, room)
    ensures outcome.Finished? ==>
              && SkipShebang(input).Some? && list.Valid()
              && list.Contents() == EmitFrom(input, SkipShebang(input).value, true, 1) + [Token(TEnd, 0, 0, 0)]
  {
    hide LastCapacity, SlotsFor, EmitFrom, Next, LineBreaks;
    list := new TokenArray(room);
    var ok := list.Start();
    var lexer := new Lexer(input);
    if |input| > 2 && input[0] == '#' && input[1] == '!' {
      while lexer.Peek() != '\n'
        invariant lexer.pos <= |input| && SpanEnd(input, lexer.pos, InLine) == SpanEnd(input, 0, InLine)
        invariant lexer.line == 1 && lexer.atLineStart
        modifies lexer
        decreases |input| - lexer.pos
      {
        if lexer.AtEnd() { return Endless, list; }
        var _ := lexer.Advance();
      }
    }
    ghost var tokens := EmitFrom(input, lexer.pos, true, 1);
    NothingYet(|tokens|);
    if !ok { return NoMemory, list; }
    ok := FillArray(lexer, list, room, tokens);
    if !ok { return NoMemory, list; }
    if list.size >= list.cap { return Overrun, list; }
    list.slots[list.size] := END_TOKEN;
    list.size := list.size + 1;
    outcome := Finished;
  }

  /** The loop of the tokeniser, up to the end token. */
  method FillArray(lexer: Lexer, list: TokenArray, ghost room: nat, ghost tokens: seq<Token>) returns (ok: bool)
    requires lexer.pos <= |lexer.input| && list.Valid() && list.Contents() == []
    requires tokens == EmitFrom(lexer.input, lexer.pos, lexer.atLineStart, lexer.line)
    requires list.cap == FIRST_CAPACITY && room == list.room + FIRST_CAPACITY
    modifies lexer, list, list.slots
    ensures ok <==> SlotsFor(FIRST_CAPACITY, |tokens|) <= room
    ensures ok ==>
              && list.Valid() && list.Contents() == tokens && list.cap == LastCapacity(FIRST_CAPACITY, |tokens|)
              && (list.slots == old(list.slots) || fresh(list.slots))
  {
    hide LastCapacity, SlotsFor, EmitFrom, Next, LineBreaks;
    NothingYet(|tokens|);
    while true
      invariant list.Grown(room) && lexer.pos <= |lexer.input| && (list.slots == old(list.slots) || fresh(list.slots))
      invariant tokens == list.Contents() + EmitFrom(lexer.input, lexer.pos, lexer.atLineStart, lexer.line)
      decreases |lexer.input| - lexer.pos
    {
      EmitStep(lexer.input, lexer.pos, lexer.atLineStart, lexer.line);
      ghost var done := list.Contents();
      var token := lexer.LexNext();
      if token.kind == TEnd { break; }
      SlotsGrow(FIRST_CAPACITY, list.size + 1, |tokens|);
      Shift(done, token, EmitFrom(lexer.input, lexer.pos, lexer.atLineStart, lexer.line));
      ok := list.Append(token, room);
      if !ok { return; }
    }
    ok := true;
  }

  /** Fewer than 512 tokens need the first array only. */
  lemma {:induction false} FirstArrayIsEnough(count: nat)
    requires count < FIRST_CAPACITY
    ensures LastCapacity(FIRST_CAPACITY, count) == FIRST_CAPACITY == SlotsFor(FIRST_CAPACITY, count)
  {
  }

  lemma Shift(done: seq<Token>, t: Token, rest: seq<Token>)
    ensures done + ([t] + rest) == done + [t] + rest
  {
  }

  lemma {:induction false} NothingYet(count: nat)
    ensures LastCapacity(FIRST_CAPACITY, 0) == FIRST_CAPACITY == SlotsFor(FIRST_CAPACITY, 0) <= SlotsFor(FIRST_CAPACITY, count)
  {
    SlotsGrow(FIRST_CAPACITY, 0, count);
  }
}

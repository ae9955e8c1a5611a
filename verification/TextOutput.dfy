/** Writing text: the string builder and the format-string interpreter. */
module TextOutput {
  import opened Tokens
  import opened Numbers

  function Reversed(s: string): (r: string)
    ensures |r| == |s|
  {
    if s == "" then "" else Reversed(s[1..]) + [s[0]]
  }

  lemma {:induction false} ReversedAppend(s: string, c: char)
    ensures Reversed(s + [c]) == [c] + Reversed(s)
    decreases |s|
  {
    if s != "" {
      assert (s + [c])[1..] == s[1..] + [c];
      ReversedAppend(s[1..], c);
      assert Reversed(s + [c]) == ([c] + Reversed(s[1..])) + [s[0]];
    }
  }

  lemma {:induction false} ReversedFirst(c: char, s: string)
    ensures Reversed([c] + s) == Reversed(s) + [c] && Reversed("") == ""
  {
    assert ([c] + s)[1..] == s;
  }

  /** The digits of a positive number go into `temp`, the last one first, unless there are too many for it. */
  method TakeDigits(value: nat, temp: array<char>) returns (fits: bool, n: nat)
    requires value > 0
    modifies temp
    ensures fits <==> |DecimalText(value)| <= temp.Length
    ensures fits ==> n == |DecimalText(value)| && Reversed(temp[..n]) == DecimalText(value)
  {
    var v := value;
    n := 0;
    while v > 0
      invariant n <= temp.Length
      invariant n + (if v > 0 then |DecimalText(v)| else 0) == |DecimalText(value)|
      invariant DecimalText(value) == (if v > 0 then DecimalText(v) else "") + Reversed(temp[..n])
    {
      ghost var done, c := temp[..n], DigitChar(v % 10);
      DigitMoves(v, done);
      if n == temp.Length { return false, n; }
      temp[n] := '0' + (v % 10) as char;
      assert temp[..n + 1] == done + [c];
      v := v / 10;
      n := n + 1;
    }
    fits := true;
  }

  /** The last digit moves from the front text to the reversed digits. */
  lemma {:induction false} DigitMoves(v: nat, done: string)
    requires v > 0
    ensures |DecimalText(v)| == (if v / 10 > 0 then |DecimalText(v / 10)| else 0) + 1
    ensures DecimalText(v) + Reversed(done)
         == (if v / 10 > 0 then DecimalText(v / 10) else "") + Reversed(done + [DigitChar(v % 10)])
  {
    ReversedAppend(done, DigitChar(v % 10));
    var front := if v / 10 > 0 then DecimalText(v / 10) else "";
    assert DecimalText(v) == front + [DigitChar(v % 10)];
  }

  // ----- The string builder -----

  const INT_MIN: int := -0x8000_0000
  const INT_MAX: int := 0x7fff_ffff
  const UINT64_MAX: nat := 0xffff_ffff_ffff_ffff

  /** What is appended for a number when `room` characters are left. */
  ghost function FittingText(u: nat, room: nat): string {
    if u == 0 then (if room > 0 then "0" else "")
    else if |DecimalText(u)| < room then DecimalText(u)
    else ""
  }

  /** For a negative number the sign is written first, whether or not the digits then fit. */
  ghost function FittingInt(i: int, room: nat): string {
    if i >= 0 then FittingText(i, room)
    else if room > 1 then "-" + FittingText(-i, room - 1)
    else ""
  }

  class StringBuilder {
    const data: array<char>
    var len: nat

    constructor (capacity: nat)
      ensures Valid() && fresh(data) && data.Length == capacity && Contents() == ""
    {
      data := new char[capacity](_ => '\0');
      len := 0;
    }

    ghost predicate Valid()
      reads this
    {
      len <= data.Length
    }

    ghost function Contents(): string
      reads this, data
      requires Valid()
    {
      data[..len]
    }

    function Remaining(): nat
      reads this
      requires Valid()
    {
      data.Length - len
    }

    method BuildString(s: string)
      requires Valid()
      modifies this, data
      ensures Valid() && Contents() == old(Contents()) + (if |s| <= old(Remaining()) then s else "")
    {
      if |s| > Remaining() { return; }
      var i := 0;
      while i < |s|
        invariant 0 <= i <= |s| && len == old(len) && data[..len + i] == old(data[..len]) + s[..i]
        modifies data
      {
        data[len + i] := s[i];
        i := i + 1;
      }
      len := len + |s|;
    }

    /** Without any capacity the test for room wraps around, and the character is written past the buffer. */
    method BuildChar(c: char) returns (inside: bool)
      requires Valid()
      modifies this, data
      ensures Valid() && (inside <==> data.Length > 0)
      ensures Contents() == old(Contents()) + (if old(len) + 1 < data.Length then [c] else "")
    {
      if data.Length == 0 { return false; }
      inside := true;
      if len >= data.Length - 1 { return; }
      data[len] := c;
      len := len + 1;
    }

    method Put(c: char)
      requires Valid() && len < data.Length
      modifies this, data
      ensures Valid() && len == old(len) + 1 && Contents() == old(Contents()) + [c]
    {
      data[len] := c;
      len := len + 1;
    }

    /** Appends a number; from 10^16 on its digits are written past their own buffer. */
    method BuildU64(u: nat) returns (inside: bool)
      requires Valid() && u <= UINT64_MAX
      modifies this, data
      ensures Valid() && (inside <==> u < Pow10(16))
      ensures Contents() == old(Contents()) + (if inside then FittingText(u, old(Remaining())) else "")
    {
      hide Pow10;
      var remaining := Remaining();
      DecimalTextLength(u, 16);
      if u == 0 && remaining > 0 {
        Put('0');
        return true;
      }
      if u == 0 { return true; }
      var temp := new char[16];
      var ti;
      inside, ti := TakeDigits(u, temp);
      if !inside || ti >= remaining { return; }
      PutReversed(temp, ti);
    }

    /** Appends the first `n` characters of `temp`, the last one first. */
    method PutReversed(temp: array<char>, n: nat)
      requires Valid() && n <= temp.Length && n <= Remaining() && temp != data
      modifies this, data
      ensures Valid() && Contents() == old(Contents()) + Reversed(temp[..n])
    {
      hide Reversed;
      ghost var digits := temp[..n];
      ReversedFirst('0', "");
      var ti := n;
      while ti > 0
        invariant Valid() && ti <= n && temp[..n] == digits && Remaining() >= ti
        invariant Contents() == old(Contents()) + Reversed(digits[ti..])
        modifies this, data
      {
        ReversedFirst(temp[ti - 1], digits[ti..]);
        assert digits[ti - 1..] == [temp[ti - 1]] + digits[ti..];
        ti := ti - 1;
        Put(temp[ti]);
      }
      assert digits[0..] == digits;
    }

    /** Appends a 32-bit integer. */
    method BuildInt(i: int)
      requires Valid() && INT_MIN <= i <= INT_MAX
      modifies this, data
      ensures Valid() && Contents() == old(Contents()) + FittingInt(i, old(Remaining()))
    {
      hide Pow10, DecimalText;
      var remaining := Remaining();
      FitsDigits(if i < 0 then -i else i);
      if i == 0 && remaining > 0 {
        Put('0');
        return;
      }
      hide FittingText;
      if i < 0 {
        if remaining <= 1 { return; }
        Put('-');
        var inside := BuildU64(-(i + 1) + 1);
        assert inside;
        Regroup(old(Contents()), "-", FittingText(-i, remaining - 1));
      } else {
        var inside := BuildU64(i);
        assert inside;
      }
    }
  }

  lemma {:induction false} Regroup(a: string, b: string, c: string)
    ensures a + b + c == a + (b + c)
  {
  }

  lemma {:induction false} FitsDigits(u: nat)
    requires u <= 0x8000_0000
    ensures u < Pow10(16)
  {
    assert Pow10(4) == 10000 && Pow10(8) == 10000 * Pow10(4) && Pow10(12) == 10000 * Pow10(8);
    assert Pow10(16) == 10000 * Pow10(12);
  }

  /** With enough room the whole text is appended, and it reads back as the same integer. */
  lemma {:induction false} BuiltIntReadsBack(i: int, room: nat)
    requires INT_MIN <= i <= INT_MAX && |IntText(i)| < room
    ensures FittingInt(i, room) == IntText(i) && FittingNumeral(FittingInt(i, room)) == Some(i)
  {
    DecimalRoundTrip(i);
  }

  lemma {:induction false} BuiltU64ReadsBack(u: nat, room: nat)
    requires u < Pow10(16) && |DecimalText(u)| < room
    ensures FittingText(u, room) == DecimalText(u) && FittingNumeral(FittingText(u, room)) == Some(u)
  {
    assert Pow10(4) == 10000 && Pow10(8) == 10000 * Pow10(4) && Pow10(12) == 10000 * Pow10(8);
    assert Pow10(16) == 10000 * Pow10(12);
    DecimalRoundTrip(u);
  }

  /** A number is written whole or not at all: whole exactly when one more character would fit after it, or it is zero and fits. */
  lemma {:induction false} U64IsWrittenExactlyWhen(u: nat, room: nat)
    ensures FittingText(u, room) == if |DecimalText(u)| + (if u == 0 then 0 else 1) <= room then DecimalText(u) else ""
  {
  }

  /** The same for a signed number, but its sign is written alone where its digits do not fit. */
  lemma {:induction false} IntIsWrittenExactlyWhen(i: int, room: nat)
    ensures FittingInt(i, room) ==
              if |IntText(i)| + (if i == 0 then 0 else 1) <= room then IntText(i) else if i < 0 && room >= 2 then "-" else ""
  {
  }

  /** A negative number whose digits do not fit leaves a lone sign behind. */
  lemma {:induction false} LoneSignExactlyWhen(i: int, room: nat)
    requires INT_MIN <= i < 0
    ensures FittingInt(i, room) == "-" <==> 1 < room <= |IntText(i)|
  {
  }
}

/** Numerals: what a digit string denotes, reading one into a 64-bit integer, and writing one out. */
module Numbers {
  import opened Tokens

  newtype int64 = x: int | -0x8000_0000_0000_0000 <= x <= 0x7fff_ffff_ffff_ffff

  const INT64_MAX: int := 0x7fff_ffff_ffff_ffff

  predicate IsDigit(c: char) {
    '0' <= c <= '9'
  }

  predicate IsHexDigit(c: char) {
    IsDigit(c) || 'a' <= c <= 'f' || 'A' <= c <= 'F'
  }

  function DigitValue(c: char): (d: nat)
    requires IsHexDigit(c)
    ensures d < 16 && (IsDigit(c) <==> d < 10)
  {
    if IsDigit(c) then c as int - '0' as int
    else if 'a' <= c <= 'f' then c as int - 'a' as int + 10
    else c as int - 'A' as int + 10
  }

  /** Every character is a digit of the radix, hexadecimal or decimal. */
  ghost predicate AllDigits(s: string, hex: bool) {
    forall i :: 0 <= i < |s| ==> if hex then IsHexDigit(s[i]) else IsDigit(s[i])
  }

  /** Positional value, most significant digit first. */
  ghost function Value(s: string, hex: bool): nat
    requires AllDigits(s, hex)
  {
    if s == "" then 0
    else
      var front := Value(s[..|s| - 1], hex);
      (if hex then 16 * front else 10 * front) + DigitValue(s[|s| - 1])
  }

  predicate IsHexForm(text: string) {
    |text| > 2 && text[0] == '0' && (text[1] == 'x' || text[1] == 'X')
  }

  predicate IsSigned(text: string) {
    text != "" && (text[0] == '-' || text[0] == '+')
  }

  /** The integer a numeral denotes: hexadecimal without a sign, or decimal with an optional one. */
  ghost function Numeral(text: string): Option<int> {
    if IsHexForm(text) then
      if AllDigits(text[2..], true) then Some(Value(text[2..], true)) else None
    else
      var body := if IsSigned(text) then text[1..] else text;
      if body != "" && AllDigits(body, false) then
        var magnitude: int := Value(body, false);
        Some(if text[0] == '-' then -magnitude else magnitude)
      else None
  }

  /** The numerals that fit: one whose magnitude is at most 2^63-1. */
  ghost function FittingNumeral(text: string): Option<int> {
    var n := Numeral(text);
    if n.Some? && -INT64_MAX <= n.value <= INT64_MAX then n else None
  }

  lemma {:induction false} ValueOfPrefix(s: string, hex: bool, i: nat)
    requires AllDigits(s, hex) && i <= |s|
    ensures Value(s[..i], hex) <= Value(s, hex)
    decreases |s|
  {
    if i < |s| {
      var front := s[..|s| - 1];
      assert s[..i] == front[..i];
      ValueOfPrefix(front, hex, i);
    } else {
      assert s[..i] == s;
    }
  }

  /** Reads the digits of `text` from `start`, refusing a sum before it can overflow. */
  method ReadDigits(text: string, start: nat, hex: bool) returns (ok: bool, result: int64)
    requires start <= |text|
    ensures ok <==> AllDigits(text[start..], hex) && Value(text[start..], hex) <= INT64_MAX
    ensures ok ==> result as int == Value(text[start..], hex)
  {
    ghost var digits := text[start..];
    var max: int64 := 0x7fff_ffff_ffff_ffff;
    result := 0;
    var i := start;
    while i < |text|
      invariant start <= i <= |text|
      invariant 0 <= result
      invariant AllDigits(digits[..i - start], hex)
      invariant result as int == Value(digits[..i - start], hex)
    {
      var c := text[i];
      ghost var seen := digits[..i - start + 1];
      assert digits[i - start] == c;
      if !(if hex then IsHexDigit(c) else IsDigit(c)) {
        return false, 0;
      }
      assert seen[..i - start] == digits[..i - start];
      assert AllDigits(seen, hex);
      var digit := DigitValue(c) as int64;
      if result > (max - digit) / (if hex then 16 else 10) {
        assert Value(seen, hex) > INT64_MAX;
        if AllDigits(digits, hex) { ValueOfPrefix(digits, hex, i - start + 1); }
        return false, 0;
      }
      result := result * (if hex then 16 else 10) + digit;
      i := i + 1;
    }
    assert digits[..i - start] == digits;
    return true, result;
  }

  /** Reads a numeral; accepts it exactly when it is one and its magnitude fits, and never overflows. */
  method StringToInt64(text: string) returns (ok: bool, out: int64)
    ensures ok <==> FittingNumeral(text).Some?
    ensures ok ==> out as int == FittingNumeral(text).value
  {
    if |text| == 0 { return false, 0; }
    var negative := false;
    var i := 0;
    if text[0] == '-' { negative := true; i := 1; } else if text[0] == '+' { i := 1; }

    if |text| > 2 && text[0] == '0' && (text[1] == 'x' || text[1] == 'X') {
      ok, out := ReadDigits(text, 2, true);
      return;
    }

    if i == |text| { return false, 0; }
    ok, out := ReadDigits(text, i, false);
    if ok && negative { out := -out; }
  }

  // ----- Writing decimal numerals -----

  function DigitChar(d: nat): (c: char)
    requires d < 10
    ensures IsDigit(c) && DigitValue(c) == d
  {
    '0' + d as char
  }

  /** The shortest decimal text of a natural number. */
  function DecimalText(n: nat): (s: string)
    ensures |s| >= 1 && AllDigits(s, false)
    ensures n > 0 ==> s[0] != '0'
  {
    if n < 10 then [DigitChar(n)] else DecimalText(n / 10) + [DigitChar(n % 10)]
  }

  function IntText(i: int): string {
    if i < 0 then "-" + DecimalText(-i) else DecimalText(i)
  }

  lemma {:induction false} DecimalTextValue(n: nat)
    ensures Value(DecimalText(n), false) == n
  {
    var s := DecimalText(n);
    if n < 10 {
      assert s[..0] == "";
    } else {
      DecimalTextValue(n / 10);
      assert s[..|s| - 1] == DecimalText(n / 10);
    }
  }

  lemma {:induction false} IntTextIsNumeral(i: int)
    ensures Numeral(IntText(i)) == Some(i)
  {
    hide Value, DecimalText;
    var s := IntText(i);
    if i < 0 {
      DecimalTextValue(-i);
      assert s[1..] == DecimalText(-i) && !IsHexForm(s);
    } else {
      DecimalTextValue(i);
      assert IsDigit(s[0]) && (|s| > 1 ==> IsDigit(s[1]));
    }
  }

  /** What is written reads back: every 64-bit magnitude survives the round trip. */
  lemma {:induction false} DecimalRoundTrip(i: int)
    requires -INT64_MAX <= i <= INT64_MAX
    ensures FittingNumeral(IntText(i)) == Some(i)
  {
    hide Numeral, IntText;
    IntTextIsNumeral(i);
  }

  /** A natural number has at most k digits exactly when it is below 10^k. */
  lemma {:induction false} DecimalTextLength(n: nat, k: nat)
    requires k >= 1
    ensures |DecimalText(n)| <= k <==> n < Pow10(k)
  {
    assert Pow10(k) == 10 * Pow10(k - 1);
    if n >= 10 && k > 1 {
      DecimalTextLength(n / 10, k - 1);
    } else if n >= 10 {
      assert Pow10(1) == 10 && |DecimalText(n / 10)| >= 1;
    }
  }

  function Pow10(k: nat): (p: nat)
    ensures p >= 1
  {
    if k == 0 then 1 else 10 * Pow10(k - 1)
  }

  // ----- Reading hexadecimal numerals -----

  /** The sixteen digits in order, in small or capital letters. */
  function HexDigits(capital: bool): (s: string)
    ensures |s| == 16
  {
    if capital then "0123456789ABCDEF" else "0123456789abcdef"
  }

  /** The k-th character of either table is the digit of value k. */
  lemma HexDigitsInOrder(k: nat, capital: bool)
    requires k < 16
    ensures IsHexDigit(HexDigits(capital)[k]) && DigitValue(HexDigits(capital)[k]) == k
  {
    var s := HexDigits(capital);
    assert forall i :: 0 <= i < 10 ==> s[i] == '0' + i as char;
    assert forall i :: 10 <= i < 16 ==> s[i] == (if capital then 'A' else 'a') + (i - 10) as char;
  }

  /** And no other character is a digit. */
  lemma HexDigitsAreThese(c: char)
    ensures IsHexDigit(c) <==> c in "0123456789abcdef" || c in "0123456789ABCDEF"
    ensures IsDigit(c) <==> c in "0123456789"
  {
    if IsHexDigit(c) {
      var capital := 'A' <= c <= 'F';
      var s, k := HexDigits(capital), DigitValue(c);
      assert forall i :: 0 <= i < 10 ==> s[i] == '0' + i as char;
      assert forall i :: 10 <= i < 16 ==> s[i] == (if capital then 'A' else 'a') + (i - 10) as char;
      assert s[k] == c;
    }
    if IsDigit(c) { assert "0123456789"[c as int - '0' as int] == c; }
  }

  /** Positional notation in sixteens. */
  function HexText(n: nat, capital: bool): (s: string)
    ensures s != ""
  {
    if n < 16 then [HexDigits(capital)[n]] else HexText(n / 16, capital) + [HexDigits(capital)[n % 16]]
  }

  lemma {:induction false} HexTextValue(n: nat, capital: bool)
    ensures AllDigits(HexText(n, capital), true) && Value(HexText(n, capital), true) == n
  {
    hide HexDigits, DigitValue, IsHexDigit;
    HexDigitsInOrder(n % 16, capital);
    var s := HexText(n, capital);
    if n < 16 {
      assert s[..0] == "";
    } else {
      HexTextValue(n / 16, capital);
      assert s[..|s| - 1] == HexText(n / 16, capital);
    }
  }

  /** A hexadecimal numeral in either case and after either prefix is read as its number exactly if that fits 64 bits. */
  lemma {:induction false} HexRoundTrip(n: nat, capital: bool, prefix: string)
    requires prefix == "0x" || prefix == "0X"
    ensures FittingNumeral(prefix + HexText(n, capital)) == if n <= 0x7fff_ffff_ffff_ffff then Some(n) else None
  {
    hide Value, HexText;
    var text := prefix + HexText(n, capital);
    HexTextValue(n, capital);
    assert text[2..] == HexText(n, capital);
  }

  /** The same for a decimal numeral with or without a plus sign, and with a minus sign for its negative. */
  lemma {:induction false} SignedRoundTrip(n: nat)
    ensures var fits: bool, i: int := n <= 0x7fff_ffff_ffff_ffff, n;
            && FittingNumeral(DecimalText(n)) == (if fits then Some(i) else None)
            && FittingNumeral("+" + DecimalText(n)) == (if fits then Some(i) else None)
            && FittingNumeral("-" + DecimalText(n)) == (if fits then Some(-i) else None)
  {
    hide Value, DecimalText;
    DecimalTextValue(n);
    var text := DecimalText(n);
    assert IsDigit(text[0]) && (|text| > 1 ==> IsDigit(text[1]));
    assert ("+" + text)[1..] == text && ("-" + text)[1..] == text;
  }

  /** Leading zeros change no value. */
  lemma {:induction false} LeadingZeros(s: string, hex: bool)
    requires AllDigits(s, hex)
    ensures AllDigits("0" + s, hex) && Value("0" + s, hex) == Value(s, hex)
    decreases |s|
  {
    var z := "0" + s;
    assert forall i :: 0 < i < |z| ==> z[i] == s[i - 1];
    if s == "" {
      assert z[..0] == "";
    } else {
      LeadingZeros(s[..|s| - 1], hex);
      assert z[..|z| - 1] == "0" + s[..|s| - 1];
    }
  }

  /** What is no numeral: nothing at all, a sign alone, a prefix without digits, a hexadecimal with a sign. */
  lemma NoNumerals(digits: string)
    ensures Numeral("") == None && Numeral("+") == None && Numeral("-") == None && Numeral("0x") == None && Numeral("0X") == None
    ensures Numeral("-0x" + digits) == None && Numeral("+0x" + digits) == None
  {
    hide Value;
    assert "+"[1..] == "" && "-"[1..] == "";
    assert ("-0x" + digits)[1..][1] == 'x' && ("+0x" + digits)[1..][1] == 'x';
    assert "0x"[1] == 'x' && "0X"[1] == 'X';
  }
}

/** The format-string interpreter, against a recursive renderer. */
module Formats {
  import opened Tokens
  import opened Numbers
  import opened TextOutput

  /** A variable argument, as the format that reads it takes it to be. */
  datatype Arg = Text(text: Option<string>) | Size(size: nat) | Int(number: int)

  const SIZE_MAX: nat := UINT64_MAX

  datatype Directive = Plain(c: char) | Percent | String | Unsigned | Decimal | Unknown

  /** The directive at the head of a format, and how many characters it takes. */
  function HeadOf(f: string): (d: Directive)
    requires f != ""
  {
    if f[0] != '%' then Plain(f[0])
    else if |f| > 1 && f[1] == '%' then Percent
    else if |f| > 1 && f[1] == 's' then String
    else if |f| > 2 && f[1] == 'z' && f[2] == 'u' then Unsigned
    else if |f| > 1 && f[1] == 'd' then Decimal
    else Unknown
  }

  function Width(d: Directive): nat {
    match d
    case Plain(_) => 1
    case Unsigned => 3
    case Percent => 2
    case String => 2
    case Decimal => 2
    case Unknown => 2
  }

  predicate TakesArg(d: Directive) {
    d.String? || d.Unsigned? || d.Decimal?
  }

  /** The argument is there, of the type that the directive reads. */
  predicate Suits(d: Directive, args: seq<Arg>) {
    match d
    case String => args != [] && args[0].Text?
    case Unsigned => args != [] && args[0].Size? && args[0].size <= SIZE_MAX
    case Decimal => args != [] && args[0].Int? && INT_MIN <= args[0].number <= INT_MAX
    case Plain(_) => true
    case Percent => true
    case Unknown => true
  }

  function Rest(d: Directive, args: seq<Arg>): seq<Arg>
    requires Suits(d, args)
  {
    if TakesArg(d) then args[1..] else args
  }

  /** The text that stands for a directive; an unknown one is dropped. */
  function Shown(d: Directive, args: seq<Arg>): string
    requires Suits(d, args)
  {
    match d
    case Plain(c) => [c]
    case Percent => "%"
    case String => args[0].text.GetOr("(null)")
    case Unsigned => DecimalText(args[0].size)
    case Decimal => IntText(args[0].number)
    case Unknown => ""
  }

  /** The format does not end in a lone `%`, and every directive has its argument. */
  ghost predicate Matches(f: string, args: seq<Arg>)
    decreases |f|
  {
    f == "" ||
    var d := HeadOf(f);
    Width(d) <= |f| && Suits(d, args) && Matches(f[Width(d)..], Rest(d, args))
  }

  ghost function Render(f: string, args: seq<Arg>): string
    requires Matches(f, args)
    decreases |f|
  {
    if f == "" then ""
    else
      var d := HeadOf(f);
      Shown(d, args) + Render(f[Width(d)..], Rest(d, args))
  }

  // ----- What the rendered text is, directive by directive -----

  /** A format without `%` renders as itself and reads no argument. */
  lemma {:induction false} PlainRenders(f: string, args: seq<Arg>)
    requires forall i :: 0 <= i < |f| ==> f[i] != '%'
    ensures Matches(f, args) && Render(f, args) == f
    decreases |f|
  {
    hide Shown, Suits;
    if f == "" {
      NothingRendered(args);
    } else {
      PlainRenders(f[1..], args);
      CharRenders(f[0], f[1..], args);
      assert f == [f[0]] + f[1..];
    }
  }

  lemma {:induction false} CharRenders(c: char, f: string, args: seq<Arg>)
    requires c != '%' && Matches(f, args)
    ensures Matches([c] + f, args) && Render([c] + f, args) == [c] + Render(f, args)
  {
    assert ([c] + f)[1..] == f;
  }

  /** A directive of two characters takes those two. */
  lemma AfterTwo(a: char, b: char, f: string)
    ensures [a, b] + f != "" && ([a, b] + f)[0] == a && ([a, b] + f)[1] == b && ([a, b] + f)[2..] == f
  {
  }

  lemma AfterArg(arg: Arg, args: seq<Arg>)
    ensures ([arg] + args)[0] == arg && ([arg] + args)[1..] == args
  {
  }

  /** `%s` writes its text, and `(null)` for a null pointer. */
  lemma {:induction false} TextRenders(text: Option<string>, f: string, args: seq<Arg>)
    requires Matches(f, args)
    ensures Matches("%s" + f, [Text(text)] + args)
    ensures Render("%s" + f, [Text(text)] + args) == (if text.Some? then text.value else "(null)") + Render(f, args)
  {
    AfterTwo('%', 's', f);
    AfterArg(Text(text), args);
  }

  /** `%d` writes a 32-bit integer in decimal, with a minus sign if it is negative. */
  lemma {:induction false} IntRenders(i: int, f: string, args: seq<Arg>)
    requires Matches(f, args) && -0x8000_0000 <= i <= 0x7fff_ffff
    ensures Matches("%d" + f, [Int(i)] + args)
    ensures Render("%d" + f, [Int(i)] + args) == (if i < 0 then "-" + DecimalText(-i) else DecimalText(i)) + Render(f, args)
  {
    hide DecimalText;
    AfterTwo('%', 'd', f);
    AfterArg(Int(i), args);
  }

  /** `%zu` writes a 64-bit unsigned integer in decimal. */
  lemma {:induction false} SizeRenders(u: nat, f: string, args: seq<Arg>)
    requires Matches(f, args) && u <= 0xffff_ffff_ffff_ffff
    ensures Matches("%zu" + f, [Size(u)] + args)
    ensures Render("%zu" + f, [Size(u)] + args) == DecimalText(u) + Render(f, args)
  {
    hide DecimalText;
    assert ("%zu" + f)[3..] == f;
    AfterArg(Size(u), args);
  }

  /** A double `%` writes one. */
  lemma {:induction false} PercentRenders(f: string, args: seq<Arg>)
    requires Matches(f, args)
    ensures Matches("%%" + f, args) && Render("%%" + f, args) == "%" + Render(f, args)
  {
    AfterTwo('%', '%', f);
  }

  /** Any other character after `%` is dropped with it, and so is a `z` that no `u` follows. */
  lemma {:induction false} UnknownRenders(c: char, f: string, args: seq<Arg>)
    requires Matches(f, args) && c != '%' && c != 's' && c != 'd' && (c == 'z' ==> f == "" || f[0] != 'u')
    ensures Matches("%" + [c] + f, args) && Render("%" + [c] + f, args) == Render(f, args)
  {
    assert "%" + [c] + f == ['%', c] + f;
    AfterTwo('%', c, f);
  }

  /** The format uses up all the arguments and does not end in `%z`, which a `u` after it would change. */
  ghost predicate Complete(f: string, args: seq<Arg>)
    decreases |f|
  {
    if f == "" then args == []
    else
      var d := HeadOf(f);
      Width(d) <= |f| && Suits(d, args) && f != "%z" && Complete(f[Width(d)..], Rest(d, args))
  }

  /** One format after another renders as their texts one after another. */
  lemma {:induction false} JoinedRenders(f: string, a: seq<Arg>, g: string, b: seq<Arg>)
    requires Complete(f, a) && Matches(g, b)
    ensures Matches(f, a) && Matches(f + g, a + b) && Render(f + g, a + b) == Render(f, a) + Render(g, b)
    decreases |f|
  {
    hide Shown, HeadOf, Suits, Width, Rest, Matches, Render;
    if f == "" {
      NothingRendered(a);
      assert f + g == g && a + b == b && "" + Render(g, b) == Render(g, b);
    } else {
      var d := HeadOf(f);
      HeadTakes(f);
      HeadStays(f, g);
      SuitsStays(d, a, b);
      JoinedRenders(f[Width(d)..], Rest(d, a), g, b);
      assert (f + g)[Width(d)..] == f[Width(d)..] + g;
      MatchesStep(f, a);
      MatchesStep(f + g, a + b);
      RenderStep(f, a);
      RenderStep(f + g, a + b);
    }
  }

  lemma HeadTakes(f: string)
    requires f != ""
    ensures 0 < Width(HeadOf(f))
  {
  }

  lemma {:induction false} MatchesStep(f: string, args: seq<Arg>)
    requires f != ""
    ensures var d := HeadOf(f);
            Width(d) <= |f| && Suits(d, args) && Matches(f[Width(d)..], Rest(d, args)) ==> Matches(f, args)
  {
    hide Suits, HeadOf;
  }

  lemma SuitsStays(d: Directive, a: seq<Arg>, b: seq<Arg>)
    requires Suits(d, a)
    ensures Suits(d, a + b) && Rest(d, a + b) == Rest(d, a) + b && Shown(d, a + b) == Shown(d, a)
  {
    hide DecimalText, IntText;
    if TakesArg(d) { assert (a + b)[1..] == a[1..] + b; }
  }

  lemma HeadStays(f: string, g: string)
    requires f != "" && Width(HeadOf(f)) <= |f| && f != "%z"
    ensures HeadOf(f + g) == HeadOf(f)
  {
    assert |f| == 2 && f[0] == '%' ==> f == ['%', f[1]];
  }

  /** After `%z` a `u` is not itself. */
  lemma {:induction false} UnfinishedDirective(u: nat)
    requires u <= SIZE_MAX
    ensures Matches("%z", []) && Render("%z", []) == "" && Matches("u", []) && Render("u", []) == "u"
    ensures "%z" + "u" == "%zu" && !Matches("%zu", []) && Render("%zu", [Size(u)]) == DecimalText(u)
  {
    hide DecimalText;
    NothingRendered([]);
    UnknownRenders('z', "", []);
    assert "%" + ['z'] + "" == "%z";
    PlainRenders("u", []);
    SizeRenders(u, "", []);
    assert "%zu" + "" == "%zu" && [Size(u)] + [] == [Size(u)] && DecimalText(u) + "" == DecimalText(u);
  }

  // ----- What is written into a buffer of any size -----

  /** The interpreter ends with a text, or loops, or reads past its format or its arguments. */
  datatype Printed = Ended(text: string) | Loops | Astray {
    function After(s: string): Printed {
      if Ended? then Ended(s + text) else this
    }
  }

  predicate IsNumber(d: Directive) {
    d.Unsigned? || d.Decimal?
  }

  /** The argument is a number other than zero, whose digits need a character to spare. */
  predicate IsNonzero(d: Directive, args: seq<Arg>)
    requires Suits(d, args)
  {
    (d.Unsigned? && args[0].size != 0) || (d.Decimal? && args[0].number != 0)
  }

  /** `rem` characters are left, the terminator's included. */
  predicate Fits(d: Directive, args: seq<Arg>, rem: nat)
    requires Suits(d, args)
  {
    |Shown(d, args)| + (if IsNonzero(d, args) then 1 else 0) < rem || Shown(d, args) == ""
  }

  /**
   A text that does not fit is tried again for ever, a number that does not fit is dropped. A double
   `%` that does not fit is not skipped, and its second half starts a directive.
   */
  ghost function Print(f: string, args: seq<Arg>, rem: nat): (p: Printed)
    ensures p.Ended? ==> p.text == "" || |p.text| < rem
    decreases |f|
  {
    if f == "" then Ended("")
    else
      var d := HeadOf(f);
      if Width(d) > |f| || !Suits(d, args) then Astray
      else
        var shown := Shown(d, args);
        if Fits(d, args, rem) then Print(f[Width(d)..], Rest(d, args), rem - |shown|).After(shown)
        else if IsNumber(d) then Print(f[Width(d)..], Rest(d, args), rem)
        else if d.Percent? then Print(f[1..], args, rem)
        else Loops
  }

  /** The last directive that shows anything is a number other than zero. */
  ghost predicate LastIsNonzero(f: string, args: seq<Arg>)
    requires Matches(f, args)
    decreases |f|
  {
    f != "" &&
    var d := HeadOf(f);
    var more, rest := f[Width(d)..], Rest(d, args);
    if Render(more, rest) == "" then IsNonzero(d, args) else LastIsNonzero(more, rest)
  }

  lemma {:induction false} PrintsNoMore(f: string, args: seq<Arg>, rem: nat)
    requires Matches(f, args)
    ensures Print(f, args, rem).Ended? ==> |Print(f, args, rem).text| <= |Render(f, args)|
    decreases |f|
  {
    hide Shown, Suits, HeadOf, IsNonzero, Render;
    if f != "" {
      var d := HeadOf(f);
      RenderStep(f, args);
      PrintsNoMore(f[Width(d)..], Rest(d, args), rem);
      if Fits(d, args, rem) {
        PrintsNoMore(f[Width(d)..], Rest(d, args), rem - |Shown(d, args)|);
      } else if d.Percent? {
        PercentIsShort(args, rem);
      }
    } else {
      NothingRendered(args);
    }
  }

  /** After a double `%` that does not fit nothing fits. */
  lemma PercentIsShort(args: seq<Arg>, rem: nat)
    ensures !Fits(Percent, args, rem) <==> rem <= 1
    ensures Shown(Percent, args) == "%"
  {
  }

  lemma ShowsSomething(d: Directive, args: seq<Arg>)
    requires Suits(d, args)
    ensures IsNumber(d) || d.Plain? || d.Percent? ==> Shown(d, args) != ""
    ensures IsNonzero(d, args) ==> IsNumber(d)
    ensures IsNumber(d) && !IsNonzero(d, args) ==> |Shown(d, args)| == 1
  {
  }

  /**
   The whole text comes out exactly when the buffer is larger than it by two, or by one if it does not
   end in a number other than zero; or when there is no text.
   */
  lemma {:induction false} FullTextExactlyWhen(f: string, args: seq<Arg>, rem: nat)
    requires Matches(f, args)
    ensures var n := |Render(f, args)|;
            Print(f, args, rem) == Ended(Render(f, args)) <==> n == 0 || n + 2 <= rem || (n + 1 == rem && !LastIsNonzero(f, args))
    decreases |f|
  {
    hide Shown, Suits, HeadOf, IsNonzero, Render;
    if f == "" {
      NothingRendered(args);
    } else {
      var d := HeadOf(f);
      var more, rest, shown := f[Width(d)..], Rest(d, args), Shown(d, args);
      RenderStep(f, args);
      ShowsSomething(d, args);
      PrintsNoMore(more, rest, rem);
      if Fits(d, args, rem) {
        FullTextExactlyWhen(more, rest, rem - |shown|);
        SameRest(shown, Print(more, rest, rem - |shown|), Render(more, rest));
      } else if d.Percent? {
        PercentIsShort(args, rem);
      }
    }
  }

  lemma SameRest(shown: string, p: Printed, rest: string)
    ensures p.After(shown) == Ended(shown + rest) <==> p == Ended(rest)
  {
    if p.Ended? && shown + p.text == shown + rest {
      assert p.text == (shown + p.text)[|shown|..] && rest == (shown + rest)[|shown|..];
    }
  }

  /** A format whose directives are texts alone. */
  ghost predicate TextsOnly(f: string)
    decreases |f|
  {
    f == "" ||
    var d := HeadOf(f);
    Width(d) <= |f| && !IsNumber(d) && !d.Percent? && TextsOnly(f[Width(d)..])
  }

  /** Texts alone come out whole, or the interpreter loops: it does so exactly when they do not fit. */
  lemma {:induction false} TextsLoopExactlyWhen(f: string, args: seq<Arg>, rem: nat)
    requires Matches(f, args) && TextsOnly(f)
    ensures var text := Render(f, args);
            Print(f, args, rem) == if text == "" || |text| < rem then Ended(text) else Loops
    decreases |f|
  {
    hide Shown, Suits, HeadOf, Render;
    if f == "" {
      NothingRendered(args);
    } else {
      var d := HeadOf(f);
      RenderStep(f, args);
      ShowsSomething(d, args);
      if Fits(d, args, rem) { TextsLoopExactlyWhen(f[Width(d)..], Rest(d, args), rem - |Shown(d, args)|); }
    }
  }

  /** A number alone never makes the interpreter loop: it is written or dropped. */
  lemma {:induction false} NumberIsDroppedExactlyWhen(i: int, rem: nat)
    requires INT_MIN <= i <= INT_MAX
    ensures Print("%d", [Int(i)], rem) == Ended(if |IntText(i)| + (if i == 0 then 0 else 1) < rem then IntText(i) else "")
  {
    hide IntText;
    var d := Decimal;
    assert HeadOf("%d") == d && "%d"[2..] == "" && [Int(i)][1..] == [];
    assert Shown(d, [Int(i)]) == IntText(i) && IntText(i) != "" by { ShowsSomething(d, [Int(i)]); }
    assert forall n: nat :: Print("", [], n) == Ended("");
    assert IntText(i) + "" == IntText(i);
  }

  // ----- What is printed, directive by directive, when `rem` characters are left -----

  /** A plain character is written if another would fit after it; otherwise the interpreter loops. */
  lemma {:induction false} CharPrints(c: char, f: string, args: seq<Arg>, rem: nat)
    requires c != '%'
    ensures Print([c] + f, args, rem) == if rem > 1 then Print(f, args, rem - 1).After([c]) else Loops
  {
    assert ([c] + f)[1..] == f;
  }

  /** A text is written if it fits; otherwise the interpreter loops. */
  lemma {:induction false} TextPrints(text: Option<string>, f: string, args: seq<Arg>, rem: nat)
    ensures var t := if text.Some? then text.value else "(null)";
            Print("%s" + f, [Text(text)] + args, rem) ==
              if t == "" || |t| < rem then Print(f, args, rem - |t|).After(t) else Loops
  {
    AfterTwo('%', 's', f);
    AfterArg(Text(text), args);
  }

  /** A number is written if it fits, with a character to spare unless it is zero; otherwise it is dropped. */
  lemma {:induction false} IntPrints(i: int, f: string, args: seq<Arg>, rem: nat)
    requires -0x8000_0000 <= i <= 0x7fff_ffff
    ensures var t := if i < 0 then "-" + DecimalText(-i) else DecimalText(i);
            Print("%d" + f, [Int(i)] + args, rem) ==
              if |t| + (if i == 0 then 0 else 1) < rem then Print(f, args, rem - |t|).After(t) else Print(f, args, rem)
  {
    hide DecimalText;
    AfterTwo('%', 'd', f);
    AfterArg(Int(i), args);
  }

  lemma {:induction false} SizePrints(u: nat, f: string, args: seq<Arg>, rem: nat)
    requires u <= 0xffff_ffff_ffff_ffff
    ensures var t := DecimalText(u);
            Print("%zu" + f, [Size(u)] + args, rem) ==
              if |t| + (if u == 0 then 0 else 1) < rem then Print(f, args, rem - |t|).After(t) else Print(f, args, rem)
  {
    hide DecimalText;
    assert ("%zu" + f)[3..] == f;
    AfterArg(Size(u), args);
  }

  /** A double `%` is written as one if another character would fit after it; otherwise its second half starts a directive. */
  lemma {:induction false} PercentPrints(f: string, args: seq<Arg>, rem: nat)
    ensures Print("%%" + f, args, rem) == if rem > 1 then Print(f, args, rem - 1).After("%") else Print("%" + f, args, rem)
  {
    AfterTwo('%', '%', f);
    assert ("%%" + f)[1..] == "%" + f;
  }

  lemma {:induction false} UnknownPrints(c: char, f: string, args: seq<Arg>, rem: nat)
    requires c != '%' && c != 's' && c != 'd' && (c == 'z' ==> f == "" || f[0] != 'u')
    ensures Print("%" + [c] + f, args, rem) == Print(f, args, rem)
  {
    assert "%" + [c] + f == ['%', c] + f;
    AfterTwo('%', c, f);
    NothingShown(Print(f, args, rem));
  }

  /** A lone `%` at the end is read past, and so is a missing argument. */
  lemma {:induction false} ReadsPast(f: string, rem: nat)
    ensures Print("%", [], rem) == Print("%s" + f, [], rem) == Print("%d" + f, [], rem) == Print("%zu" + f, [], rem) == Astray
  {
  }

  // ----- Writing into the buffer -----

  /** `s` has been written at `at`, and nothing after it. */
  twostate predicate Written(buffer: array<char>, at: nat, s: string)
    reads buffer
  {
    && at + |s| <= buffer.Length
    && buffer[..at + |s|] == old(buffer[..at]) + s
    && buffer[at + |s|..] == old(buffer[at + |s|..])
  }

  /** Copies a text character by character, each one only if two more characters fit; it loops if they do not. */
  method PutText(buffer: array<char>, at: nat, room: nat, s: string) returns (loops: bool, rem: nat)
    requires at + room <= buffer.Length
    modifies buffer
    ensures loops <==> s != "" && room <= |s|
    ensures !loops ==> Written(buffer, at, s) && rem == room - |s|
  {
    loops, rem := false, room;
    var i := 0;
    while i < |s|
      invariant 0 <= i <= |s| && rem == room - i && (i == 0 || i < room)
      invariant buffer[..at + i] == old(buffer[..at]) + s[..i] && buffer[at + i..] == old(buffer[at + i..])
    {
      if rem <= 1 { return true, rem; }
      buffer[at + i] := s[i];
      i := i + 1;
      rem := rem - 1;
    }
  }

  /** Copies the first `n` characters of `temp`, the last one first, if they and one more fit. */
  method PutDigits(buffer: array<char>, at: nat, room: nat, temp: array<char>, n: nat) returns (rem: nat)
    requires at + room <= buffer.Length && n <= temp.Length && temp != buffer
    modifies buffer
    ensures Written(buffer, at, if n + 1 < room then Reversed(temp[..n]) else "")
    ensures rem == if n + 1 < room then room - n else room
  {
    hide Reversed;
    rem := room;
    ghost var digits := temp[..n];
    ReversedFirst('0', "");
    if rem > n + 1 {
      rem := rem - n;
      var i, out := n, at;
      while i > 0
        invariant i <= n && out == at + (n - i) && temp[..n] == digits
        invariant buffer[..out] == old(buffer[..at]) + Reversed(digits[i..]) && buffer[out..] == old(buffer[out..])
      {
        ReversedFirst(temp[i - 1], digits[i..]);
        assert digits[i - 1..] == [temp[i - 1]] + digits[i..];
        i := i - 1;
        buffer[out] := temp[i];
        out := out + 1;
      }
      assert digits[0..] == digits;
    }
  }

  /** A zero needs no character to spare. */
  method PutZero(buffer: array<char>, at: nat, room: nat) returns (rem: nat)
    requires at + room <= buffer.Length
    modifies buffer
    ensures Written(buffer, at, if 1 < room then "0" else "") && rem == if 1 < room then room - 1 else room
  {
    rem := room;
    if rem > 1 {
      buffer[at] := '0';
      rem := rem - 1;
    }
  }

  /** The text of a number, if it fits. */
  ghost function NumberShown(text: string, zero: bool, room: nat): string {
    if |text| + (if zero then 0 else 1) < room then text else ""
  }

  /** The `%zu` directive. */
  method PutSize(buffer: array<char>, at: nat, room: nat, v: nat) returns (rem: nat)
    requires at + room <= buffer.Length && v <= SIZE_MAX
    modifies buffer
    ensures var shown := NumberShown(DecimalText(v), v == 0, room);
            Written(buffer, at, shown) && rem == room - |shown|
  {
    if v == 0 {
      rem := PutZero(buffer, at, room);
    } else {
      SizeDigits(v);
      var temp := new char[32];
      var _, n := TakeDigits(v, temp);
      rem := PutDigits(buffer, at, room, temp, n);
    }
  }

  lemma {:induction false} SizeDigits(v: nat)
    requires v <= SIZE_MAX
    ensures |DecimalText(v)| <= 20
  {
    assert Pow10(4) == 10000 && Pow10(8) == 10000 * Pow10(4) && Pow10(12) == 10000 * Pow10(8);
    assert Pow10(16) == 10000 * Pow10(12) && Pow10(20) == 10000 * Pow10(16);
    DecimalTextLength(v, 20);
  }

  lemma {:induction false} IntDigits(v: nat)
    requires v <= 0x8000_0000
    ensures |DecimalText(v)| <= 10
  {
    assert Pow10(5) == 100000 && Pow10(10) == 100000 * Pow10(5);
    DecimalTextLength(v, 10);
  }

  /** The `%d` directive; the sign is the last character that goes into the digit buffer. */
  method PutInt(buffer: array<char>, at: nat, room: nat, value: int) returns (rem: nat)
    requires at + room <= buffer.Length && INT_MIN <= value <= INT_MAX
    modifies buffer
    ensures var shown := NumberShown(IntText(value), value == 0, room);
            Written(buffer, at, shown) && rem == room - |shown|
  {
    if value == 0 {
      rem := PutZero(buffer, at, room);
    } else {
      var negative := value < 0;
      var v := if negative then -value else value;
      IntDigits(v);
      var temp := new char[16];
      var _, n := TakeDigits(v, temp);
      if negative {
        ghost var digits := temp[..n];
        ReversedAppend(digits, '-');
        temp[n] := '-';
        n := n + 1;
        assert temp[..n] == digits + ['-'];
      }
      rem := PutDigits(buffer, at, room, temp, n);
    }
  }

  /** What one directive writes: its text if that fits, and nothing if it is a number that does not. */
  method PutDirective(buffer: array<char>, at: nat, room: nat, d: Directive, args: seq<Arg>) returns (loops: bool, rem: nat)
    requires at + room <= buffer.Length && Suits(d, args)
    modifies buffer
    ensures loops <==> !Fits(d, args, room) && !IsNumber(d)
    ensures var shown := if Fits(d, args, room) then Shown(d, args) else "";
            !loops ==> Written(buffer, at, shown) && rem == room - |shown|
  {
    hide DecimalText, IntText;
    loops, rem := false, room;
    ShowsSomething(d, args);
    match d
    case Plain(c) => loops, rem := PutText(buffer, at, room, [c]);
    case Percent => loops, rem := PutText(buffer, at, room, "%");
    case String => loops, rem := PutText(buffer, at, room, args[0].text.GetOr("(null)"));
    case Unsigned => rem := PutSize(buffer, at, room, args[0].size);
    case Decimal => rem := PutInt(buffer, at, room, args[0].number);
    case Unknown =>
  }

  /**
   Interprets a format. When it ends, the buffer holds the text and a terminator, and nothing after
   them has changed; the result is the text's length. In a buffer of size zero nothing is written.
   */
  method VsnPrintf(buffer: array<char>, bufsz: nat, format: string, args: seq<Arg>) returns (result: Printed, written: nat)
    requires bufsz <= buffer.Length
    modifies buffer
    ensures match Print(format, args, bufsz)
            case Loops => result == Loops
            case Astray => result == Astray
            case Ended(text) =>
              && result == Ended(text) && written == |text|
              && (if bufsz == 0 then buffer[..] == old(buffer[..]) && text == ""
                  else |text| < bufsz && buffer[..] == text + ['\0'] + old(buffer[|text| + 1..]))
  {
    hide Shown, Suits, HeadOf, Width, IsNonzero, Fits, Print, Rest;
    var rem := bufsz;
    var f, rest := format, args;
    ghost var whole := Print(format, args, bufsz);
    var shown := "";
    NothingShown(whole);
    while f != ""
      invariant rem <= bufsz && |shown| == bufsz - rem && (shown == "" || 0 < rem)
      invariant whole == Print(f, rest, rem).After(shown)
      invariant buffer[..bufsz - rem] == shown && buffer[bufsz - rem..] == old(buffer[bufsz - rem..])
      decreases |f|
    {
      PrintStep(f, rest, rem);
      var d := HeadOf(f);
      if Width(d) > |f| || !Suits(d, rest) { return Astray, 0; }
      if d.Percent? && rem <= 1 {
        f := f[1..];
        continue;
      }
      var at := bufsz - rem;
      ghost var room, text := rem, if Fits(d, rest, rem) then Shown(d, rest) else "";
      var loops;
      label before: loops, rem := PutDirective(buffer, at, rem, d, rest);
      if loops { return Loops, 0; }
      assert Written@before(buffer, at, text);
      JoinShown(Print(f[Width(d)..], Rest(d, rest), rem), shown, text);
      shown := buffer[..bufsz - rem];
      f, rest := f[Width(d)..], Rest(d, rest);
    }
    NothingPrinted(rest, rem, shown);
    written := bufsz - rem;
    result := Ended(shown);
    if bufsz > 0 { buffer[written] := '\0'; }
  }

  lemma NothingShown(p: Printed)
    ensures p.After("") == p
  {
    if p.Ended? { assert "" + p.text == p.text; }
  }

  lemma JoinShown(p: Printed, a: string, b: string)
    ensures p.After(b).After(a) == p.After(a + b)
  {
    if p.Ended? { assert a + (b + p.text) == a + b + p.text; }
  }

  lemma {:induction false} NothingPrinted(args: seq<Arg>, rem: nat, shown: string)
    ensures Print("", args, rem).After(shown) == Ended(shown)
  {
    assert shown + "" == shown;
  }

  /** One round of the loop. */
  lemma {:induction false} PrintStep(f: string, args: seq<Arg>, rem: nat)
    requires f != ""
    ensures var d := HeadOf(f);
            && 0 < Width(d)
            && (Width(d) > |f| || !Suits(d, args) ==> Print(f, args, rem) == Astray)
            && (Width(d) <= |f| && Suits(d, args) ==>
                  && (Fits(d, args, rem) ==>
                        && |Shown(d, args)| <= rem && (Shown(d, args) != "" ==> |Shown(d, args)| < rem)
                        && Print(f, args, rem) == Print(f[Width(d)..], Rest(d, args), rem - |Shown(d, args)|).After(Shown(d, args)))
                  && (!Fits(d, args, rem) && IsNumber(d) ==>
                        Print(f, args, rem) == Print(f[Width(d)..], Rest(d, args), rem).After(""))
                  && (d.Percent? ==> (Fits(d, args, rem) <==> rem > 1))
                  && (!Fits(d, args, rem) && d.Percent? ==> Print(f, args, rem) == Print(f[1..], args, rem))
                  && (!Fits(d, args, rem) && !IsNumber(d) && !d.Percent? ==> Print(f, args, rem) == Loops))
  {
    hide Shown, Suits, HeadOf, IsNonzero;
    var d := HeadOf(f);
    if Width(d) <= |f| && Suits(d, args) {
      NothingShown(Print(f[Width(d)..], Rest(d, args), rem));
      if d.Percent? { PercentIsShort(args, rem); }
    }
  }

  lemma {:induction false} RenderStep(f: string, args: seq<Arg>)
    requires f != "" && Matches(f, args)
    ensures var d := HeadOf(f);
            && 0 < Width(d) <= |f| && Suits(d, args) && Matches(f[Width(d)..], Rest(d, args))
            && Render(f, args) == Shown(d, args) + Render(f[Width(d)..], Rest(d, args))
  {
    hide Shown, Suits;
  }

  lemma {:induction false} NothingRendered(args: seq<Arg>)
    ensures Matches("", args) && Render("", args) == ""
  {
  }

  /** The formats of single numbers give the texts that the string builder appends, which read back. */
  lemma {:induction false} NumberFormats(i: int, u: nat, room: nat)
    requires INT_MIN <= i <= INT_MAX && u < Pow10(16) && |IntText(i)| < room && |DecimalText(u)| < room && u <= SIZE_MAX
    ensures Matches("%d", [Int(i)]) && Render("%d", [Int(i)]) == FittingInt(i, room)
    ensures Matches("%zu", [Size(u)]) && Render("%zu", [Size(u)]) == FittingText(u, room)
    ensures FittingNumeral(Render("%d", [Int(i)])) == Some(i) && FittingNumeral(Render("%zu", [Size(u)])) == Some(u)
  {
    hide DecimalText, FittingNumeral, IntText, FittingInt, FittingText, Pow10;
    BuiltIntReadsBack(i, room);
    BuiltU64ReadsBack(u, room);
    NothingRendered([]);
    assert HeadOf("%d") == Decimal && "%d"[2..] == "" && [Int(i)][1..] == [];
    assert HeadOf("%zu") == Unsigned && "%zu"[3..] == "" && [Size(u)][1..] == [];
    assert forall s: string :: s + "" == s;
  }
}

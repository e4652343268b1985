/**
 64-bit numbers as text: the printer writes digits from the back into a buffer, the
 parser detects overflow from the wrapped product.
 */
module Numbers {
  import opened Common

  const LIMIT: nat := 0x1_0000_0000_0000_0000
  const MAX: nat := LIMIT - 1

  /** Octal, decimal or hexadecimal. */
  predicate IsBase(base: nat) { base == 8 || base == 10 || base == 16 }

  // -- Digits ----------------------------------------------------------------------------

  function CharOf(d: nat): char
    requires d < 16
  {
    "0123456789ABCDEF"[d]
  }

  function DigitOf(c: char, base: nat): Option<nat> {
    if '0' <= c <= '9' then (if base == 8 && c > '7' then None else Some(c as nat - '0' as nat))
    else if base != 16 then None
    else if 'a' <= c <= 'f' then Some(10 + c as nat - 'a' as nat)
    else if 'A' <= c <= 'F' then Some(10 + c as nat - 'A' as nat)
    else None
  }

  lemma DigitBack(d: nat, base: nat)
    requires IsBase(base) && d < base
    ensures DigitOf(CharOf(d), base) == Some(d)
  {}

  /** One more digit. */
  function Extend(v: nat, base: nat, d: nat): nat { v * base + d }

  function Quotient(v: nat, base: nat): (q: nat)
    requires IsBase(base)
    ensures v > 0 ==> q < v
  {
    v / base
  }

  function Remainder(v: nat, base: nat): (r: nat)
    requires IsBase(base)
    ensures r < base
  {
    v % base
  }

  lemma Rebuilt(v: nat, base: nat)
    requires IsBase(base)
    ensures Extend(Quotient(v, base), base, Remainder(v, base)) == v
    ensures v < base <==> Quotient(v, base) == 0
    ensures v < base ==> Remainder(v, base) == v
  {
    if base == 8 { assert v == v / 8 * 8 + v % 8; } else if base == 10 { assert v == v / 10 * 10 + v % 10; } else { assert v == v / 16 * 16 + v % 16; }
  }

  /** The number that the digits of `s` make of the value read so far. */
  function ValueFrom(v: nat, s: string, base: nat): nat
    decreases |s|
  {
    if s == [] then v
    else match DigitOf(s[0], base) case None => v case Some(d) => ValueFrom(Extend(v, base, d), s[1..], base)
  }

  predicate AllDigits(s: string, base: nat) { forall i :: 0 <= i < |s| ==> DigitOf(s[i], base).Some? }

  // -- Parsing -----------------------------------------------------------------------------

  /** The digit loop: whether the text was used up or ended, and the value. */
  function Scan(s: string, base: nat, value: nat): (bool, nat)
    requires base > 0
  {
    if s == [] then (true, value)
    else
      match DigitOf(s[0], base)
      case None => (s[0] == '\0' || |s| == 1, value)
      case Some(d) =>
        var next := Extend(value, base, d) % LIMIT;
        if next / base != value then (|s| == 1, MAX) else Scan(s[1..], base, next)
  }

  /** The overflow test on the wrapped number is exact. */
  lemma OverflowTest(v: nat, d: nat, base: nat)
    requires IsBase(base) && v < LIMIT && d < base
    ensures var next := Extend(v, base, d);
      && (next % LIMIT / base != v <==> next >= LIMIT) && (next < LIMIT ==> next % LIMIT == next) && next >= v
  {}

  lemma {:induction false} ValueGrows(v: nat, s: string, base: nat)
    requires IsBase(base)
    ensures ValueFrom(v, s, base) >= v
    decreases |s|
  {
    if s != [] && DigitOf(s[0], base).Some? {
      ValueGrows(Extend(v, base, DigitOf(s[0], base).value), s[1..], base);
    }
  }

  lemma DigitSmall(c: char, base: nat)
    requires IsBase(base)
    ensures DigitOf(c, base).Some? ==> DigitOf(c, base).value < base
  {}

  /** Digits up to the end of the text: the value is the number they write, or the largest
      number exactly if that does not fit into 64 bits. */
  lemma {:induction false} ScanExact(s: string, tail: string, base: nat, v: nat)
    requires IsBase(base) && v < LIMIT && AllDigits(s, base) && (tail == [] || tail[0] == '\0')
    ensures Scan(s + tail, base, v).1 == Min(ValueFrom(v, s, base), MAX)
    ensures ValueFrom(v, s, base) < LIMIT ==> Scan(s + tail, base, v).0
    decreases |s|
  {
    if s == [] {
      assert s + tail == tail;
    } else {
      var d := DigitOf(s[0], base).value;
      DigitSmall(s[0], base);
      OverflowTest(v, d, base);
      hide Extend;
      assert (s + tail)[0] == s[0] && (s + tail)[1..] == s[1..] + tail;
      var next := Extend(v, base, d);
      if next < LIMIT { ScanExact(s[1..], tail, base, next); } else { ValueGrows(next, s[1..], base); }
      hide DigitOf;
    }
  }

  predicate IsSpace(c: char) { c == ' ' || 9 <= c as int <= 13 }

  function SkipSpaces(s: string): string { if s != [] && IsSpace(s[0]) then SkipSpaces(s[1..]) else s }

  predicate Starts(s: string, c: char) { s != [] && s[0] == c }

  /** The base a prefix asks for, and what comes after it. */
  function BaseOf(s: string): (nat, string) {
    if !Starts(s, '0') then (10, s)
    else if Starts(s[1..], 'x') || Starts(s[1..], 'X') then (16, s[2..])
    else (8, s[1..])
  }

  const AUTO := 0

  /** What a text means as a number: spaces, a sign, a base prefix, digits. */
  function Parsed(s: string, base: nat): (bool, nat) {
    var signed := SkipSpaces(s);
    var text := if Starts(signed, '-') || Starts(signed, '+') then signed[1..] else signed;
    var (b, digits) := if base == AUTO then BaseOf(text) else (base, text);
    var (ok, v) := Scan(digits, b, 0);
    (ok, if Starts(signed, '-') then (LIMIT - Min(v, LIMIT)) % LIMIT else v)
  }

  // -- Printing ------------------------------------------------------------------------------

  function Text(v: nat, base: nat): string
    requires IsBase(base)
  {
    if v < base then [CharOf(v)] else Text(Quotient(v, base), base) + [CharOf(Remainder(v, base))]
  }

  lemma {:induction false} ValueSnoc(v: nat, s: string, c: char, base: nat)
    requires AllDigits(s, base) && DigitOf(c, base).Some?
    ensures ValueFrom(v, s + [c], base) == Extend(ValueFrom(v, s, base), base, DigitOf(c, base).value)
    decreases |s|
  {
    hide Extend;
    if s == [] {
      assert s + [c] == [c] && [c][1..] == [];
    } else {
      ValueSnoc(Extend(v, base, DigitOf(s[0], base).value), s[1..], c, base);
      assert (s + [c])[0] == s[0] && (s + [c])[1..] == s[1..] + [c];
    }
  }

  lemma OneDigit(v: nat, base: nat)
    requires IsBase(base) && v < base && DigitOf(CharOf(v), base) == Some(v)
    ensures ValueFrom(0, [CharOf(v)], base) == v && (v > 0 ==> CharOf(v) != '0')
  {
    assert [CharOf(v)][1..] == [];
    assert Extend(0, base, v) == v;
  }

  /** The text of a number consists of its digits, and has no leading zero. */
  lemma {:induction false} TextValue(v: nat, base: nat)
    requires IsBase(base)
    ensures AllDigits(Text(v, base), base) && ValueFrom(0, Text(v, base), base) == v
    ensures Text(v, base) != [] && (v > 0 ==> Text(v, base)[0] != '0')
    decreases v
  {
    if v < base {
      DigitBack(v, base);
      OneDigit(v, base);
    } else {
      Rebuilt(v, base);
      hide DigitOf, CharOf, Extend, Quotient, Remainder;
      var q, c := Quotient(v, base), CharOf(Remainder(v, base));
      TextValue(q, base);
      DigitBack(Remainder(v, base), base);
      ValueSnoc(0, Text(q, base), c, base);
    }
  }

  /** Integers as AML strings: hexadecimal with its prefix, or decimal. */
  function IntegerText(v: nat, hex: bool): string { if hex then "0x" + Text(v, 16) + "\0" else Text(v, 10) + "\0" }

  lemma PlainStart(s: string)
    requires s != [] && DigitOf(s[0], 16).Some?
    ensures SkipSpaces(s) == s && !Starts(s, '-') && !Starts(s, '+')
  {}

  /** Every 64-bit number comes back from its text, in either form. */
  lemma IntegerRoundTrip(v: nat, hex: bool)
    requires v < LIMIT
    ensures Parsed(IntegerText(v, hex), AUTO) == (true, v)
  {
    var s := IntegerText(v, hex);
    if hex {
      TextValue(v, 16);
      ScanExact(Text(v, 16), "\0", 16, 0);
      PlainStart(s);
      assert s[0] == '0' && s[1..][0] == 'x' && s[2..] == Text(v, 16) + "\0";
    } else {
      TextValue(v, 10);
      ScanExact(Text(v, 10), "\0", 10, 0);
      assert s[0] == Text(v, 10)[0];
      PlainStart(s);
      if v == 0 { ZeroText(s); }
    }
    hide Scan, Text, SkipSpaces, ValueFrom, DigitOf;
  }

  /** A lone zero is taken for an octal prefix, which comes to the same. */
  lemma ZeroText(s: string)
    requires s == "0\0"
    ensures BaseOf(s) == (8, "\0") && Scan("\0", 8, 0) == (true, 0)
  {
    assert s[1..] == "\0";
  }

  // -- The code --------------------------------------------------------------------------------

  function Pow8(n: nat): nat { if n == 0 then 1 else 8 * Pow8(n - 1) }

  /** 64 bits have at most 22 octal digits. */
  lemma {:induction false} PowersGrow(n: nat)
    requires n >= 22
    ensures Pow8(n) >= LIMIT
  {
    if n > 22 { PowersGrow(n - 1); } else { assert Pow8(6) == 262144; assert Pow8(12) == 68719476736; assert Pow8(18) == 18014398509481984; }
  }

  /** The digits still to be written. */
  function Upper(v: nat, base: nat): string
    requires IsBase(base)
  {
    if v == 0 then "" else Text(v, base)
  }

  lemma UpperStep(v: nat, base: nat, done: string)
    requires IsBase(base) && v > 0
    ensures Upper(v, base) + done == Upper(Quotient(v, base), base) + ([CharOf(Remainder(v, base))] + done)
  {
    Rebuilt(v, base);
    hide CharOf, Quotient, Remainder;
  }

  lemma Eighth(v: nat, base: nat, p: nat)
    requires IsBase(base)
    ensures (v / base) * (8 * p) <= v * p
  {
    var q := v / base;
    assert 8 * q <= v;
    assert q * (8 * p) == (8 * q) * p;
    assert (8 * q) * p <= v * p;
  }

  /** After `n` digits what is left is at least `n` octal digits shorter. */
  predicate Shrunk(v: nat, n: nat, number: nat) { v * Pow8(n) <= number }

  lemma ShrinkStart(number: nat)
    ensures Shrunk(number, 0, number)
  {}

  lemma ShrinkStep(v: nat, n: nat, number: nat, base: nat)
    requires IsBase(base) && Shrunk(v, n, number)
    ensures Shrunk(Quotient(v, base), n + 1, number)
  {
    Eighth(v, base, Pow8(n));
  }

  lemma Larger(v: nat, p: nat)
    requires v > 0
    ensures v * p >= p
  {}

  lemma RoomLeft(v: nat, n: nat, number: nat)
    requires v > 0 && Shrunk(v, n, number) && number < LIMIT
    ensures n < 22
  {
    Larger(v, Pow8(n));
    hide Pow8;
    if n >= 22 { PowersGrow(n); }
  }

  /** The digits of the value, written from the back. */
  method WriteInteger(number: nat, base: nat) returns (repr: string)
    requires number < LIMIT && IsBase(base)
    ensures repr == Text(number, base)
  {
    var buffer := new char[32](_ => ' ');
    var index: nat, value: nat := 32, number;
    ghost var done := "";
    hide Upper, Shrunk, Text, CharOf, Quotient, Remainder;
    ShrinkStart(number);
    while value > 0
      invariant index <= 32 && |done| == 32 - index && buffer[index..] == done
      invariant Upper(value, base) + done == Upper(number, base) && Shrunk(value, 32 - index, number)
    {
      RoomLeft(value, 32 - index, number);
      UpperStep(value, base, done);
      ShrinkStep(value, 32 - index, number, base);
      var remainder := Remainder(value, base);
      value := Quotient(value, base);
      index := index - 1;
      buffer[index] := CharOf(remainder);
      done := [CharOf(remainder)] + done;
    }
    AllWritten(number, base, done);
    if index == 32 {
      index := 31;
      buffer[index] := '0';
    }
    return buffer[index..];
  }

  lemma AllWritten(number: nat, base: nat, done: string)
    requires IsBase(base) && Upper(0, base) + done == Upper(number, base)
    ensures done == (if number == 0 then "" else Text(number, base)) && (done == "" <==> number == 0)
    ensures Text(0, base) == "0"
  {
    TextValue(number, base);
  }

  /** uacpi_string_to_integer. */
  method StringToInteger(str: string, base: nat) returns (ok: bool, value: nat)
    requires base == AUTO || IsBase(base)
    ensures (ok, value) == Parsed(str, base)
  {
    hide Scan, DigitOf;
    var pos := 0;
    assert str[0..] == str;
    while pos < |str| && IsSpace(str[pos])
      invariant pos <= |str| && SkipSpaces(str[pos..]) == SkipSpaces(str)
    {
      assert str[pos..][1..] == str[pos + 1..];
      pos := pos + 1;
    }
    ghost var signed := str[pos..];
    assert SkipSpaces(str) == signed;
    var negative := pos < |str| && str[pos] == '-';
    if pos < |str| && (str[pos] == '-' || str[pos] == '+') { pos := pos + 1; }
    ghost var text := str[pos..];
    assert text == if Starts(signed, '-') || Starts(signed, '+') then signed[1..] else signed;
    var b := base;
    if base == AUTO {
      b := 10;
      if pos < |str| && str[pos] == '0' {
        pos := pos + 1;
        b := 8;
        if pos < |str| && (str[pos] == 'x' || str[pos] == 'X') {
          pos := pos + 1;
          b := 16;
        }
      }
      assert BaseOf(text) == (b, str[pos..]);
    }
    ok, value := ScanDigits(str, pos, b);
    if negative { value := (LIMIT - Min(value, LIMIT)) % LIMIT; }
  }

  lemma ScanStep(s: string, base: nat, value: nat)
    requires base > 0 && s != []
    ensures Scan(s, base, value) ==
      match DigitOf(s[0], base)
      case None => (s[0] == '\0' || |s| == 1, value)
      case Some(d) =>
        var next := Extend(value, base, d) % LIMIT;
        if next / base != value then (|s| == 1, MAX) else Scan(s[1..], base, next)
  {}

  method ScanDigits(str: string, start: nat, base: nat) returns (ok: bool, value: nat)
    requires base > 0 && start <= |str|
    ensures (ok, value) == Scan(str[start..], base, 0)
  {
    hide Scan, DigitOf;
    var pos := start;
    value := 0;
    while pos < |str|
      invariant start <= pos <= |str| && Scan(str[pos..], base, value) == Scan(str[start..], base, 0)
    {
      ScanStep(str[pos..], base, value);
      assert str[pos..][1..] == str[pos + 1..];
      var c := str[pos];
      pos := pos + 1;
      var digit := DigitOf(c, base);
      if digit.None? { return c == '\0' || pos == |str|, value; }
      var next := Extend(value, base, digit.value) % LIMIT;
      if next / base != value { return pos == |str|, MAX; }
      value := next;
    }
    assert str[|str|..] == [];
    ScanEnd(base, value);
    return true, value;
  }

  lemma ScanEnd(base: nat, value: nat)
    requires base > 0
    ensures Scan([], base, value) == (true, value)
  {}
}

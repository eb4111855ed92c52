/** Integer text: digit counts and the backwards digit loop of document.cpp:90-168, and reading an integer back
    with `std::from_chars` (parser.cpp:38-45). */
module Integers {
  function Digit(n: nat): char
    requires n < 10
  {
    ('0' as int + n) as char
  }

  predicate IsDigit(c: char) {
    '0' <= c <= '9'
  }

  function Decimal(n: nat): string {
    if n < 10 then [Digit(n)] else Decimal(n / 10) + [Digit(n % 10)]
  }

  function IntText(n: int): string {
    if n < 0 then "-" + Decimal(-n) else Decimal(n)
  }

  predicate AllDigits(s: string) {
    forall i :: 0 <= i < |s| ==> IsDigit(s[i])
  }

  function Value(s: string): (n: int)
    requires AllDigits(s)
    ensures n >= 0
  {
    if s == "" then 0 else 10 * Value(s[..|s| - 1]) + (s[|s| - 1] as int - '0' as int)
  }

  function Pow2(bits: nat): (p: int)
    ensures p > 0
  {
    if bits == 0 then 1 else 2 * Pow2(bits - 1)
  }

  // ---- the text is canonical

  lemma {:induction false} DecimalIsCanonical(n: nat)
    ensures AllDigits(Decimal(n)) && Value(Decimal(n)) == n
    ensures 1 <= |Decimal(n)| && (Decimal(n)[0] == '0' ==> n == 0)
  {
    if n < 10 {
      assert Decimal(n)[..0] == "";
    } else {
      DecimalIsCanonical(n / 10);
      assert Decimal(n)[..|Decimal(n)| - 1] == Decimal(n / 10);
    }
  }

  // The only text of a number without a leading zero.
  lemma {:induction false} DecimalIsUnique(s: string)
    requires AllDigits(s) && s != "" && (s[0] == '0' ==> |s| == 1)
    ensures s == Decimal(Value(s))
  {
    var k := |s| - 1;
    assert s == s[..k] + [s[k]];
    if k == 0 {
      assert Value(s[..0]) == 0;
    } else {
      DecimalIsUnique(s[..k]);
      PositiveValue(s[..k]);
    }
  }

  lemma {:induction false} PositiveValue(s: string)
    requires AllDigits(s) && s != "" && s[0] != '0'
    ensures Value(s) > 0
  {
    if |s| > 1 { PositiveValue(s[..|s| - 1]); }
  }

  // ---- digit counting

  function NumDigits32(x: nat): nat {
    if x < 10 then 1
    else if x < 100 then 2
    else if x < 1_000 then 3
    else if x < 10_000 then 4
    else if x < 100_000 then 5
    else if x < 1_000_000 then 6
    else if x < 10_000_000 then 7
    else if x < 100_000_000 then 8
    else if x < 1_000_000_000 then 9
    else 10
  }

  function NumDigits64(x: nat): nat {
    if x <= 0xFFFF_FFFF then NumDigits32(x)
    else if x < 10_000_000_000 then 10
    else if x < 100_000_000_000 then 11
    else if x < 1_000_000_000_000 then 12
    else if x < 10_000_000_000_000 then 13
    else if x < 100_000_000_000_000 then 14
    else if x < 1_000_000_000_000_000 then 15
    else if x < 10_000_000_000_000_000 then 16
    else if x < 100_000_000_000_000_000 then 17
    else if x < 1_000_000_000_000_000_000 then 18
    else if x < 10_000_000_000_000_000_000 then 19
    else 20
  }

  // `num_digits` for an unsigned type of the given width.
  function NumDigits(bits: nat, x: nat): nat {
    if bits <= 32 then NumDigits32(x) else NumDigits64(x)
  }

  lemma {:induction false} NumDigits64IsLength(x: nat)
    requires x <= 0xFFFF_FFFF_FFFF_FFFF
    ensures NumDigits64(x) == |Decimal(x)|
  {
    if x >= 10 {
      NumDigits64IsLength(x / 10);
      assert NumDigits64(x) == NumDigits64(x / 10) + 1;
    }
  }

  lemma NumDigitsIsLength(bits: nat, x: nat)
    requires bits <= 64 && x < Pow2(bits)
    ensures NumDigits(bits, x) == |Decimal(x)| && 1 <= |Decimal(x)| <= 20
  {
    hide Decimal;
    Pow2Monotonic(bits, if bits <= 32 then 32 else 64);
    WidthLimits();
    NumDigits64IsLength(x);
    DecimalIsCanonical(x);
  }

  lemma {:induction false} Pow2Split(a: nat, b: nat)
    ensures Pow2(a + b) == Pow2(a) * Pow2(b)
  {
    if b > 0 { Pow2Split(a, b - 1); }
  }

  lemma WidthLimits()
    ensures Pow2(32) == 0x1_0000_0000 && Pow2(64) == 0x1_0000_0000_0000_0000
  {
    assert Pow2(8) == 256;
    Pow2Split(8, 8);
    Pow2Split(16, 16);
    Pow2Split(32, 32);
  }

  lemma {:induction false} Pow2Monotonic(a: nat, b: nat)
    requires a <= b
    ensures Pow2(a) <= Pow2(b)
  {
    if a < b { Pow2Monotonic(a, b - 1); }
  }

  // The digits still to be written: none for 0 once the last one is.
  ghost function Front(v: nat): string {
    if v == 0 then "" else Decimal(v)
  }

  lemma LastDigit(v: nat)
    ensures Decimal(v) == Front(v / 10) + [Digit(v % 10)] && Front(0) == "" && (v > 0 ==> Front(v) == Decimal(v))
  {}

  lemma Regroup(a: string, b: string, c: string)
    ensures (a + b) + c == a + (b + c)
  {}

  // The do-while loop of `write_unsigned` and `write_signed`: digits go in backwards, ending just before `end`.
  method FillDigits(a: array<char>, end: nat, value: nat)
    requires |Decimal(value)| <= end <= a.Length
    modifies a
    ensures a[end - |Decimal(value)|..end] == Decimal(value)
    ensures forall k :: 0 <= k < a.Length && !(end - |Decimal(value)| <= k < end) ==> a[k] == old(a[k])
  {
    hide Decimal, Front, Digit;
    LastDigit(value);
    var p: int, v: nat := end - 1, value / 10;
    a[p] := Digit(value % 10);
    assert a[p..end] == [Digit(value % 10)];
    while v > 0
      invariant 0 <= p < end
      invariant Decimal(value) == Front(v) + a[p..end]
      invariant forall k :: 0 <= k < a.Length && !(p <= k < end) ==> a[k] == old(a[k])
      decreases v
    {
      LastDigit(v);
      ghost var written := a[p..end];
      p := p - 1;
      a[p] := Digit(v % 10);
      assert a[p..end] == [Digit(v % 10)] + written;
      Regroup(Front(v / 10), [Digit(v % 10)], written);
      v := v / 10;
    }
  }

  // ---- reading back

  function DigitCount(s: string): (n: nat)
    ensures n <= |s| && AllDigits(s[..n])
    ensures n < |s| ==> !IsDigit(s[n])
  {
    if s == "" || !IsDigit(s[0]) then 0 else 1 + DigitCount(s[1..])
  }

  // `std::from_chars` into an integer of the range `lo..hi`: the target keeps its old value when the text
  // has no digits or its number is out of range; a minus sign is read for signed types only.
  function FromChars(raw: string, lo: int, hi: int, old_: int): int {
    var negative := lo < 0 && raw != "" && raw[0] == '-';
    var body := if negative then raw[1..] else raw;
    var digits := body[..DigitCount(body)];
    var n := if negative then -Value(digits) else Value(digits);
    if digits == "" || n < lo || n > hi then old_ else n
  }

  lemma {:induction false} DigitCountOfDigits(s: string)
    requires AllDigits(s)
    ensures DigitCount(s) == |s|
  {
    if s != "" { DigitCountOfDigits(s[1..]); }
  }

  lemma {:induction false} DigitCountThenRest(s: string, rest: string)
    requires AllDigits(s) && (rest == "" || !IsDigit(rest[0]))
    ensures DigitCount(s + rest) == |s|
  {
    if s == "" {
      assert s + rest == rest;
    } else {
      assert (s + rest)[0] == s[0] && (s + rest)[1..] == s[1..] + rest;
      DigitCountThenRest(s[1..], rest);
    }
  }

  function Zeros(z: nat): (s: string)
    ensures |s| == z && AllDigits(s)
  {
    seq(z, i => '0')
  }

  lemma {:induction false} ZerosValue(z: nat, s: string)
    requires AllDigits(s)
    ensures AllDigits(Zeros(z) + s) && Value(Zeros(z) + s) == Value(s)
    decreases z + |s|
  {
    var t := Zeros(z) + s;
    if s != "" {
      assert t[..|t| - 1] == Zeros(z) + s[..|s| - 1];
      ZerosValue(z, s[..|s| - 1]);
    } else if z > 0 {
      assert t[..|t| - 1] == Zeros(z - 1) + s;
      ZerosValue(z - 1, s);
    } else {
      assert t == "";
    }
  }

  // A number as it may be written: with a sign if it is negative, and any zeros before it.
  function NumberText(n: int, z: nat): string {
    if n < 0 then "-" + (Zeros(z) + Decimal(-n)) else Zeros(z) + Decimal(n)
  }

  lemma DigitsOfText(m: nat, z: nat, rest: string)
    requires rest == "" || !IsDigit(rest[0])
    ensures var d := Zeros(z) + Decimal(m);
      && AllDigits(d) && Value(d) == m && d != "" && IsDigit(d[0])
      && (d + rest)[..DigitCount(d + rest)] == d && (d + rest)[0] == d[0]
  {
    var d := Zeros(z) + Decimal(m);
    DecimalIsCanonical(m);
    ZerosValue(z, Decimal(m));
    DigitCountThenRest(d, rest);
    assert (d + rest)[..|d|] == d && IsDigit(d[0]);
  }

  // Whatever follows, as long as it is no digit: the number if it is in range, and what was there before if not.
  lemma FromCharsReadsPrefix(n: int, z: nat, rest: string, lo: int, hi: int, old_: int)
    requires rest == "" || !IsDigit(rest[0])
    ensures FromChars(NumberText(n, z) + rest, lo, hi, old_) == if lo <= n <= hi then n else old_
  {
    hide Zeros, Decimal, Value;
    var m := if n < 0 then -n else n;
    var d := Zeros(z) + Decimal(m);
    DigitsOfText(m, z, rest);
    var t := NumberText(n, z) + rest;
    if n < 0 {
      SignFirst(d, rest);
      assert t == "-" + d + rest;
    } else {
      DigitIsNoSign(d[0]);
      assert t == d + rest;
    }
  }

  lemma SignFirst(d: string, rest: string)
    ensures var t := "-" + d + rest; t[0] == '-' && t[1..] == d + rest && DigitCount(t) == 0 && t[..0] == ""
  {}

  lemma DigitIsNoSign(c: char)
    requires IsDigit(c)
    ensures c != '-'
  {}

  // Text that does not begin with a number, the plus sign included, leaves what was there before.
  lemma FromCharsNoNumber(raw: string, lo: int, hi: int, old_: int)
    requires raw == "" || (!IsDigit(raw[0]) && (raw[0] == '-' ==> |raw| == 1 || !IsDigit(raw[1])))
    ensures FromChars(raw, lo, hi, old_) == old_
  {}

  lemma DigitRow(k: nat)
    requires k < 10
    ensures Digit(k) == "0123456789"[k] && IsDigit(Digit(k))
  {}

  lemma FromCharsReadsIntText(n: int, lo: int, hi: int, old_: int)
    requires lo <= n <= hi
    ensures FromChars(IntText(n), lo, hi, old_) == n
  {
    var d := Decimal(if n < 0 then -n else n);
    DecimalIsCanonical(if n < 0 then -n else n);
    DigitCountOfDigits(d);
    assert d[..|d|] == d;
    assert ("-" + d)[1..] == d;
  }

  // ---- the unsigned image of a signed value (document.cpp:149-152)

  // Conversion to an unsigned type of `bits` bits.
  function ToUnsigned(bits: nat, n: int): nat {
    n % Pow2(bits)
  }

  predicate InSigned(bits: nat, n: int) {
    bits > 0 && -Pow2(bits - 1) <= n < Pow2(bits - 1)
  }

  // The signed ranges of the four widths.
  lemma SignedRanges(n: int)
    ensures InSigned(8, n) <==> -0x80 <= n <= 0x7F
    ensures InSigned(16, n) <==> -0x8000 <= n <= 0x7FFF
    ensures InSigned(32, n) <==> -0x8000_0000 <= n <= 0x7FFF_FFFF
    ensures InSigned(64, n) <==> -0x8000_0000_0000_0000 <= n <= 0x7FFF_FFFF_FFFF_FFFF
    ensures Pow2(8) == 0x100 && Pow2(16) == 0x1_0000
    ensures Pow2(32) == 0x1_0000_0000 && Pow2(64) == 0x1_0000_0000_0000_0000
  {
    WidthLimits();
    assert Pow2(8) == 256;
    Pow2Split(8, 8);
    assert 2 * Pow2(7) == Pow2(8) && 2 * Pow2(15) == Pow2(16) && 2 * Pow2(31) == Pow2(32) && 2 * Pow2(63) == Pow2(64);
  }

  function Magnitude(bits: nat, n: int): nat {
    if n < 0 then ToUnsigned(bits, 0 - ToUnsigned(bits, n)) else ToUnsigned(bits, n)
  }

  // Negating in the unsigned type is right for every value, the minimum included.
  lemma MagnitudeIsAbsolute(bits: nat, n: int)
    requires InSigned(bits, n)
    ensures Magnitude(bits, n) == (if n < 0 then -n else n) < Pow2(bits)
  {
    var m := Pow2(bits);
    assert m == 2 * Pow2(bits - 1);
    hide Pow2;
    Wrap(n, m);
    if n < 0 { Wrap(0 - (n + m), m); }
  }

  lemma Wrap(n: int, m: int)
    requires -m < n < m
    ensures n % m == if n < 0 then n + m else n
  {}
}

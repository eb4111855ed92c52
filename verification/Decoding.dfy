/** `decode_json_string` (parser.cpp:197-284): the method, what it decodes, and its inverse relation to escaping. */
module Decoding {
  import opened Escaping

  predicate IsHex(c: char) {
    '0' <= c <= '9' || 'a' <= c <= 'f' || 'A' <= c <= 'F'
  }

  function HexValue(c: char): (n: nat)
    requires IsHex(c)
    ensures n < 16
  {
    if c <= '9' then c as int - '0' as int
    else if 'a' <= c then c as int - 'a' as int + 10
    else c as int - 'A' as int + 10
  }

  function Hex4(s: string): (n: nat)
    requires |s| == 4 && forall i :: 0 <= i < 4 ==> IsHex(s[i])
    ensures n < 0x1_0000
  {
    4096 * HexValue(s[0]) + 256 * HexValue(s[1]) + 16 * HexValue(s[2]) + HexValue(s[3])
  }

  // The bytes written for one `\uXXXX` code point; a surrogate half gets a three-byte form of its own.
  function Utf8(code: nat): string
    requires code < 0x1_0000
  {
    if code <= 0x7F then [code as char]
    else if code <= 0x7FF then [(0xC0 + code / 64) as char, (0x80 + code % 64) as char]
    else [(0xE0 + code / 4096) as char, (0x80 + code / 64 % 64) as char, (0x80 + code % 64) as char]
  }

  datatype Unit = Unit(bytes: string, used: nat)

  predicate IsUnicodeEscape(s: string) {
    |s| >= 6 && s[0] == '\\' && s[1] == 'u' && forall i :: 2 <= i < 6 ==> IsHex(s[i])
  }

  function SimpleEscape(c: char): char {
    if c == 'n' then '\n'
    else if c == 'r' then '\r'
    else if c == 't' then '\t'
    else if c == 'b' then BACKSPACE
    else if c == 'f' then FORM_FEED
    else c
  }

  // What the head of `s` decodes to. An invalid `\u` gives a plain 'u', a lone final backslash itself.
  function Head(s: string): (u: Unit)
    requires s != ""
    ensures 1 <= |u.bytes| <= u.used <= |s|
  {
    if s[0] != '\\' || |s| == 1 then Unit([s[0]], 1)
    else if IsUnicodeEscape(s) then Unit(Utf8(Hex4(s[2..6])), 6)
    else Unit([SimpleEscape(s[1])], 2)
  }

  function Decode(s: string): string {
    if s == "" then "" else Head(s).bytes + Decode(s[Head(s).used..])
  }

  // Decoding with room for `room` bytes: a unit that does not fit is dropped, later shorter ones may still fit.
  function DecodeInto(s: string, room: nat): (r: string)
    ensures |r| <= room
    decreases |s|
  {
    if s == "" || room == 0 then ""
    else
      var u := Head(s);
      var rest := s[u.used..];
      if |u.bytes| <= room then u.bytes + DecodeInto(rest, room - |u.bytes|) else DecodeInto(rest, room)
  }

  // The four-digit loop of the 'u' case.
  method ReadHex4(input: string, i: nat) returns (valid: bool, code: nat)
    requires i + 4 < |input|
    ensures valid == forall k :: i < k <= i + 4 ==> IsHex(input[k])
    ensures valid ==> code == Hex4(input[i + 1..i + 5])
  {
    code, valid := 0, true;
    var j := 1;
    while j <= 4
      invariant 1 <= j <= 5
      invariant forall k :: i < k < i + j ==> IsHex(input[k])
      invariant j == 1 ==> code == 0
      invariant j == 2 ==> code == HexValue(input[i + 1])
      invariant j == 3 ==> code == 16 * HexValue(input[i + 1]) + HexValue(input[i + 2])
      invariant j == 4 ==> code == 256 * HexValue(input[i + 1]) + 16 * HexValue(input[i + 2]) + HexValue(input[i + 3])
      invariant j == 5 ==> code == Hex4(input[i + 1..i + 5])
    {
      var hc := input[i + j];
      if !IsHex(hc) { return false, 0; }
      code := code * 16 + HexValue(hc);
      j := j + 1;
    }
  }

  method DecodeJsonString(input: string, out: array<char>) returns (n: nat)
    modifies out
    ensures n <= out.Length
    ensures out[..n] == DecodeInto(input, out.Length)
    ensures out[n..] == old(out[n..])
  {
    hide DecodeInto, Utf8, Hex4, IsUnicodeEscape, SimpleEscape;
    n := 0;
    var i := 0;
    assert input[0..] == input;
    while i < |input| && n < out.Length
      invariant 0 <= i <= |input| && n <= out.Length
      invariant out[..n] + DecodeInto(input[i..], out.Length - n) == DecodeInto(input, out.Length)
      invariant forall k :: n <= k < out.Length ==> out[k] == old(out[k])
    {
      ghost var done, room := out[..n], out.Length - n;
      DecodeIntoStep(done, input, i, room);
      ghost var u := Head(input[i..]);
      if input[i] == '\\' && i + 1 < |input| {
        i, n := DecodeEscapeAt(input, i, out, n);
      } else {
        out[n] := input[i];
        i, n := i + 1, n + 1;
      }
      assert out[..n] == if |u.bytes| <= room then done + u.bytes else done;
    }
    DecodeIntoDone(out[..n], input[i..], out.Length - n);
  }

  lemma DecodeIntoDone(done: string, s: string, room: nat)
    requires s == "" || room == 0
    ensures done + DecodeInto(s, room) == done
  {}

  lemma DecodeIntoStep(done: string, input: string, i: nat, room: nat)
    requires i < |input| && room > 0
    ensures var u := Head(input[i..]);
      var fits := |u.bytes| <= room;
      i + u.used <= |input| &&
      done + DecodeInto(input[i..], room) ==
        (if fits then done + u.bytes else done)
        + DecodeInto(input[i + u.used..], if fits then room - |u.bytes| else room)
  {
    var u := Head(input[i..]);
    assert input[i..][u.used..] == input[i + u.used..];
    if |u.bytes| <= room {
      var r := DecodeInto(input[i + u.used..], room - |u.bytes|);
      assert done + (u.bytes + r) == (done + u.bytes) + r;
    }
  }

  // One turn of the loop on a backslash that is not the last character: the escape is consumed whole,
  // and written unless it is a code point too long for what is left of the buffer.
  method DecodeEscapeAt(input: string, at: nat, out: array<char>, head: nat) returns (i: nat, n: nat)
    requires at + 1 < |input| && input[at] == '\\' && head < out.Length
    modifies out
    ensures i == at + Head(input[at..]).used && i <= |input|
    ensures n == (if |Head(input[at..]).bytes| <= out.Length - head then head + |Head(input[at..]).bytes| else head)
    ensures out[..n] == old(out[..head]) + (if n == head then "" else Head(input[at..]).bytes)
    ensures forall k :: n <= k < out.Length ==> out[k] == old(out[k])
  {
    i, n := at + 1, head;
    ghost var s := input[at..];
    var c := input[i];
    if c == 'u' {
      if i + 4 < |input| {
        var valid, code := ReadHex4(input, i);
        assert forall k :: 2 <= k < 6 ==> s[k] == input[i - 1 + k];
        assert valid == IsUnicodeEscape(s) by {
          assert forall k :: i < k <= i + 4 ==> input[k] == s[k - i + 1];
        }
        if valid {
          assert input[i + 1..i + 5] == s[2..6];
          n := WriteUtf8(out, n, code);
          i := i + 5;
          return;
        }
      }
      out[n] := 'u';
      n := n + 1;
    } else {
      out[n] := SimpleEscape(c);
      n := n + 1;
    }
    i := i + 1;
  }

  method WriteUtf8(out: array<char>, at: nat, code: nat) returns (n: nat)
    requires at < out.Length && code < 0x1_0000
    modifies out
    ensures n == if |Utf8(code)| <= out.Length - at then at + |Utf8(code)| else at
    ensures out[..n] == old(out[..at]) + (if n == at then "" else Utf8(code))
    ensures forall k :: n <= k < out.Length ==> out[k] == old(out[k])
  {
    n := at;
    if code <= 0x7F {
      out[n] := code as char;
      n := n + 1;
    } else if code <= 0x7FF {
      if n + 1 < out.Length {
        out[n] := (0xC0 + code / 64) as char;
        out[n + 1] := (0x80 + code % 64) as char;
        n := n + 2;
      }
    } else if n + 2 < out.Length {
      out[n] := (0xE0 + code / 4096) as char;
      out[n + 1] := (0x80 + code / 64 % 64) as char;
      out[n + 2] := (0x80 + code % 64) as char;
      n := n + 3;
    }
  }

  // ---- decoding undoes escaping

  lemma DecodeEscapedChar(c: char, t: string)
    ensures Decode(EscapeChar(c) + t) == [c] + Decode(t)
  {
    var s := EscapeChar(c) + t;
    if HasShortEscape(c) {
      assert s[2..] == t;
      ShortLetterDecodes(c);
    } else if IsControl(c) {
      DecodeHexEscape(c, t);
    } else {
      assert s[1..] == t;
    }
  }

  lemma ShortLetterDecodes(c: char)
    requires HasShortEscape(c)
    ensures ShortLetter(c) != 'u' && SimpleEscape(ShortLetter(c)) == c
  {}

  lemma DecodeHexEscape(c: char, t: string)
    requires IsControl(c)
    ensures Decode(HexEscape(c) + t) == [c] + Decode(t)
  {
    hide SimpleEscape;
    var s, code := HexEscape(c) + t, c as int;
    HexDigitValue(code / 16);
    HexDigitValue(code % 16);
    assert IsUnicodeEscape(s);
    assert s[2..6] == ['0', '0', HexDigit(code / 16), HexDigit(code % 16)];
    assert Hex4(s[2..6]) == code;
    assert s[6..] == t;
    assert Head(s) == Unit([c], 6);
  }

  lemma HexDigitValue(n: nat)
    requires n < 16
    ensures IsHex(HexDigit(n)) && HexValue(HexDigit(n)) == n
  {}

  lemma {:induction false} DecodeEscape(s: string)
    ensures Decode(Escape(s)) == s
  {
    if s != "" {
      DecodeEscapedChar(s[0], Escape(s[1..]));
      DecodeEscape(s[1..]);
    }
  }

  // ---- room

  lemma {:induction false} DecodeNeverGrows(s: string)
    ensures |Decode(s)| <= |s|
  {
    if s != "" { DecodeNeverGrows(s[Head(s).used..]); }
  }

  // A buffer receives the whole decoding exactly when it has room for it.
  lemma {:induction false} DecodeIntoEnough(s: string, room: nat)
    ensures DecodeInto(s, room) == Decode(s) <==> |Decode(s)| <= room
  {
    if s != "" && room > 0 {
      var u := Head(s);
      var rest := s[u.used..];
      if |u.bytes| <= room {
        DecodeIntoEnough(rest, room - |u.bytes|);
        if DecodeInto(s, room) == Decode(s) {
          assert DecodeInto(s, room)[|u.bytes|..] == DecodeInto(rest, room - |u.bytes|);
          assert Decode(s)[|u.bytes|..] == Decode(rest);
        }
      }
    }
  }

  // Into a buffer that is too small goes the beginning of the decoding, all but the last two bytes for certain.
  lemma {:induction false} DecodeIntoAgrees(s: string, room: nat)
    requires |Decode(s)| > room
    ensures room <= |DecodeInto(s, room)| + 2
    ensures forall i :: 0 <= i < room - 2 ==> DecodeInto(s, room)[i] == Decode(s)[i]
    decreases |s|
  {
    if room > 0 {
      var u := Head(s);
      UnitLength(s);
      if |u.bytes| <= room { DecodeIntoAgrees(s[u.used..], room - |u.bytes|); }
    }
  }

  // Characters of the decoding that take one byte.
  function Singles(s: string): nat {
    if s == "" then 0 else (if |Head(s).bytes| == 1 then 1 else 0) + Singles(s[Head(s).used..])
  }

  // What does not fit is passed over: single bytes behind it still come, as long as there is room.
  lemma {:induction false} DecodeIntoFills(s: string, room: nat)
    ensures |DecodeInto(s, room)| == room || |DecodeInto(s, room)| >= Singles(s)
    decreases |s|
  {
    if s != "" && room > 0 {
      var u := Head(s);
      DecodeIntoFills(s[u.used..], if |u.bytes| <= room then room - |u.bytes| else room);
    }
  }

  lemma UnitLength(s: string)
    requires s != ""
    ensures |Head(s).bytes| <= 3
  {}

  // Section 7 of RFC 8259 both ways: scanning stops at the closing quote, decoding the body gives the string back.
  lemma EscapeRoundTrip(s: string, rest: string, room: nat)
    requires room >= |s|
    ensures BodyLength(Quoted(s)[1..] + rest) == |Escape(s)|
    ensures DecodeInto((Quoted(s)[1..] + rest)[..|Escape(s)|], room) == s
  {
    assert Quoted(s)[1..] + rest == Escape(s) + "\"" + rest;
    BodyOfEscaped(s, rest);
    assert (Escape(s) + "\"" + rest)[..|Escape(s)|] == Escape(s);
    DecodeEscape(s);
    DecodeIntoEnough(Escape(s), room);
  }

  // ---- section 3 of RFC 3629, read as a decoder

  predicate IsContinuation(c: char) {
    0x80 <= c as int < 0xC0
  }

  predicate IsSurrogate(code: int) {
    0xD800 <= code <= 0xDFFF
  }

  // The code point of a one- to three-byte UTF-8 sequence, if it is one: of the shortest form, and no surrogate.
  function Utf8Value(b: string): int {
    if |b| == 1 && b[0] as int < 0x80 then b[0] as int
    else if |b| == 2 && 0xC0 <= b[0] as int < 0xE0 && IsContinuation(b[1]) then
      var v := (b[0] as int - 0xC0) * 64 + (b[1] as int - 0x80);
      if v >= 0x80 then v else -1
    else if |b| == 3 && 0xE0 <= b[0] as int < 0xF0 && IsContinuation(b[1]) && IsContinuation(b[2]) then
      var v := (b[0] as int - 0xE0) * 4096 + (b[1] as int - 0x80) * 64 + (b[2] as int - 0x80);
      if v >= 0x800 && !IsSurrogate(v) then v else -1
    else -1
  }

  lemma ThreeBytes(code: nat)
    requires 0x800 <= code < 0x1_0000
    ensures code / 4096 * 4096 + code / 64 % 64 * 64 + code % 64 == code && code / 4096 < 16
  {
    assert code / 4096 == code / 64 / 64;
    assert code / 64 == code / 64 / 64 * 64 + code / 64 % 64;
  }

  // The bytes written for a code point are its UTF-8 form exactly if it is not a surrogate.
  lemma Utf8IsValid(code: nat)
    requires code < 0x1_0000
    ensures Utf8Value(Utf8(code)) == code <==> !IsSurrogate(code)
    ensures IsSurrogate(code) ==> Utf8Value(Utf8(code)) == -1
  {
    if code >= 0x800 { ThreeBytes(code); }
  }

  const UPPER_HEX: string := "0123456789ABCDEF"

  // The hexadecimal digits, in either case, are the positions in these two rows.
  lemma HexDigits(k: nat)
    requires k < 16
    ensures IsHex(LOWER_HEX[k]) && HexValue(LOWER_HEX[k]) == k
    ensures IsHex(UPPER_HEX[k]) && HexValue(UPPER_HEX[k]) == k
  {}

  lemma OnlyHexDigits(c: char)
    requires IsHex(c)
    ensures LOWER_HEX[HexValue(c)] == c || UPPER_HEX[HexValue(c)] == c
  {}

  predicate IsHexDigitOf(c: char, n: nat) {
    n < 16 && (c == LOWER_HEX[n] || c == UPPER_HEX[n])
  }

  // Four digits, each in either case, that spell the code.
  predicate Spells(digits: string, code: nat) {
    && |digits| == 4 && code < 0x1_0000
    && IsHexDigitOf(digits[0], code / 4096) && IsHexDigitOf(digits[1], code / 256 % 16)
    && IsHexDigitOf(digits[2], code / 16 % 16) && IsHexDigitOf(digits[3], code % 16)
  }

  lemma SpelledCode(digits: string, code: nat)
    requires Spells(digits, code)
    ensures (forall i :: 0 <= i < 4 ==> IsHex(digits[i])) && Hex4(digits) == code
  {
    hide IsHex, HexValue;
    HexDigits(code / 4096);
    HexDigits(code / 256 % 16);
    HexDigits(code / 16 % 16);
    HexDigits(code % 16);
    FourDigits(code);
  }

  lemma FourDigits(code: nat)
    requires code < 0x1_0000
    ensures 4096 * (code / 4096) + 256 * (code / 256 % 16) + 16 * (code / 16 % 16) + code % 16 == code
  {
    assert code / 256 == code / 16 / 16 && code / 4096 == code / 16 / 16 / 16;
  }

  // Every code below 0x10000, spelled in digits of either case, is decoded to its UTF-8 form whatever follows,
  // exactly if it is not a surrogate.
  lemma UnicodeEscapeIsUtf8(digits: string, code: nat, rest: string) returns (bytes: string)
    requires Spells(digits, code)
    ensures Decode("\\u" + digits + rest) == bytes + Decode(rest)
    ensures Utf8Value(bytes) == code <==> !IsSurrogate(code)
    ensures bytes == Utf8(code)
  {
    bytes := Utf8(code);
    SpelledCode(digits, code);
    DecodeUnicode(digits, rest);
    Utf8IsValid(code);
  }

  lemma DecodeUnicode(digits: string, rest: string)
    requires |digits| == 4 && forall i :: 0 <= i < 4 ==> IsHex(digits[i])
    ensures Decode("\\u" + digits + rest) == Utf8(Hex4(digits)) + Decode(rest)
  {
    var s := "\\u" + digits + rest;
    assert s[2..6] == digits && s[6..] == rest;
    assert forall i :: 2 <= i < 6 ==> s[i] == digits[i - 2];
  }

  // The other escapes, by character code; a character without a meaning of its own stands for itself.
  lemma SimpleEscapes(c: char, rest: string)
    requires c != 'u'
    ensures Decode(['\\', c] + rest) ==
      [if c == 'b' then 0x08 as char else if c == 't' then 0x09 as char else if c == 'n' then 0x0A as char
       else if c == 'f' then 0x0C as char else if c == 'r' then 0x0D as char else c] + Decode(rest)
  {
    assert (['\\', c] + rest)[2..] == rest;
  }

  predicate BeginsHex(s: string) {
    |s| >= 4 && forall i :: 0 <= i < 4 ==> IsHex(s[i])
  }

  // What is no escape: `\u` without four hexadecimal digits loses its backslash.
  lemma InvalidUnicode(rest: string)
    requires !BeginsHex(rest)
    ensures Decode(['\\', 'u'] + rest) == "u" + Decode(rest)
  {
    hide IsUnicodeEscape, Decode, BeginsHex;
    NotUnicode(rest);
    var s := ['\\', 'u'] + rest;
    DecodePair(s);
    assert s[2..] == rest;
  }

  lemma DecodePair(s: string)
    requires |s| > 1 && s[0] == '\\' && !IsUnicodeEscape(s)
    ensures Decode(s) == [SimpleEscape(s[1])] + Decode(s[2..])
  {}

  lemma NotUnicode(rest: string)
    requires !BeginsHex(rest)
    ensures !IsUnicodeEscape(['\\', 'u'] + rest)
  {
    var s := ['\\', 'u'] + rest;
    assert forall i :: 0 <= i < |rest| ==> s[i + 2] == rest[i];
    if |rest| >= 4 {
      var i :| 0 <= i < 4 && !IsHex(rest[i]);
      assert !IsHex(s[i + 2]);
    }
  }

  // A backslash at the end stays, and any other character stands for itself.
  lemma PlainCharacters(c: char, rest: string)
    ensures Decode("\\") == "\\"
    ensures c != '\\' ==> Decode([c] + rest) == [c] + Decode(rest)
  {
    assert ([c] + rest)[1..] == rest && "\\"[1..] == "";
  }

  // The halves of a surrogate pair are decoded one by one, and neither gives UTF-8.
  lemma SurrogatesAreSplit(high: string, low: string)
    requires |high| == 4 && (forall i :: 0 <= i < 4 ==> IsHex(high[i])) && IsSurrogate(Hex4(high))
    requires |low| == 4 && (forall i :: 0 <= i < 4 ==> IsHex(low[i])) && IsSurrogate(Hex4(low))
    ensures Decode("\\u" + high + ("\\u" + low + "")) == Utf8(Hex4(high)) + (Utf8(Hex4(low)) + "")
    ensures Utf8Value(Utf8(Hex4(high))) == -1 && Utf8Value(Utf8(Hex4(low))) == -1
  {
    hide Utf8, Utf8Value, Hex4;
    DecodeUnicode(high, "\\u" + low + "");
    DecodeUnicode(low, "");
    Utf8IsValid(Hex4(high));
    Utf8IsValid(Hex4(low));
  }

  // U+1F600 written as the escapes of its two halves is such a pair.
  lemma PairOfHalves()
    ensures Hex4("D83D") == 0xD83D && Hex4("DE00") == 0xDE00 && IsSurrogate(0xD83D) && IsSurrogate(0xDE00)
  {}
}

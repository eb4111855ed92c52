/** JSON string escaping (buffer.cpp, printer.cpp) and decoding (parser.cpp).
    A byte of the original is a `char`; nothing below depends on codes staying under 256. */
module Escaping {
  const BACKSPACE: char := '\U{8}'
  const FORM_FEED: char := '\U{C}'

  predicate IsControl(c: char) {
    c as int <= 0x1F
  }

  predicate NeedsEscape(c: char) {
    c == '"' || c == '\\' || IsControl(c)
  }

  // Control characters (and the two structural ones) with a two-character escape.
  predicate HasShortEscape(c: char) {
    c in {'"', '\\', BACKSPACE, FORM_FEED, '\n', '\r', '\t'}
  }

  function ShortLetter(c: char): char
    requires HasShortEscape(c)
  {
    if c == BACKSPACE then 'b'
    else if c == FORM_FEED then 'f'
    else if c == '\n' then 'n'
    else if c == '\r' then 'r'
    else if c == '\t' then 't'
    else c
  }

  function HexDigit(n: nat): char
    requires n < 16
  {
    if n < 10 then ('0' as int + n) as char else ('a' as int + n - 10) as char
  }

  // What `snprintf("\\u%04x")` yields for a code below 0x20.
  function HexEscape(c: char): string
    requires IsControl(c)
  {
    ['\\', 'u', '0', '0', HexDigit(c as int / 16), HexDigit(c as int % 16)]
  }

  function EscapeChar(c: char): (e: string)
    ensures e != ""
  {
    if HasShortEscape(c) then ['\\', ShortLetter(c)]
    else if IsControl(c) then HexEscape(c)
    else [c]
  }

  function Escape(s: string): string {
    if s == "" then "" else EscapeChar(s[0]) + Escape(s[1..])
  }

  function Quoted(s: string): string {
    "\"" + Escape(s) + "\""
  }

  predicate Clean(s: string) {
    forall i :: 0 <= i < |s| ==> !NeedsEscape(s[i])
  }

  lemma {:induction false} EscapeConcat(a: string, b: string)
    ensures Escape(a + b) == Escape(a) + Escape(b)
  {
    if a == "" {
      assert a + b == b;
    } else {
      assert (a + b)[0] == a[0] && (a + b)[1..] == a[1..] + b;
      EscapeConcat(a[1..], b);
    }
  }

  lemma EscapeAppend(s: string, c: char)
    ensures Escape(s + [c]) == Escape(s) + EscapeChar(c)
  {
    EscapeConcat(s, [c]);
    assert [c][1..] == "";
  }

  lemma {:induction false} EscapeLength(s: string)
    ensures |Escape(s)| >= |s|
  {
    if s != "" { EscapeLength(s[1..]); }
  }

  // Escaping leaves a string alone exactly when no character of it needs escaping; otherwise it grows.
  lemma {:induction false} EscapeIdentity(s: string)
    ensures Clean(s) ==> Escape(s) == s
    ensures !Clean(s) ==> |Escape(s)| > |s|
  {
    if s != "" {
      EscapeIdentity(s[1..]);
      EscapeLength(s[1..]);
      assert s == [s[0]] + s[1..];
      if Clean(s[1..]) && !NeedsEscape(s[0]) {
        assert forall i :: 0 <= i < |s| ==> s[i] == if i == 0 then s[0] else s[1..][i - 1];
      }
    }
  }

  // ---- the forms, by character code

  const LOWER_HEX: string := "0123456789abcdef"

  // What stands for one character: section 7 of RFC 8259.
  lemma EscapeForms(c: char)
    ensures c as int == 0x22 ==> EscapeChar(c) == "\\\""
    ensures c as int == 0x5C ==> EscapeChar(c) == "\\\\"
    ensures c as int == 0x08 ==> EscapeChar(c) == "\\b"
    ensures c as int == 0x0C ==> EscapeChar(c) == "\\f"
    ensures c as int == 0x0A ==> EscapeChar(c) == "\\n"
    ensures c as int == 0x0D ==> EscapeChar(c) == "\\r"
    ensures c as int == 0x09 ==> EscapeChar(c) == "\\t"
    ensures c as int < 0x20 && c as int !in {0x08, 0x09, 0x0A, 0x0C, 0x0D} ==>
      EscapeChar(c) == "\\u00" + [LOWER_HEX[c as int / 16], LOWER_HEX[c as int % 16]]
    ensures c as int >= 0x20 && c as int !in {0x22, 0x5C} ==> EscapeChar(c) == [c]
  {
    if IsControl(c) {
      LowerHexDigit(c as int / 16);
      LowerHexDigit(c as int % 16);
    }
  }

  lemma LowerHexDigit(n: nat)
    requires n < 16
    ensures HexDigit(n) == LOWER_HEX[n]
  {}

  // No control character is left.
  lemma {:induction false} EscapedIsPrintable(s: string)
    ensures forall i :: 0 <= i < |Escape(s)| ==> Escape(s)[i] as int >= 0x20
  {
    if s != "" {
      EscapeForms(s[0]);
      EscapedIsPrintable(s[1..]);
    }
  }

  // ---- the end of a string, as the parser scans for it (parser.cpp:404-411)

  function InQuotes(body: string): string {
    "\"" + body + "\""
  }

  // What may stand between quotes: the scan for the closing one stops right behind it.
  predicate IsBody(b: string) {
    BodyLength(b + "\"") == |b|
  }

  // Characters before the closing quote; the whole of `s` when there is none.
  function BodyLength(s: string): (n: nat)
    ensures n <= |s|
  {
    if s == "" || s[0] == '"' then 0
    else if s[0] == '\\' then (if |s| == 1 then 1 else 2 + BodyLength(s[2..]))
    else 1 + BodyLength(s[1..])
  }

  lemma {:induction false} BodyOfEscaped(s: string, rest: string)
    ensures BodyLength(Escape(s) + "\"" + rest) == |Escape(s)|
  {
    var tail := "\"" + rest;
    assert Escape(s) + "\"" + rest == Escape(s) + tail;
    if s == "" {
      assert Escape(s) + tail == tail;
    } else {
      var e, t := EscapeChar(s[0]), Escape(s[1..]) + tail;
      assert Escape(s) + tail == e + t;
      assert t == Escape(s[1..]) + "\"" + rest;
      BodyOfEscaped(s[1..], rest);
      BodySkipsUnit(s[0], t);
    }
  }

  lemma BodySkipsUnit(c: char, t: string)
    ensures BodyLength(EscapeChar(c) + t) == |EscapeChar(c)| + BodyLength(t)
  {
    var e := EscapeChar(c);
    if HasShortEscape(c) {
      assert (e + t)[2..] == t;
    } else if IsControl(c) {
      var w := e + t;
      assert w[2..][1..][1..][1..][1..] == t;
      BodyPlain(w[2..]);
      BodyPlain(w[3..]);
      BodyPlain(w[4..]);
      BodyPlain(w[5..]);
      assert w[2..][1..] == w[3..] && w[3..][1..] == w[4..] && w[4..][1..] == w[5..] && w[5..][1..] == t;
    } else {
      assert (e + t)[1..] == t;
    }
  }

  lemma BodyPlain(s: string)
    requires s != "" && s[0] != '"' && s[0] != '\\'
    ensures BodyLength(s) == 1 + BodyLength(s[1..])
  {}

  lemma {:induction false} BodyThenQuote(b: string, rest: string)
    requires IsBody(b)
    ensures BodyLength(b + "\"" + rest) == |b|
  {
    var t := b + "\"";
    if b != "" {
      var n := if b[0] == '\\' then 2 else 1;
      assert n <= |b|;
      assert t[n..] == b[n..] + "\"" && (t + rest)[n..] == b[n..] + "\"" + rest;
      BodyThenQuote(b[n..], rest);
    }
  }

  // What bodies there are: characters as they are, pairs of a backslash and any character, and these in a row.
  lemma {:induction false} PlainBody(b: string)
    requires forall i :: 0 <= i < |b| ==> b[i] != '"' && b[i] != '\\'
    ensures IsBody(b)
  {
    var t := b + "\"";
    if b != "" {
      assert t[1..] == b[1..] + "\"";
      PlainBody(b[1..]);
    }
  }

  lemma PairBody(c: char)
    ensures IsBody(['\\', c])
  {
    assert (['\\', c] + "\"")[2..] == "\"";
  }

  lemma {:induction false} BodyJoin(a: string, b: string)
    requires IsBody(a) && IsBody(b)
    ensures IsBody(a + b)
  {
    if a == "" {
      assert a + b == b;
    } else {
      var n := if a[0] == '\\' then 2 else 1;
      var t := a + "\"";
      assert n <= |a|;
      assert t[n..] == a[n..] + "\"" && (a + b + "\"")[n..] == a[n..] + b + "\"";
      BodyJoin(a[n..], b);
    }
  }

  // Whatever is written between quotes can be read between quotes.
  lemma EscapeIsBody(s: string)
    ensures IsBody(Escape(s)) && Quoted(s) == InQuotes(Escape(s))
  {
    BodyOfEscaped(s, "");
    assert Escape(s) + "\"" + "" == Escape(s) + "\"";
  }
}

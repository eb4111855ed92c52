/** The parser's scanners as functions of the remaining text (parser.cpp): whitespace and comments, strings,
    primitives, brackets. */
module Scanning {
  import opened Escaping
  import opened PrettyText

  predicate IsPrimitiveDelim(c: char) {
    IsSpace(c) || c == ',' || IsOpen(c) || IsClose(c)
  }

  // By code: space, tab, newline, carriage return, comma, and the four brackets.
  lemma Delimiters(c: char)
    ensures IsPrimitiveDelim(c) <==> c as int in {0x20, 0x09, 0x0A, 0x0D, 0x2C, 0x5B, 0x5D, 0x7B, 0x7D}
  {}

  // ---- whitespace and comments

  // Characters of a line comment's body; the newline is left to be skipped as whitespace.
  function LineLength(s: string): (n: nat)
    ensures n <= |s|
  {
    if s == "" || s[0] == '\n' then 0 else 1 + LineLength(s[1..])
  }

  // A block comment's body and its closing, if there is one.
  function BlockCommentLength(s: string): (n: nat)
    ensures n <= |s|
  {
    if |s| < 2 then |s|
    else if s[0] == '*' && s[1] == '/' then 2
    else 1 + BlockCommentLength(s[1..])
  }

  function SkipLength(s: string): (n: nat)
    ensures n <= |s|
    decreases |s|
  {
    if s == "" then 0
    else if IsSpace(s[0]) then 1 + SkipLength(s[1..])
    else if s[0] == '/' && |s| > 1 && s[1] == '/' then
      var n := 2 + LineLength(s[2..]);
      n + SkipLength(s[n..])
    else if s[0] == '/' && |s| > 1 && s[1] == '*' then
      var n := 2 + BlockCommentLength(s[2..]);
      n + SkipLength(s[n..])
    else 0
  }

  function Skipped(s: string): (t: string)
    ensures |t| <= |s|
  {
    s[SkipLength(s)..]
  }

  // How much one turn of the skipping loop takes.
  function SkipOne(s: string): (n: nat)
    ensures n <= |s|
  {
    if s == "" then 0
    else if IsSpace(s[0]) then 1
    else if s[0] == '/' && |s| > 1 && s[1] == '/' then 2 + LineLength(s[2..])
    else if s[0] == '/' && |s| > 1 && s[1] == '*' then 2 + BlockCommentLength(s[2..])
    else 0
  }

  lemma SkippedTurn(s: string)
    ensures Skipped(s) == if SkipOne(s) == 0 then s else Skipped(s[SkipOne(s)..])
  {
    var n := SkipOne(s);
    hide LineLength, BlockCommentLength;
    assert SkipLength(s) == if n == 0 then 0 else n + SkipLength(s[n..]);
  }

  // The four whitespace characters are skipped; no other one is, unless it may begin a comment.
  lemma WhatIsSkipped(c: char, s: string)
    ensures c as int in {0x20, 0x09, 0x0A, 0x0D} ==> Skipped([c] + s) == Skipped(s)
    ensures c as int !in {0x20, 0x09, 0x0A, 0x0D} && c != '/' ==> Skipped([c] + s) == [c] + s
  {
    assert ([c] + s)[1..] == s;
    SkippedTurn([c] + s);
  }

  // ---- tokens

  // From an opening quote through the closing one, or to the end.
  function QuoteLength(s: string): (n: nat)
    requires s != ""
    ensures 1 <= n <= |s|
  {
    var n := 1 + BodyLength(s[1..]);
    if n < |s| then n + 1 else n
  }

  function PrimitiveLength(s: string): (n: nat)
    ensures n <= |s|
  {
    if s == "" || IsPrimitiveDelim(s[0]) then 0 else 1 + PrimitiveLength(s[1..])
  }

  lemma {:induction false} PrimitiveOfText(p: string, rest: string)
    requires forall i :: 0 <= i < |p| ==> !IsPrimitiveDelim(p[i])
    requires rest == "" || IsPrimitiveDelim(rest[0])
    ensures PrimitiveLength(p + rest) == |p|
  {
    if p == "" {
      assert p + rest == rest;
    } else {
      assert (p + rest)[0] == p[0] && (p + rest)[1..] == p[1..] + rest;
      PrimitiveOfText(p[1..], rest);
    }
  }

  // ---- brackets

  // Characters up to and including the bracket that closes `depth` open ones, kind of bracket disregarded.
  function CloseLength(s: string, depth: nat): (n: nat)
    ensures n <= |s|
    decreases |s|
  {
    if s == "" then 0
    else if s[0] == '"' then
      var n := QuoteLength(s);
      n + CloseLength(s[n..], depth)
    else if IsOpen(s[0]) then 1 + CloseLength(s[1..], depth + 1)
    else if IsClose(s[0]) then (if depth <= 1 then 1 else 1 + CloseLength(s[1..], depth - 1))
    else 1 + CloseLength(s[1..], depth)
  }

  // The whole block that begins with the bracket at the head of `s`.
  function BlockLength(s: string): (n: nat)
    requires s != "" && IsOpen(s[0])
    ensures 1 <= n <= |s|
  {
    1 + CloseLength(s[1..], 1)
  }

  lemma QuoteOfBody(b: string, rest: string)
    requires IsBody(b)
    ensures QuoteLength(InQuotes(b) + rest) == |InQuotes(b)|
  {
    BodyThenQuote(b, rest);
    assert (InQuotes(b) + rest)[1..] == b + "\"" + rest;
  }

  // ---- what a stretch of text does to the scan

  // Its quotes pair up inside it.
  predicate Paired(t: string)
    decreases |t|
  {
    t == "" ||
    if t[0] == '"' then 1 + BodyLength(t[1..]) < |t| && Paired(t[QuoteLength(t)..]) else Paired(t[1..])
  }

  function Change(c: char): int {
    if IsOpen(c) then 1 else if IsClose(c) then -1 else 0
  }

  // Opening less closing brackets outside strings: at the end, and at the lowest on the way.
  function Rise(t: string): int
    decreases |t|
  {
    if t == "" then 0 else if t[0] == '"' then Rise(t[QuoteLength(t)..]) else Change(t[0]) + Rise(t[1..])
  }

  function Min(a: int, b: int): int {
    if a <= b then a else b
  }

  function Dip(t: string): (d: int)
    ensures d <= 0 && d <= Rise(t)
    decreases |t|
  {
    if t == "" then 0
    else if t[0] == '"' then Dip(t[QuoteLength(t)..])
    else Min(0, Change(t[0]) + Dip(t[1..]))
  }

  lemma {:induction false} BodyInside(b: string, s: string)
    requires BodyLength(b) < |b|
    ensures BodyLength(b + s) == BodyLength(b)
    decreases |b|
  {
    assert (b + s)[0] == b[0];
    if b[0] != '"' {
      var n := if b[0] == '\\' then 2 else 1;
      assert (b + s)[n..] == b[n..] + s;
      BodyInside(b[n..], s);
    }
  }

  lemma QuoteInside(t: string, s: string)
    requires t != "" && t[0] == '"' && 1 + BodyLength(t[1..]) < |t|
    ensures QuoteLength(t + s) == QuoteLength(t) && (t + s)[QuoteLength(t)..] == t[QuoteLength(t)..] + s
    ensures 1 + BodyLength((t + s)[1..]) < |t + s|
  {
    assert (t + s)[1..] == t[1..] + s;
    BodyInside(t[1..], s);
  }

  lemma {:induction false} RiseSplit(a: string, b: string)
    requires Paired(a)
    ensures Paired(a + b) == Paired(b) && Rise(a + b) == Rise(a) + Rise(b)
    ensures Dip(a + b) == Min(Dip(a), Rise(a) + Dip(b))
    decreases |a|
  {
    hide BodyLength, QuoteLength, Change;
    if a == "" {
      assert a + b == b;
    } else {
      assert (a + b)[0] == a[0];
      if a[0] == '"' {
        QuoteInside(a, b);
        RiseSplit(a[QuoteLength(a)..], b);
      } else {
        assert (a + b)[1..] == a[1..] + b;
        RiseSplit(a[1..], b);
      }
    }
  }

  // Scanning passes over a stretch of text exactly if the depth stays positive in it; else it ends inside.
  lemma {:induction false} ClosePaired(t: string, rest: string, depth: nat)
    requires Paired(t) && depth >= 1
    ensures depth + Dip(t) > 0 ==> CloseLength(t + rest, depth) == |t| + CloseLength(rest, depth + Rise(t))
    ensures depth + Dip(t) <= 0 ==> CloseLength(t + rest, depth) <= |t|
    decreases |t|
  {
    hide BodyLength, QuoteLength;
    if t == "" {
      assert t + rest == rest;
    } else {
      assert (t + rest)[0] == t[0] && (t + rest)[1..] == t[1..] + rest;
      if t[0] == '"' {
        QuoteInside(t, rest);
        ClosePaired(t[QuoteLength(t)..], rest, depth);
      } else if depth + Change(t[0]) > 0 {
        ClosePaired(t[1..], rest, depth + Change(t[0]));
      }
    }
  }

  lemma CloseMoves(s: string, depth: nat)
    ensures s != "" ==> CloseLength(s, depth) > 0
  {}

  // A string that does not end in `u` goes on behind it.
  lemma {:induction false} OpenString(u: string, s: string)
    requires BodyLength(u) == |u|
    ensures BodyLength(u + s) >= |u|
    decreases |u|
  {
    if u == "" {
      assert u + s == s;
    } else {
      assert (u + s)[0] == u[0];
      var n := if u[0] == '\\' then 2 else 1;
      if n <= |u| {
        assert (u + s)[n..] == u[n..] + s;
        OpenString(u[n..], s);
      }
    }
  }

  lemma {:induction false} OpenMore(u: string, r: char)
    requires BodyLength(u) == |u| && r != '"'
    ensures BodyLength(u + [r]) == |u| + 1
    decreases |u|
  {
    if u == "" {
      assert u + [r] == [r] && [r][1..] == "";
    } else {
      assert (u + [r])[0] == u[0];
      var n := if u[0] == '\\' then 2 else 1;
      assert (u + [r])[n..] == if n <= |u| then u[n..] + [r] else "";
      if n <= |u| { OpenMore(u[n..], r); }
    }
  }

  lemma OpenQuote(t: string, r: char, rest: string)
    requires t != "" && t[0] == '"' && 1 + BodyLength(t[1..]) == |t| && r != '"'
    ensures QuoteLength(t + ([r] + rest)) >= |t| + 1 + if rest == "" then 0 else 1
  {
    var u := t[1..];
    OpenMore(u, r);
    OpenString(u + [r], rest);
    assert (t + ([r] + rest))[1..] == (u + [r]) + rest;
  }

  // Over a stretch whose last quote has no partner the scan runs into what follows, unless it ends before.
  lemma {:induction false} CloseUnpaired(t: string, r: char, rest: string, depth: nat)
    requires !Paired(t) && depth >= 1 && r != '"'
    ensures depth + Dip(t) > 0 ==>
      CloseLength(t + ([r] + rest), depth) >= |t| + 1 + if rest == "" then 0 else 1
    ensures depth + Dip(t) <= 0 ==> CloseLength(t + ([r] + rest), depth) <= |t|
    decreases |t|
  {
    var more := [r] + rest;
    assert (t + more)[0] == t[0] && (t + more)[1..] == t[1..] + more;
    if t[0] == '"' && 1 + BodyLength(t[1..]) < |t| {
      QuoteInside(t, more);
      CloseUnpaired(t[QuoteLength(t)..], r, rest, depth);
    } else if t[0] == '"' {
      OpenQuote(t, r, rest);
      assert QuoteLength(t) == |t| && Dip(t) == 0;
      assert CloseLength(t + more, depth) >= QuoteLength(t + more);
    } else if depth + Change(t[0]) > 0 {
      CloseUnpaired(t[1..], r, rest, depth + Change(t[0]));
    }
  }

  // A block is captured to its closing bracket exactly if the brackets inside never close more than has been
  // opened, and come out even with all quotes paired, or there is nothing behind it.
  lemma BlockExactly(l: char, inner: string, r: char, rest: string)
    requires IsOpen(l) && IsClose(r)
    ensures var t := [l] + inner + [r] + rest;
      BlockLength(t) == |inner| + 2 <==> Dip(inner) == 0 && ((Paired(inner) && Rise(inner) == 0) || rest == "")
  {
    if !Paired(inner) {
      BlockRunsOn(l, inner, r, rest);
    } else if Dip(inner) == 0 {
      BlockPasses(l, inner, r, rest);
    } else {
      BlockEndsEarly(l, inner, r, rest);
    }
  }

  lemma BlockRunsOn(l: char, inner: string, r: char, rest: string)
    requires IsOpen(l) && IsClose(r) && !Paired(inner)
    ensures var n := BlockLength([l] + inner + [r] + rest);
      if Dip(inner) < 0 then n < |inner| + 2 else if rest == "" then n == |inner| + 2 else n > |inner| + 2
  {
    hide CloseLength, BlockLength, Paired, Dip;
    BlockOpens(l, inner, r, rest);
    CloseUnpaired(inner, r, rest, 1);
    NotLonger(inner + ([r] + rest), 1);
  }

  lemma NotLonger(s: string, depth: nat)
    ensures CloseLength(s, depth) <= |s|
  {}

  lemma BlockPasses(l: char, inner: string, r: char, rest: string)
    requires IsOpen(l) && IsClose(r) && Paired(inner) && Dip(inner) == 0
    ensures var n := BlockLength([l] + inner + [r] + rest);
      if Rise(inner) == 0 || rest == "" then n == |inner| + 2 else n > |inner| + 2
  {
    hide CloseLength, BlockLength, Paired, Dip, Rise;
    BlockOpens(l, inner, r, rest);
    ClosePaired(inner, [r] + rest, 1);
    OwnBracket(r, rest, 1 + Rise(inner));
  }

  lemma BlockEndsEarly(l: char, inner: string, r: char, rest: string)
    requires IsOpen(l) && Paired(inner) && Dip(inner) < 0
    ensures BlockLength([l] + inner + [r] + rest) < |inner| + 2
  {
    hide CloseLength, BlockLength, Paired, Dip, Rise;
    BlockOpens(l, inner, r, rest);
    ClosePaired(inner, [r] + rest, 1);
  }

  lemma BlockOpens(l: char, inner: string, r: char, rest: string)
    requires IsOpen(l)
    ensures BlockLength([l] + inner + [r] + rest) == 1 + CloseLength(inner + ([r] + rest), 1)
  {
    assert ([l] + inner + [r] + rest)[1..] == inner + ([r] + rest);
  }

  lemma OwnBracket(r: char, rest: string, depth: nat)
    requires IsClose(r) && depth >= 1
    ensures CloseLength([r] + rest, depth) == if depth == 1 then 1 else 1 + CloseLength(rest, depth - 1)
    ensures depth > 1 ==> if rest == "" then CloseLength([r] + rest, depth) == 1 else CloseLength([r] + rest, depth) > 1
  {
    assert ([r] + rest)[1..] == rest;
    if depth > 1 { CloseMoves(rest, depth - 1); }
  }

  // A quote without a partner makes a string of everything up to the next quote.
  lemma CloseLoneQuote(a: string, u: string, depth: nat)
    requires Paired(a) && depth + Dip(a) > 0
    ensures var q := "\"" + u;
      CloseLength(a + q, depth) == |a| + QuoteLength(q) + CloseLength(q[QuoteLength(q)..], depth + Rise(a))
  {
    ClosePaired(a, "\"" + u, depth);
  }

  predicate NoBrackets(g: string) {
    forall i :: 0 <= i < |g| ==> g[i] != '"' && !IsOpen(g[i]) && !IsClose(g[i])
  }

  lemma {:induction false} NoBracketsIsFlat(g: string)
    requires NoBrackets(g)
    ensures Paired(g) && Rise(g) == 0 && Dip(g) == 0
  {
    if g != "" { NoBracketsIsFlat(g[1..]); }
  }

  lemma BodyIsFlat(b: string)
    requires IsBody(b)
    ensures Paired(InQuotes(b)) && Rise(InQuotes(b)) == 0 && Dip(InQuotes(b)) == 0
  {
    QuoteOfBody(b, "");
    var q := InQuotes(b);
    assert q + "" == q && q[1..] == b + "\"" && q[|q|..] == "";
  }

  // ---- the scanners themselves

  // `capture_structural_value`'s look-ahead (parser.cpp:338-365): one flag for strings, `end` may pass the end
  // of the text by one after a final backslash.
  method CaptureEnd(json: string, i: nat) returns (end: nat)
    requires i < |json| && IsOpen(json[i])
    ensures (if end <= |json| then end else |json|) == i + BlockLength(json[i..])
  {
    hide Ahead, BlockLength;
    ghost var total := i + BlockLength(json[i..]);
    AheadEnds(json, i, i, 0, false);
    end := i;
    var braceDepth, inStr := 0, false;
    while end < |json|
      invariant i <= end <= |json| + 1
      invariant end == i ==> braceDepth == 0 && !inStr
      invariant end > i ==> braceDepth >= 1 && total == Ahead(json, end, braceDepth, inStr)
      decreases |json| - end
    {
      var ec := json[end];
      if inStr {
        StringAhead(json, end, braceDepth);
        if ec == '\\' {
          end := end + 1;
        } else if ec == '"' {
          inStr := false;
        }
      } else {
        if end > i { TokenAhead(json, end, braceDepth); }
        if ec == '"' {
          inStr := true;
        } else if IsOpen(ec) {
          braceDepth := braceDepth + 1;
        } else if IsClose(ec) {
          braceDepth := braceDepth - 1;
          if braceDepth == 0 {
            end := end + 1;
            break;
          }
        }
      }
      end := end + 1;
    }
    AheadEnds(json, i, end, braceDepth, inStr);
  }

  // Where the block ends, seen from position `at`.
  ghost function Ahead(json: string, at: nat, depth: nat, inStr: bool): nat {
    if at >= |json| then |json|
    else if inStr then
      var n := BodyLength(json[at..]);
      var next := if at + n < |json| then at + n + 1 else |json|;
      next + CloseLength(json[next..], depth)
    else at + CloseLength(json[at..], depth)
  }

  lemma StringAhead(json: string, at: nat, depth: nat)
    requires at < |json|
    ensures json[at] == '\\' ==> Ahead(json, at, depth, true) == Ahead(json, at + 2, depth, true)
    ensures json[at] == '"' ==> Ahead(json, at, depth, true) == Ahead(json, at + 1, depth, false)
    ensures json[at] != '\\' && json[at] != '"' ==> Ahead(json, at, depth, true) == Ahead(json, at + 1, depth, true)
  {
    hide CloseLength;
    var s := json[at..];
    if json[at] == '\\' && |s| > 1 {
      assert s[2..] == json[at + 2..];
      assert at + 2 == |json| ==> json[|json|..] == "";
    } else {
      assert s[1..] == json[at + 1..];
      assert at + 1 == |json| ==> json[|json|..] == "";
    }
  }

  lemma TokenAhead(json: string, at: nat, depth: nat)
    requires at < |json| && depth >= 1
    ensures json[at] == '"' ==> Ahead(json, at, depth, false) == Ahead(json, at + 1, depth, true)
    ensures IsOpen(json[at]) ==> Ahead(json, at, depth, false) == Ahead(json, at + 1, depth + 1, false)
    ensures IsClose(json[at]) ==>
      Ahead(json, at, depth, false) == if depth == 1 then at + 1 else Ahead(json, at + 1, depth - 1, false)
    ensures json[at] != '"' && !IsOpen(json[at]) && !IsClose(json[at]) ==>
      Ahead(json, at, depth, false) == Ahead(json, at + 1, depth, false)
  {
    var s := json[at..];
    assert s[1..] == json[at + 1..];
    if json[at] == '"' {
      var n := QuoteLength(s);
      assert s[n..] == json[at + n..];
    }
  }

  lemma AheadEnds(s: string, i: nat, at: nat, depth: nat, inStr: bool)
    requires i < |s| && IsOpen(s[i])
    ensures at >= |s| ==> Ahead(s, at, depth, inStr) == |s|
    ensures Ahead(s, i + 1, 1, false) == i + BlockLength(s[i..])
  {
    assert s[i..][1..] == s[i + 1..];
    assert i + 1 == |s| ==> s[|s|..] == "";
  }

  // The bracket matcher of `next_array_token` (parser.cpp:159-181): two loops and a moving pointer.
  method MatchBracket(s: string) returns (end: nat)
    requires s != "" && IsOpen(s[0])
    ensures end == BlockLength(s)
  {
    hide Ahead, BlockLength;
    assert s[0..] == s;
    AheadEnds(s, 0, |s|, 0, false);
    var ptr, depth := 0, 0;
    while ptr < |s|
      invariant 0 <= ptr <= |s|
      invariant ptr == 0 ==> depth == 0
      invariant ptr > 0 ==> depth >= 1 && Ahead(s, ptr, depth, false) == BlockLength(s)
    {
      var c := s[ptr];
      if ptr > 0 { TokenAhead(s, ptr, depth); }
      ptr := ptr + 1;
      if c == '"' {
        ptr := SkipString(s, ptr, depth);
      } else if IsOpen(c) {
        depth := depth + 1;
      } else if IsClose(c) {
        depth := depth - 1;
        if depth == 0 { break; }
      }
    }
    end := ptr;
    AheadEnds(s, 0, ptr, depth, false);
  }

  method SkipString(s: string, at: nat, ghost depth: nat) returns (ptr: nat)
    requires at <= |s|
    ensures at <= ptr <= |s| && Ahead(s, ptr, depth, false) == Ahead(s, at, depth, true)
  {
    ptr := at;
    while ptr < |s|
      invariant at <= ptr <= |s|
      invariant Ahead(s, ptr, depth, true) == Ahead(s, at, depth, true)
    {
      StringAhead(s, ptr, depth);
      var sc := s[ptr];
      ptr := ptr + 1;
      if sc == '\\' {
        if ptr < |s| { ptr := ptr + 1; }
      } else if sc == '"' {
        break;
      }
    }
  }
}

/** Writing strings, integers and printed text into a buffer (buffer.cpp:14-101, document.cpp:129-168,
    printer.cpp:15-94). */
module Writers {
  import opened Escaping
  import opened Integers
  import opened PrettyText
  import opened Buffers
  import opened JsonValues

  method NeedsEscaping(str: string) returns (b: bool)
    ensures b == !Clean(str)
  {
    for i := 0 to |str|
      invariant forall k :: 0 <= k < i ==> !NeedsEscape(str[k])
    {
      if NeedsEscape(str[i]) { return true; }
    }
    return false;
  }

  method PutQuoted(a: array<char>, at: nat, str: string)
    requires at + |str| + 2 <= a.Length
    modifies a
    ensures a[..at + |str| + 2] == old(a[..at]) + ("\"" + str + "\"")
  {
    a[at] := '"';
    forall k | 0 <= k < |str| {
      a[at + 1 + k] := str[k];
    }
    a[at + |str| + 1] := '"';
  }

  // What a call leaves behind, and whether it reports success.
  datatype Outcome = Outcome(snap: Snap, ok: bool)

  function Piece(s: Snap, text: string): Outcome {
    Outcome(Wrote(s, text), Takes(s, text))
  }

  function Flushed(s: Snap, run: string): Outcome {
    if run == "" then Outcome(s, true) else Piece(s, run)
  }

  // The run-flushing loop behind the opening quote: `run` is what has been scanned and not written yet.
  function EscapedRest(s: Snap, run: string, rest: string): Outcome
    decreases |rest|
  {
    if rest != "" && !NeedsEscape(rest[0]) then EscapedRest(s, run + [rest[0]], rest[1..])
    else
      var f := Flushed(s, run);
      if !f.ok then f
      else if rest == "" then Piece(f.snap, "\"")
      else
        var e := Piece(f.snap, EscapeChar(rest[0]));
        if !e.ok then e else EscapedRest(e.snap, "", rest[1..])
  }

  function EscapedSlowly(s: Snap, str: string): Outcome {
    var q := Piece(s, "\"");
    if !q.ok then q else EscapedRest(q.snap, "", str)
  }

  // `write_escaped`, failures included: what has been written before a failing piece stays.
  function PutEscaped(s: Snap, str: string): Outcome {
    if s.bad then Outcome(s, false)
    else if Clean(str) && Takes(s, Quoted(str)) then Piece(s, Quoted(str))
    else EscapedSlowly(s, str)
  }

  // ---- what that amounts to

  function Tail(run: string, rest: string): string {
    run + Escape(rest) + "\""
  }

  lemma FlushedAfter(s: Snap, run: string)
    requires Within(s)
    ensures After(s, run, Flushed(s, run).snap) && Flushed(s, run).snap.bad == (s.bad || !Flushed(s, run).ok)
  {
    if run == "" { AfterNothing(s); } else { WroteAfter(s, run); }
  }

  lemma TailMoves(run: string, rest: string)
    requires rest != ""
    ensures !NeedsEscape(rest[0]) ==> Tail(run + [rest[0]], rest[1..]) == Tail(run, rest)
    ensures Tail(run, rest) == run + (EscapeChar(rest[0]) + Tail("", rest[1..]))
  {
    var e, more := EscapeChar(rest[0]), Escape(rest[1..]);
    assert Escape(rest) == e + more;
    hide Escape, EscapeChar;
    assert "" + more + "\"" == more + "\"";
    Assoc(run, e + more, "\"");
    Assoc(e, more, "\"");
    if !NeedsEscape(rest[0]) {
      assert e == [rest[0]];
      Assoc(run, e, more);
    }
  }

  lemma {:induction false} EscapedRestAfter(s: Snap, run: string, rest: string)
    requires Within(s)
    ensures var o := EscapedRest(s, run, rest);
      After(s, Tail(run, rest), o.snap) && o.snap.bad == (s.bad || !o.ok)
    decreases |rest|
  {
    hide After, Wrote, Takes, Tail, Flushed;
    if rest != "" { TailMoves(run, rest); }
    if rest != "" && !NeedsEscape(rest[0]) {
      EscapedRestAfter(s, run + [rest[0]], rest[1..]);
    } else {
      var f := Flushed(s, run);
      FlushedAfter(s, run);
      AfterWithin(s, run, f.snap);
      if rest == "" {
        TailEnds(run);
        JoinPiece(s, run, f, "\"");
      } else {
        var e := Piece(f.snap, EscapeChar(rest[0]));
        var more := Tail("", rest[1..]);
        TailHead(run, EscapeChar(rest[0]), more);
        JoinPiece(s, run, f, EscapeChar(rest[0]));
        if f.ok {
          JoinRest(s, run + EscapeChar(rest[0]), e, more);
          if e.ok {
            PieceWithin(f.snap, EscapeChar(rest[0]));
            EscapedRestAfter(e.snap, "", rest[1..]);
            AfterJoin(s, run + EscapeChar(rest[0]), e.snap, more, EscapedRest(e.snap, "", rest[1..]).snap);
          }
        } else {
          JoinRest(s, run, f, EscapeChar(rest[0]) + more);
        }
      }
    }
  }

  lemma TailEnds(run: string)
    ensures Tail(run, "") == run + "\""
  {}

  lemma TailHead(run: string, e: string, more: string)
    ensures run + (e + more) == (run + e) + more
  {}

  lemma AfterWithin(s: Snap, text: string, t: Snap)
    requires After(s, text, t)
    ensures Within(t)
  {}

  lemma PieceWithin(s: Snap, text: string)
    requires Within(s)
    ensures Within(Piece(s, text).snap)
  {}

  // One more piece, if what was before it has been taken.
  lemma JoinPiece(s: Snap, done: string, f: Outcome, text: string)
    requires After(s, done, f.snap) && f.snap.bad == (s.bad || !f.ok)
    ensures var o := if f.ok then Piece(f.snap, text) else f;
      After(s, done + text, o.snap) && o.snap.bad == (s.bad || !o.ok)
  {
    if f.ok {
      WroteAfter(f.snap, text);
      AfterJoin(s, done, f.snap, text, Wrote(f.snap, text));
    } else {
      FailedForGood(s, done, f.snap, done + text);
    }
  }

  // After a failure the rest has failed too.
  lemma JoinRest(s: Snap, done: string, f: Outcome, rest: string)
    requires After(s, done, f.snap) && f.snap.bad == (s.bad || !f.ok)
    ensures !f.ok ==> After(s, done + rest, f.snap)
  {
    if !f.ok { FailedForGood(s, done, f.snap, done + rest); }
  }

  lemma EscapedSlowlyAfter(s: Snap, str: string)
    requires Within(s)
    ensures var o := EscapedSlowly(s, str);
      After(s, Quoted(str), o.snap) && o.snap.bad == (s.bad || !o.ok)
  {
    var q, more := Piece(s, "\""), Tail("", str);
    WroteAfter(s, "\"");
    assert Quoted(str) == "\"" + more;
    if q.ok {
      EscapedRestAfter(q.snap, "", str);
      AfterJoin(s, "\"", q.snap, more, EscapedRest(q.snap, "", str).snap);
    } else {
      FailedForGood(s, "\"", q.snap, Quoted(str));
    }
  }

  // The string is written whole, or the call and the buffer have failed.
  lemma PutEscapedAfter(s: Snap, str: string)
    requires Within(s)
    ensures var o := PutEscaped(s, str);
      After(s, Quoted(str), o.snap) && o.snap.bad == !o.ok
  {
    EscapedSlowlyAfter(s, str);
    WroteAfter(s, Quoted(str));
  }

  // Where there is room the pieces come to the same as one write: the fast path is no different.
  lemma SlowIsFast(s: Snap, str: string)
    requires Within(s) && !s.bad && Takes(s, Quoted(str))
    ensures EscapedSlowly(s, str) == Piece(s, Quoted(str))
  {
    hide EscapedSlowly, Render, Next;
    EscapedSlowlyAfter(s, str);
    AfterGood(s, Quoted(str), EscapedSlowly(s, str).snap);
  }

  lemma {:induction false} EscapedRestGrows(s: Snap, run: string, rest: string)
    ensures |EscapedRest(s, run, rest).snap.content| >= |s.content|
    decreases |rest|
  {
    if rest != "" && !NeedsEscape(rest[0]) {
      EscapedRestGrows(s, run + [rest[0]], rest[1..]);
    } else if rest != "" {
      var f := Flushed(s, run);
      var e := Piece(f.snap, EscapeChar(rest[0]));
      if f.ok && e.ok { EscapedRestGrows(e.snap, "", rest[1..]); }
    }
  }

  lemma PutEscapedGrows(s: Snap, str: string)
    ensures |PutEscaped(s, str).snap.content| >= |s.content|
  {
    EscapedRestGrows(Wrote(s, "\""), "", str);
  }

  // ---- the methods

  // Between tokens, unless a pretty buffer's destination has failed: then its mode may be any.
  predicate Ready(s: Snap) {
    Within(s) && if s.shape.Indented? && s.bad then s.limit.AtMost? else Outside(s.shape)
  }

  // The text goes into the destination as it is.
  predicate GoesRaw(s: Snap, text: string) {
    Fits(s.limit, |s.content| + |text|)
  }

  function Raw(s: Snap, text: string): Snap {
    s.(content := s.content + text)
  }

  lemma RawAmounts(s: Snap, text: string)
    requires Within(s) && GoesRaw(s, text) && (s.bad || (Outside(s.shape) && Render(s.shape, text) == text))
    requires !s.bad ==> Next(s.shape, text) == s.shape
    ensures Amounts(s, text, Raw(s, text))
  {}

  // The fast path: quotes and content in one span, when the span is long enough.
  method WriteQuotedRaw(sink: Sink, str: string) returns (n: nat)
    requires sink.Valid()
    modifies sink.Repr()
    ensures sink.Valid() && fresh(sink.Repr() - old(sink.Repr()))
    ensures n == 0 ==> sink.Snap() == old(sink.Snap())
    ensures n == 0 ==> sink.Target().OnHeap? || !GoesRaw(old(sink.Snap()), "\"" + str + "\"")
    ensures n > 0 ==> GoesRaw(old(sink.Snap()), "\"" + str + "\"")
    ensures n > 0 ==> sink.Snap() == Raw(old(sink.Snap()), "\"" + str + "\"")
  {
    hide Render, Next, InString, Settled;
    var span := sink.GetWriteSpan();
    var total := |str| + 2;
    if total > span.len { return 0; }
    PutQuoted(span.data, span.off, str);
    sink.Commit(total);
    n := total;
  }

  // A run or an escape, unless there is nothing to flush.
  method WriteRun(sink: Sink, run: string) returns (ok: bool)
    requires sink.Valid() && Bearable(sink.Snap(), run)
    modifies sink.Repr()
    ensures sink.Valid() && fresh(sink.Repr() - old(sink.Repr()))
    ensures Admits(old(sink.Snap()), run) ==> Outcome(sink.Snap(), ok) == Flushed(old(sink.Snap()), run)
    ensures Amounts(old(sink.Snap()), run, sink.Snap()) && (!ok ==> sink.Snap().bad)
  {
    if run == "" {
      AmountsNothing(sink.Snap());
      return true;
    }
    BearableIsBounded(sink.Snap(), run);
    var n := sink.Write(run);
    ok := n != 0;
  }

  // `t` is where the loop stands when `done` has been written of the quoted string: exactly, where all of it fits.
  predicate Standing(s: Snap, str: string, done: string, t: Snap, run: string, rest: string) {
    && done + Tail(run, rest) == Quoted(str) && Amounts(s, done, t)
    && (Admits(s, Quoted(str)) ==> EscapedRest(t, run, rest) == EscapedSlowly(s, str))
  }

  // And where it has ended.
  predicate Ended(s: Snap, str: string, t: Snap, ok: bool) {
    && Amounts(s, Quoted(str), t) && (!ok ==> t.bad)
    && (Admits(s, Quoted(str)) ==> Outcome(t, ok) == EscapedSlowly(s, str))
  }

  // A piece of what is still to be written.
  method WritePiece(sink: Sink, piece: string, ghost s: Snap, ghost str: string, ghost done: string, ghost more: string)
    returns (ok: bool)
    requires sink.Valid() && Bearable(s, Quoted(str)) && done + (piece + more) == Quoted(str)
    requires Amounts(s, done, sink.Snap())
    modifies sink.Repr()
    ensures sink.Valid() && fresh(sink.Repr() - old(sink.Repr()))
    ensures Admits(s, Quoted(str)) ==> Outcome(sink.Snap(), ok) == Flushed(old(sink.Snap()), piece)
    ensures Amounts(s, done + piece, sink.Snap()) && (!ok ==> sink.Snap().bad)
    ensures !ok ==> Amounts(s, Quoted(str), sink.Snap())
  {
    hide Admits, Amounts, Bearable, Wrote, Takes, Sink.Snap, Sink.Valid, Quoted;
    ghost var t := sink.Snap();
    BearableRest(s, done, t, piece + more);
    BearableSplit(t, piece, more);
    AdmitsFirst(t, piece, more);
    ok := WriteRun(sink, piece);
    AmountsJoin(s, done, t, piece, sink.Snap());
    Assoc(done, piece, more);
    if !ok { AmountsStop(s, done + piece, sink.Snap(), more); }
  }

  lemma AdmitsFirst(s: Snap, a: string, b: string)
    ensures Admits(s, a + b) ==> Admits(s, a)
  {
    if Admits(s, a + b) { AdmitsSplit(s, a, b); }
  }

  // The run before a character, and the character's escape.
  method WriteEscape(sink: Sink, run: string, c: char, ghost rest: string, ghost s: Snap, ghost str: string,
                     ghost done: string)
    returns (ok: bool, ghost done': string)
    requires sink.Valid() && rest != "" && rest[0] == c && NeedsEscape(c) && Bearable(s, Quoted(str))
    requires Standing(s, str, done, sink.Snap(), run, rest)
    modifies sink.Repr()
    ensures sink.Valid() && fresh(sink.Repr() - old(sink.Repr()))
    ensures if ok then Standing(s, str, done', sink.Snap(), "", rest[1..]) else Ended(s, str, sink.Snap(), false)
  {
    hide Admits, Amounts, Bearable, Wrote, Takes, Sink.Snap, Sink.Valid, EscapeChar, Quoted, Tail;
    var e := EscapeChar(c);
    ghost var more := Tail("", rest[1..]);
    TailMoves(run, rest);
    ok := WritePiece(sink, run, s, str, done, e + more);
    done' := done + run;
    if !ok { return; }
    EscapeNotEmpty(c);
    Assoc(done, run, e + more);
    ok := WritePiece(sink, e, s, str, done', more);
    Assoc(done', e, more);
    done' := done' + e;
  }

  lemma EscapeNotEmpty(c: char)
    ensures EscapeChar(c) != ""
  {}

  // The run-flushing loop: `start` is the first character not written yet.
  method WriteEscapedSlowly(sink: Sink, str: string) returns (ok: bool)
    requires sink.Valid() && Bearable(sink.Snap(), Quoted(str))
    modifies sink.Repr()
    ensures sink.Valid() && fresh(sink.Repr() - old(sink.Repr()))
    ensures Ended(old(sink.Snap()), str, sink.Snap(), ok)
  {
    hide Admits, Amounts, Bearable, Wrote, Takes, Sink.Snap, Sink.Valid, EscapeChar, NeedsEscape, Tail, Quoted;
    ghost var s, done := sink.Snap(), "\"";
    BeginQuoted(s, str);
    ok := WritePiece(sink, "\"", s, str, "", Tail("", str));
    if !ok { return; }
    var start, i := 0, 0;
    assert str[0..0] == "" && str[0..] == str && "" + done == done;
    while i < |str|
      invariant 0 <= start <= i <= |str|
      invariant sink.Valid() && fresh(sink.Repr() - old(sink.Repr()))
      invariant Standing(s, str, done, sink.Snap(), str[start..i], str[i..])
    {
      assert str[i..][0] == str[i] && str[i..][1..] == str[i + 1..];
      if NeedsEscape(str[i]) {
        ok, done := WriteEscape(sink, str[start..i], str[i], str[i..], s, str, done);
        if !ok { return; }
        start := i + 1;
        assert str[start..i + 1] == "";
      } else {
        TailMoves(str[start..i], str[i..]);
        assert str[start..i + 1] == str[start..i] + [str[i]];
      }
      i := i + 1;
    }
    assert str[i..] == "";
    TailEnds(str[start..i]);
    ok := WritePiece(sink, str[start..i], s, str, done, "\"");
    if !ok { return; }
    Assoc(done, str[start..i], "\"");
    assert "\"" + "" == "\"";
    ok := WritePiece(sink, "\"", s, str, done + str[start..i], "");
    assert done + str[start..i] + "\"" == Quoted(str);
  }

  lemma BeginQuoted(s: Snap, str: string)
    requires Bearable(s, Quoted(str))
    ensures "" + ("\"" + Tail("", str)) == Quoted(str) && "\"" + Tail("", str) == Quoted(str)
    ensures Within(s) ==> Amounts(s, "", s)
  {
    if Within(s) { AmountsNothing(s); }
  }

  method WriteEscaped(sink: Sink, str: string) returns (ok: bool)
    requires sink.Valid() && Ready(sink.Snap()) && Bearable(sink.Snap(), Quoted(str))
    modifies sink.Repr()
    ensures sink.Valid() && fresh(sink.Repr() - old(sink.Repr()))
    ensures Admits(old(sink.Snap()), Quoted(str)) ==> Outcome(sink.Snap(), ok) == PutEscaped(old(sink.Snap()), str)
    ensures Amounts(old(sink.Snap()), Quoted(str), sink.Snap()) && (!ok ==> sink.Snap().bad)
    ensures old(sink.Bad()) ==> !ok && sink.Snap() == old(sink.Snap())
  {
    hide EscapedSlowly, Takes, Wrote, Quoted, Amounts, Bearable;
    ghost var s := sink.Snap();
    if sink.Bad() {
      AmountsFailed(s, Quoted(str));
      return false;
    }
    var needsEscaping := NeedsEscaping(str);
    if !needsEscaping {
      var n := WriteQuotedRaw(sink, str);
      QuotedRaw(s, str);
      if n > 0 { return true; }
      if sink.Target().OnHeap? && !s.bad {
        NoLimitTakes(s, Quoted(str));
        SlowIsFast(s, str);
      }
    }
    ok := WriteEscapedSlowly(sink, str);
  }

  // The quoted string as it is: the same as writing it, between tokens.
  lemma QuotedRaw(s: Snap, str: string)
    requires Ready(s) && Clean(str)
    ensures Quoted(str) == "\"" + str + "\""
    ensures GoesRaw(s, Quoted(str)) ==> Amounts(s, Quoted(str), Raw(s, Quoted(str)))
    ensures Outside(s.shape) ==> GoesRaw(s, Quoted(str)) == Takes(s, Quoted(str))
    ensures Outside(s.shape) && GoesRaw(s, Quoted(str)) ==> Raw(s, Quoted(str)) == Wrote(s, Quoted(str))
  {
    EscapeIdentity(str);
    if Outside(s.shape) { RenderQuoted(s.shape, str); }
    hide Quoted;
    if GoesRaw(s, Quoted(str)) { RawAmounts(s, Quoted(str)); }
  }

  lemma NoLimitTakes(s: Snap, text: string)
    requires s.limit.NoLimit?
    ensures Takes(s, text)
  {}

  // ---- integers

  // Text that goes into the span whole or not at all, and not into a buffer that has failed.
  function PutRaw(s: Snap, text: string): Snap {
    if s.bad then s else Wrote(s, text)
  }

  lemma PutRawAfter(s: Snap, text: string)
    requires Within(s)
    ensures After(s, text, PutRaw(s, text))
  {}

  // Committing `text` as it is, or failing for lack of room, is writing it.
  lemma RawIsWrote(s: Snap, text: string)
    requires Unstructured(text) && Outside(s.shape)
    ensures Takes(s, text) == Fits(s.limit, |s.content| + |text|)
    ensures Wrote(s, text) == if Takes(s, text) then s.(content := s.content + text) else s.(bad := true)
  {
    RenderUnstructured(s.shape, text);
  }

  method PutNumber(a: array<char>, at: nat, neg: bool, digits: nat, magnitude: nat)
    requires digits == |Decimal(magnitude)|
    requires at + digits + (if neg then 1 else 0) <= a.Length
    modifies a
    ensures a[..at + digits + (if neg then 1 else 0)]
      == old(a[..at]) + ((if neg then "-" else "") + Decimal(magnitude))
  {
    var len := digits + if neg then 1 else 0;
    FillDigits(a, at + len, magnitude);
    if neg { a[at] := '-'; }
    assert a[at + len - digits..at + len] == Decimal(magnitude);
  }

  // The common end of `write_unsigned` and `write_signed`: into the span, or not at all.
  method WriteNumber(sink: Sink, neg: bool, digits: nat, magnitude: nat)
    requires digits == |Decimal(magnitude)| <= 20
    requires sink.Valid() && sink.Roomy()
    modifies sink.Repr()
    ensures sink.Valid() && fresh(sink.Repr() - old(sink.Repr()))
    ensures var text := (if neg then "-" else "") + Decimal(magnitude);
      sink.Snap() == if GoesRaw(old(sink.Snap()), text) then Raw(old(sink.Snap()), text)
        else old(sink.Snap()).(bad := true)
  {
    hide Render, Next, InString, Settled, Decimal;
    ghost var text := (if neg then "-" else "") + Decimal(magnitude);
    assert "" + Decimal(magnitude) == Decimal(magnitude);
    var span := sink.GetWriteSpan();
    var len := digits + if neg then 1 else 0;
    assert len == |text|;
    if len > span.len {
      sink.Fail();
    } else {
      CommitNumber(sink, span, neg, digits, magnitude);
    }
  }

  // Digits and sign are put into the span and committed.
  method CommitNumber(sink: Sink, span: Span, neg: bool, digits: nat, magnitude: nat)
    requires digits == |Decimal(magnitude)|
    requires sink.Valid() && span.data == sink.Target().Memory() && span.off == sink.Length()
    requires span.off + digits + (if neg then 1 else 0) <= span.data.Length
    requires Fits(sink.Target().Limit(), sink.Length() + digits + if neg then 1 else 0)
    modifies sink.Target().Repr()
    ensures sink.Valid() && sink.Repr() == old(sink.Repr())
    ensures sink.Snap() == Raw(old(sink.Snap()), (if neg then "-" else "") + Decimal(magnitude))
  {
    hide Decimal;
    PutNumber(span.data, span.off, neg, digits, magnitude);
    sink.Commit(digits + if neg then 1 else 0);
  }

  // Between tokens that is writing the text; in any state it amounts to it.
  lemma NumberAmounts(s: Snap, text: string, t: Snap)
    requires Ready(s) && Unstructured(text)
    requires t == if GoesRaw(s, text) then Raw(s, text) else s.(bad := true)
    ensures Amounts(s, text, t) && (Admits(s, text) ==> t == Wrote(s, text))
  {
    if Outside(s.shape) {
      RawIsWrote(s, text);
      RenderUnstructured(s.shape, text);
    }
    if GoesRaw(s, text) { RawAmounts(s, text); }
  }

  lemma NotFailed(s: Snap, text: string)
    requires s.shape.Plain? ==> !s.bad
    ensures Admits(s, text) ==> !s.bad
  {}

  method WriteUnsigned(sink: Sink, bits: nat, value: nat)
    requires bits <= 64 && value < Pow2(bits)
    requires sink.Valid() && sink.Roomy() && Ready(sink.Snap())
    modifies sink.Repr()
    ensures sink.Valid() && fresh(sink.Repr() - old(sink.Repr()))
    ensures Admits(old(sink.Snap()), Decimal(value)) ==> sink.Snap() == PutRaw(old(sink.Snap()), Decimal(value))
    ensures Amounts(old(sink.Snap()), Decimal(value), sink.Snap())
    ensures old(sink.Bad()) ==> sink.Snap() == old(sink.Snap())
  {
    hide Wrote, Amounts, Admits;
    ghost var s := sink.Snap();
    if sink.Bad() {
      AmountsFailed(s, Decimal(value));
      return;
    }
    NumDigitsIsLength(bits, value);
    DecimalUnstructured(value);
    assert "" + Decimal(value) == Decimal(value);
    WriteNumber(sink, false, NumDigits(bits, value), value);
    NumberAmounts(s, Decimal(value), sink.Snap());
    NotFailed(s, Decimal(value));
  }

  method WriteSigned(sink: Sink, bits: nat, value: int)
    requires bits <= 64 && InSigned(bits, value)
    requires sink.Valid() && sink.Roomy() && Ready(sink.Snap())
    modifies sink.Repr()
    ensures sink.Valid() && fresh(sink.Repr() - old(sink.Repr()))
    ensures Admits(old(sink.Snap()), IntText(value)) ==> sink.Snap() == PutRaw(old(sink.Snap()), IntText(value))
    ensures Amounts(old(sink.Snap()), IntText(value), sink.Snap())
    ensures old(sink.Bad()) ==> sink.Snap() == old(sink.Snap())
  {
    hide Wrote, Amounts, Admits;
    ghost var s := sink.Snap();
    if sink.Bad() {
      AmountsFailed(s, IntText(value));
      return;
    }
    var neg, uval := value < 0, Magnitude(bits, value);
    MagnitudeIsAbsolute(bits, value);
    NumDigitsIsLength(bits, uval);
    DecimalUnstructured(uval);
    assert "" + Decimal(uval) == Decimal(uval);
    WriteNumber(sink, neg, NumDigits(bits, uval), uval);
    NumberAmounts(s, IntText(value), sink.Snap());
    NotFailed(s, IntText(value));
  }
}

/** `Printer::vprint` (printer.cpp:15-94): formatted text goes straight into the buffer's span and is escaped
    there, backwards, in place. The formatting itself is a parameter. */
module Printing {
  import opened Escaping
  import opened PrettyText
  import opened Buffers

  // What `vsnprintf` would produce, or its failure.
  datatype Formatted = Text(text: string) | FormatError

  // As much of the text as the span holds, and a terminator.
  method Vsnprintf(a: array<char>, at: nat, size: nat, f: Formatted) returns (written: int)
    requires at + size <= a.Length && size > 0
    modifies a
    ensures f.FormatError? ==> written == -1
    ensures f.Text? ==> written == |f.text| && (|f.text| < size ==> a[at..at + |f.text|] == f.text)
    ensures forall k :: 0 <= k < a.Length && !(at <= k < at + size) ==> a[k] == old(a[k])
  {
    if f.FormatError? { return -1; }
    var n := if |f.text| < size then |f.text| else size - 1;
    forall k | 0 <= k < n {
      a[at + k] := f.text[k];
    }
    a[at + n] := '\0';
    written := |f.text|;
  }

  // The counting pass: how many characters escaping adds.
  method CountExtra(a: array<char>, at: nat, len: nat) returns (extra: nat)
    requires at + len <= a.Length
    ensures len + extra == |Escape(a[at..at + len])|
  {
    extra := 0;
    var i := 0;
    assert a[at..at] == "";
    while i < len
      invariant 0 <= i <= len
      invariant i + extra == |Escape(a[at..at + i])|
    {
      var c := a[at + i];
      EscapeAppend(a[at..at + i], c);
      assert a[at..at + i + 1] == a[at..at + i] + [c];
      if HasShortEscape(c) {
        extra := extra + 1;
      } else if IsControl(c) {
        extra := extra + 5;
      }
      i := i + 1;
    }
  }

  // Writes `e` so that it ends at `last`, from its last character to its first.
  method PutBackwards(a: array<char>, e: string, last: int) returns (next: int)
    requires |e| - 1 <= last < a.Length
    modifies a
    ensures next == last - |e|
    ensures a[next + 1..last + 1] == e
    ensures forall k :: 0 <= k < a.Length && !(next < k <= last) ==> a[k] == old(a[k])
  {
    next := last;
    var j := |e| - 1;
    while j >= 0
      invariant -1 <= j < |e| && next == last - (|e| - 1 - j)
      invariant forall k :: next < k <= last ==> a[k] == e[k - last + |e| - 1]
      invariant forall k :: 0 <= k < a.Length && !(next < k <= last) ==> a[k] == old(a[k])
    {
      a[next] := e[j];
      next := next - 1;
      j := j - 1;
    }
  }

  // How far the second pass is: `read` is the last character not escaped yet, `write` where its escape ends.
  ghost predicate Halfway(a: array<char>, at: nat, src: string, read: int, write: int, end: nat)
    reads a
  {
    && -1 <= read < |src| && read <= write < end && at + end <= a.Length
    && write + 1 == |Escape(src[..read + 1])|
    && (forall k :: 0 <= k <= read ==> a[at + k] == src[k])
    && a[at + write + 1..at + end] == Escape(src[read + 1..])
  }

  // One character: its escape is written behind everything that is still to be read.
  method ExpandOne(a: array<char>, at: nat, ghost src: string, read: nat, write: nat, end: nat) returns (next: int)
    requires Halfway(a, at, src, read, write, end)
    modifies a
    ensures Halfway(a, at, src, read - 1, next, end)
    ensures forall k :: 0 <= k < a.Length && !(at <= k < at + end) ==> a[k] == old(a[k])
  {
    hide Escape, EscapeChar;
    ghost var done := a[at + write + 1..at + end];
    SplitAt(src, read);
    var c := a[at + read];
    var last := PutBackwards(a, EscapeChar(c), at + write);
    assert a[last + 1..at + end] == EscapeChar(c) + done;
    next := last - at;
  }

  // The second pass. The writing index never falls below the reading index, so nothing is overwritten unread.
  method ExpandInPlace(a: array<char>, at: nat, len: nat, extra: nat)
    requires 0 < len && at + len + extra <= a.Length
    requires len + extra == |Escape(a[at..at + len])|
    modifies a
    ensures a[at..at + len + extra] == Escape(old(a[at..at + len]))
    ensures forall k :: 0 <= k < a.Length && !(at <= k < at + len + extra) ==> a[k] == old(a[k])
  {
    hide Escape, EscapeChar;
    ghost var src := a[at..at + len];
    var read, write: int := len - 1, len + extra - 1;
    assert src[..len] == src && src[len..] == "";
    SplitNone();
    while true
      invariant 0 <= read && Halfway(a, at, src, read, write, len + extra)
      invariant forall k :: 0 <= k < a.Length && !(at <= k < at + len + extra) ==> a[k] == old(a[k])
      decreases read
    {
      write := ExpandOne(a, at, src, read, write, len + extra);
      if read == 0 { break; }
      read := read - 1;
    }
    assert src[0..] == src && src[..0] == "";
  }

  lemma SplitNone()
    ensures Escape("") == ""
  {}

  lemma SplitAt(src: string, i: nat)
    requires i < |src|
    ensures |Escape(src[..i])| + |EscapeChar(src[i])| == |Escape(src[..i + 1])|
    ensures Escape(src[i..]) == EscapeChar(src[i]) + Escape(src[i + 1..])
    ensures |Escape(src[..i])| >= i
  {
    assert src[..i + 1] == src[..i] + [src[i]];
    EscapeAppend(src[..i], src[i]);
    EscapeLength(src[..i]);
    assert src[i..][1..] == src[i + 1..];
  }

  function Output(escaped: bool, text: string): string {
    if escaped then Escape(text) else text
  }

  lemma PlainOrEscaped(text: string)
    ensures Output(false, text) == text && Output(true, text) == Escape(text)
  {}

  // What is in the span after formatting becomes the output, if that fits.
  method EscapeSpan(a: array<char>, at: nat, len: nat, size: nat, escaped: bool) returns (total: nat)
    requires len <= size && at + size <= a.Length
    modifies a
    ensures total == |Output(escaped, old(a[at..at + len]))|
    ensures total <= size ==> a[at..at + total] == Output(escaped, old(a[at..at + len]))
    ensures forall k :: 0 <= k < a.Length && !(at <= k < at + size) ==> a[k] == old(a[k])
  {
    if !escaped { return len; }
    var extra := CountExtra(a, at, len);
    total := len + extra;
    if extra > 0 {
      if total > size { return; }
      ExpandInPlace(a, at, len, extra);
    } else {
      EscapeIdentity(a[at..at + len]);
    }
  }

  // The formatted text must leave one cell of the span for its terminator, and its output must fit.
  predicate Printable(f: Formatted, escaped: bool, room: nat) {
    f.Text? && |f.text| < room && |Output(escaped, f.text)| <= room
  }

  // Formats into the span and escapes there; -1 when that fails.
  method FormatInto(a: array<char>, at: nat, size: nat, escaped: bool, f: Formatted) returns (total: int)
    requires at + size <= a.Length
    modifies a
    ensures !Printable(f, escaped, size) ==> total == -1
    ensures Printable(f, escaped, size) ==>
      total == |Output(escaped, f.text)| && a[..at + total] == old(a[..at]) + Output(escaped, f.text)
    ensures a[..at] == old(a[..at])
  {
    hide Output;
    if size == 0 { return -1; }
    ghost var before := a[..at];
    var written := Vsnprintf(a, at, size, f);
    if written < 0 || written >= size { return -1; }
    assert a[..at] == before && a[at..at + written] == f.text;
    total := EscapeSpan(a, at, written, size, escaped);
    assert a[..at] == before;
    if total > size { return -1; }
    assert a[..at + total] == a[..at] + a[at..at + total];
  }

  // `room` is the span the buffer offers: all that is left of a StackBuffer, at least `expandSize` of a
  // DynamicBuffer.
  method VPrint(sink: Sink, escaped: bool, f: Formatted) returns (n: nat, ghost room: nat)
    requires sink.Valid()
    modifies sink.Repr()
    ensures sink.Valid() && fresh(sink.Repr() - old(sink.Repr()))
    ensures old(sink.Bad()) ==> n == 0 && sink.Snap() == old(sink.Snap())
    ensures !old(sink.Bad()) && sink.Target().OnStack? ==> room == sink.Target().stack.maxSize - old(sink.Length())
    ensures !old(sink.Bad()) && sink.Target().OnHeap? ==> room >= sink.Target().heap.expandSize
    ensures !old(sink.Bad()) && Printable(f, escaped, room) ==>
      n == |Output(escaped, f.text)| &&
      sink.Snap() == old(sink.Snap()).(content := old(sink.Snap()).content + Output(escaped, f.text))
    ensures !old(sink.Bad()) && !Printable(f, escaped, room) ==>
      n == 0 && sink.Snap() == old(sink.Snap()).(bad := true)
    ensures !old(sink.Bad()) && !escaped && f.Text? && |f.text| < room ==>
      n == |f.text| && sink.Snap() == old(sink.Snap()).(content := old(sink.Snap()).content + f.text)
    ensures !old(sink.Bad()) && escaped && f.Text? && |f.text| < room && |Escape(f.text)| <= room ==>
      n == |Escape(f.text)| &&
      sink.Snap() == old(sink.Snap()).(content := old(sink.Snap()).content + Escape(f.text))
    ensures !old(sink.Bad()) && (f.Text? ==> |f.text| >= room || (escaped && |Escape(f.text)| > room)) ==>
      n == 0 && sink.Snap() == old(sink.Snap()).(bad := true)
  {
    if f.Text? { PlainOrEscaped(f.text); }
    n, room := 0, 0;
    if sink.Bad() { return; }
    hide Output;
    var span := sink.GetWriteSpan();
    room := span.len;
    var total := FormatInto(span.data, span.off, span.len, escaped, f);
    if total < 0 {
      sink.Fail();
    } else {
      sink.Commit(total);
      n := total;
    }
  }

  // Printing inside a string appends exactly the body `write_escaped` gives for the same text, in a pretty
  // buffer as in a plain one, and leaves the string state alone.
  lemma PrintedIsEscaped(s: Snap, text: string, t: Snap)
    requires t == s.(content := s.content + Output(true, text)) && Within(t)
    requires s.shape.Indented? ==> s.shape.mode.inString && !s.shape.mode.escapeNext
    ensures After(s, Escape(text), t)
    ensures "\"" + Output(true, text) + "\"" == Quoted(text)
  {
    RenderEscaped(s.shape, text);
  }
}

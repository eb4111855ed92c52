/** The output buffers (buffer.hpp, dynamic_buffer.hpp, pretty_buffer.hpp): what each holds, what one write does to
    it, and one relation, `After`, that says what any sequence of writes amounts to. */
module Buffers {
  import opened PrettyText

  // Room in the final destination: a StackBuffer's MaxSize, or none to speak of.
  datatype Limit = AtMost(max: nat) | NoLimit

  predicate Fits(limit: Limit, n: nat) {
    limit.NoLimit? || n <= limit.max
  }

  // What can be seen of a buffer: the text committed to its destination, whether it or the destination has
  // failed, the limit, and how it renders what is written to it.
  datatype Snap = Snapshot(content: string, bad: bool, limit: Limit, shape: Shape)

  predicate Within(s: Snap) {
    Fits(s.limit, |s.content|)
  }

  // `text` has been written between `s` and `t`: failure is sticky and exact, success leaves the rendered text.
  predicate After(s: Snap, text: string, t: Snap) {
    && t.limit == s.limit
    && (t.shape.Plain? <==> s.shape.Plain?)
    && Within(t)
    && t.bad == (s.bad || !Fits(s.limit, |s.content| + |Render(s.shape, text)|))
    && (!t.bad ==> t.content == s.content + Render(s.shape, text) && t.shape == Next(s.shape, text))
  }

  // A pretty buffer is written to only while nothing fails and its indentation stays countable.
  predicate Admits(s: Snap, text: string) {
    s.shape.Indented? ==>
      !s.bad && Bounded(s.shape, text) && Fits(s.limit, |s.content| + |Render(s.shape, text)|)
  }

  lemma AdmittedIsTaken(s: Snap, text: string)
    requires Admits(s, text)
    ensures s.shape.Plain? || Takes(s, text)
  {}

  lemma AfterNothing(s: Snap)
    requires Within(s)
    ensures After(s, "", s)
  {
    assert s.content + "" == s.content;
  }

  lemma AfterJoin(s: Snap, a: string, t: Snap, b: string, u: Snap)
    requires After(s, a, t) && After(t, b, u)
    ensures After(s, a + b, u)
  {
    hide Render, Next;
    RenderSplit(s.shape, a, b);
    if !u.bad {
      Assoc(s.content, Render(s.shape, a), Render(t.shape, b));
    }
  }

  lemma FailedForGood(s: Snap, done: string, t: Snap, whole: string)
    requires After(s, done, t) && t.bad && done <= whole
    ensures After(s, whole, t)
  {
    hide Render, Next;
    assert whole == done + whole[|done|..];
    RenderSplit(s.shape, done, whole[|done|..]);
  }

  // ---- the same exactly, failures included

  predicate Takes(s: Snap, text: string) {
    Fits(s.limit, |s.content| + |Render(s.shape, text)|)
  }

  // One write: all of the text, or none and the failure flag. A buffer that has failed before goes on taking
  // what fits.
  function Wrote(s: Snap, text: string): Snap {
    if Takes(s, text) then s.(content := s.content + Render(s.shape, text), shape := Next(s.shape, text))
    else s.(bad := true)
  }

  lemma WroteAfter(s: Snap, text: string)
    requires Within(s)
    ensures After(s, text, Wrote(s, text))
  {}

  // Without failure there is only one outcome.
  lemma AfterGood(s: Snap, text: string, t: Snap)
    requires After(s, text, t) && !t.bad
    ensures !s.bad && Takes(s, text) && t == Wrote(s, text)
  {}

  lemma AdmitsSplit(s: Snap, a: string, b: string)
    requires Admits(s, a + b)
    ensures Admits(s, a) && Admits(Wrote(s, a), b)
  {
    hide Render, Next, Bounded;
    NextKind(s.shape, a);
    RenderSplit(s.shape, a, b);
  }

  lemma NextKind(shape: Shape, a: string)
    ensures Next(shape, a).Plain? <==> shape.Plain?
  {}

  // ---- what holds of a pretty buffer whose destination fails, too

  predicate InReach(shape: Shape, text: string) {
    shape.Indented? ==> shape.indent * (shape.mode.depth + Opens(text)) <= 255
  }

  // The text fits and its indentation stays countable, or stays so whatever mode the buffer is in.
  predicate Bearable(s: Snap, text: string) {
    Admits(s, text) || InReach(s.shape, text)
  }

  predicate Deeper(shape: Shape, text: string, next: Shape) {
    shape.Indented? && next.Indented? ==>
      next.indent == shape.indent && next.mode.depth <= shape.mode.depth + Opens(text)
  }

  // Writing `text`, as far as it can be told where not all of it is taken.
  predicate Amounts(s: Snap, text: string, t: Snap) {
    After(s, text, t) && |s.content| <= |t.content| && Deeper(s.shape, text, t.shape)
  }

  lemma AmountsNothing(s: Snap)
    requires Within(s)
    ensures Amounts(s, "", s)
  {
    AfterNothing(s);
  }

  lemma AmountsJoin(s: Snap, a: string, t: Snap, b: string, u: Snap)
    requires Amounts(s, a, t) && Amounts(t, b, u)
    ensures Amounts(s, a + b, u)
  {
    hide Render, Next, Opens;
    AfterJoin(s, a, t, b, u);
    OpensSplit(a, b);
  }

  lemma AmountsStop(s: Snap, a: string, t: Snap, b: string)
    requires Amounts(s, a, t) && t.bad
    ensures Amounts(s, a + b, t)
  {
    hide Render, Next, Opens;
    FailedForGood(s, a, t, a + b);
    OpensSplit(a, b);
  }

  lemma AmountsFailed(s: Snap, text: string)
    requires Within(s) && s.bad
    ensures Amounts(s, text, s)
  {}

  lemma BearableSplit(s: Snap, a: string, b: string)
    requires Bearable(s, a + b)
    ensures Bearable(s, a)
  {
    hide Render, Next, Bounded, Opens;
    if Admits(s, a + b) {
      AdmitsSplit(s, a, b);
    } else if s.shape.Indented? {
      OpensSplit(a, b);
      Shallower(s.shape.indent, s.shape.mode.depth + Opens(a), s.shape.mode.depth + Opens(a + b));
    }
  }

  lemma BearableRest(s: Snap, a: string, t: Snap, b: string)
    requires Bearable(s, a + b) && Amounts(s, a, t)
    ensures Bearable(t, b) && (Admits(s, a + b) ==> Admits(s, a) && Admits(t, b))
  {
    hide Render, Next, Bounded, Opens;
    if Admits(s, a + b) {
      AdmitsSplit(s, a, b);
      if s.shape.Indented? { AfterGood(s, a, t); }
    } else if s.shape.Indented? {
      OpensSplit(a, b);
      Shallower(s.shape.indent, t.shape.mode.depth + Opens(b), s.shape.mode.depth + Opens(a + b));
    }
  }

  lemma BearableIsBounded(s: Snap, text: string)
    requires Bearable(s, text)
    ensures Bounded(s.shape, text)
  {
    if !Admits(s, text) { FewOpens(s.shape.indent, s.shape.mode, text); }
  }

  // Several writes to a destination in turn, whatever becomes of the single ones: without failure all of `text` is
  // there; otherwise what was there before still is.
  predicate Landed(s: Snap, text: string, t: Snap) {
    && t.limit == s.limit && t.shape == s.shape == Plain && Within(t)
    && s.content <= t.content
    && t.bad == (s.bad || !Takes(s, text))
    && (Takes(s, text) ==> t.content == s.content + text)
  }

  lemma LandedNothing(s: Snap)
    requires Within(s) && s.shape.Plain?
    ensures Landed(s, "", s)
  {
    assert s.content + "" == s.content;
  }

  lemma LandedJoin(s: Snap, a: string, t: Snap, b: string, u: Snap)
    requires Landed(s, a, t) && Landed(t, b, u)
    ensures Landed(s, a + b, u)
  {
    Assoc(s.content, a, b);
  }

  lemma LandedGrows(s: Snap, text: string, t: Snap)
    requires Landed(s, text, t)
    ensures |t.content| >= |s.content| && (Takes(s, text) ==> |t.content| == |s.content| + |text|)
  {}

  // Where one write fails, so does the whole.
  lemma LandedStops(s: Snap, done: string, t: Snap, run: string, u: Snap, whole: string)
    requires Landed(s, done, t) && Landed(t, run, u) && !Takes(t, run) && done + run <= whole
    ensures Landed(s, whole, u) && !Takes(s, whole)
  {
    assert |done + run| <= |whole|;
  }

  // Writable memory behind a buffer's head.
  datatype Span = Span(data: array<char>, off: nat, len: nat)

  class StackBuffer {
    const maxSize: nat
    const buffer: array<char>  // one more, for a terminator
    var head: nat
    var bad: bool

    ghost predicate Valid()
      reads this
    {
      buffer.Length == maxSize + 1 && head <= maxSize
    }

    constructor (maxSize: nat)
      ensures Valid() && fresh(buffer) && this.maxSize == maxSize && head == 0 && !bad
    {
      this.maxSize := maxSize;
      buffer := new char[maxSize + 1](i => '\0');
      head, bad := 0, false;
    }

    method Clear()
      requires Valid()
      modifies this
      ensures Valid() && head == 0 && !bad
    {
      head, bad := 0, false;
    }

    method Write(str: string) returns (n: nat)
      requires Valid()
      modifies this, buffer
      ensures Valid()
      ensures bad == (old(bad) || old(head) + |str| > maxSize)
      ensures old(head) + |str| > maxSize ==> n == 0 && head == old(head) && buffer[..] == old(buffer[..])
      ensures old(head) + |str| <= maxSize ==>
        n == |str| && head == old(head) + |str| && buffer[..head] == old(buffer[..head]) + str
    {
      if head + |str| > maxSize {
        bad := true;
        return 0;
      }
      forall k | 0 <= k < |str| {
        buffer[head + k] := str[k];
      }
      head := head + |str|;
      return |str|;
    }

    method GetWriteSpan() returns (span: Span)
      requires Valid()
      ensures span == Span(buffer, head, maxSize - head)
    {
      span := if head >= maxSize then Span(buffer, head, 0) else Span(buffer, head, maxSize - head);
    }

    method Commit(count: nat)
      requires Valid() && head + count <= maxSize
      modifies `head
      ensures Valid() && head == old(head) + count
    {
      head := head + count;
    }
  }

  class DynamicBuffer {
    const expandSize: nat
    var buffer: array<char>
    var head: nat
    var bad: bool

    ghost predicate Valid()
      reads this
    {
      head <= buffer.Length
    }

    constructor (expandSize: nat := 256)
      ensures Valid() && fresh(buffer) && this.expandSize == expandSize && head == 0 && !bad
    {
      this.expandSize := expandSize;
      buffer := new char[expandSize](i => '\0');
      head, bad := 0, false;
    }

    method Resize(size: nat)
      requires Valid() && head <= size
      modifies `buffer
      ensures Valid() && fresh(buffer) && buffer.Length == size
      ensures buffer[..head] == old(buffer[..head])
    {
      var bigger := new char[size](i => '\0');
      forall k | 0 <= k < size && k < buffer.Length {
        bigger[k] := buffer[k];
      }
      buffer := bigger;
    }

    method Write(str: string) returns (n: nat)
      requires Valid()
      modifies `buffer, `head, buffer
      ensures Valid() && fresh({buffer} - {old(buffer)})
      ensures n == |str| && head == old(head) + |str|
      ensures buffer[..head] == old(buffer[..head]) + str
    {
      if head + |str| > buffer.Length {
        Resize(head + |str| + expandSize);
      }
      ghost var kept := buffer[..head];
      forall k | 0 <= k < |str| {
        buffer[head + k] := str[k];
      }
      head := head + |str|;
      assert buffer[..head] == kept + str;
      return |str|;
    }

    method GetWriteSpan() returns (span: Span)
      requires Valid()
      modifies `buffer
      ensures Valid() && fresh({buffer} - {old(buffer)})
      ensures span == Span(buffer, head, buffer.Length - head) && span.len >= expandSize
      ensures buffer[..head] == old(buffer[..head])
    {
      if buffer.Length - head < expandSize {
        Resize(head + expandSize);
      }
      span := Span(buffer, head, buffer.Length - head);
    }

    method Commit(count: nat)
      requires Valid() && head + count <= buffer.Length
      modifies `head
      ensures Valid() && head == old(head) + count
    {
      head := head + count;
    }
  }

  // A plain `Buffer&`: the virtual calls go to one of the two storage buffers.
  datatype Dest = OnStack(stack: StackBuffer) | OnHeap(heap: DynamicBuffer)
  {
    ghost function Repr(): set<object>
      reads if OnStack? then stack else heap
    {
      if OnStack? then {stack, stack.buffer} else {heap, heap.buffer}
    }

    ghost predicate Valid()
      reads if OnStack? then stack else heap
    {
      if OnStack? then stack.Valid() else heap.Valid()
    }

    ghost function Memory(): array<char>
      reads if OnStack? then stack else heap
    {
      if OnStack? then stack.buffer else heap.buffer
    }

    function Length(): nat
      reads if OnStack? then stack else heap
    {
      if OnStack? then stack.head else heap.head
    }

    ghost function Limit(): Limit {
      if OnStack? then AtMost(stack.maxSize) else NoLimit
    }

    ghost function Contents(): (s: string)
      requires Valid()
      reads if OnStack? then stack else heap, Memory()
      ensures |s| == Length()
    {
      Memory()[..Length()]
    }

    predicate Bad()
      reads if OnStack? then stack else heap
    {
      if OnStack? then stack.bad else heap.bad
    }

    ghost function Seen(): (s: Snap)
      requires Valid()
      reads if OnStack? then stack else heap, Memory()
      ensures Within(s) && s.shape.Plain?
    {
      Snapshot(Contents(), Bad(), Limit(), Plain)
    }

    method Fail()
      requires Valid()
      modifies Repr()
      ensures Valid() && Repr() == old(Repr()) && Bad() && Contents() == old(Contents())
    {
      if OnStack? { stack.bad := true; } else { heap.bad := true; }
    }

    method Write(str: string) returns (n: nat)
      requires Valid()
      modifies Repr()
      ensures Valid() && fresh(Repr() - old(Repr()))
      ensures Bad() == (old(Bad()) || !Fits(Limit(), |old(Contents())| + |str|))
      ensures Fits(Limit(), |old(Contents())| + |str|) ==> n == |str| && Contents() == old(Contents()) + str
      ensures !Fits(Limit(), |old(Contents())| + |str|) ==> n == 0 && Contents() == old(Contents())
    {
      if OnStack? {
        n := stack.Write(str);
      } else {
        n := heap.Write(str);
      }
    }

    method GetWriteSpan() returns (span: Span)
      requires Valid()
      modifies Repr()
      ensures Valid() && fresh(Repr() - old(Repr()))
      ensures Contents() == old(Contents()) && Bad() == old(Bad())
      ensures span.data == Memory() && span.off == Length() && span.off + span.len <= span.data.Length
      ensures OnStack? ==> span.len == stack.maxSize - |Contents()|
      ensures OnHeap? ==> span.len >= heap.expandSize
    {
      if OnStack? {
        span := stack.GetWriteSpan();
      } else {
        span := heap.GetWriteSpan();
      }
    }

    method Commit(count: nat)
      requires Valid() && Fits(Limit(), Length() + count) && Length() + count <= Memory().Length
      modifies Repr()
      ensures Valid() && Repr() == old(Repr()) && Bad() == old(Bad())
      ensures Contents() == old(Memory()[..Length() + count])
    {
      if OnStack? {
        stack.Commit(count);
      } else {
        heap.Commit(count);
      }
    }
  }

  class PrettyBuffer {
    const dest: Dest
    const indentSize: nat  // `uint8_t`
    var depth: nat         // `uint8_t`
    var inString: bool
    var escapeNext: bool
    var bad: bool

    ghost predicate Valid()
      reads this, dest.Repr()
    {
      dest.Valid() && this !in dest.Repr()
    }

    ghost function Mode(): Mode
      reads this
    {
      PrettyText.Mode(inString, escapeNext, depth)
    }

    ghost function Repr(): set<object>
      reads if dest.OnStack? then dest.stack else dest.heap
    {
      {this} + dest.Repr()
    }

    constructor (dest: Dest, indentSize: nat := 2)
      requires dest.Valid()
      ensures Valid() && this.dest == dest && this.indentSize == indentSize
      ensures Mode() == PrettyText.Mode(false, false, 0) && !bad
    {
      this.dest, this.indentSize := dest, indentSize;
      depth, inString, escapeNext, bad := 0, false, false, false;
    }

    // One write to the destination.
    method Pass(str: string) returns (n: nat)
      requires Valid()
      modifies dest.Repr()
      ensures Valid() && fresh(dest.Repr() - old(dest.Repr()))
      ensures Landed(old(dest.Seen()), str, dest.Seen())
      ensures n == if Takes(old(dest.Seen()), str) then |str| else 0
    {
      n := dest.Write(str);
    }

    // The loop counts in a `uint8_t`: past 255 it would not end.
    method WriteIndent()
      requires Valid() && indentSize * depth <= 255
      modifies dest.Repr()
      ensures Valid() && fresh(dest.Repr() - old(dest.Repr()))
      ensures Landed(old(dest.Seen()), Spaces(indentSize * depth), dest.Seen())
    {
      hide Dest.Seen, Landed, Takes;
      ghost var s := dest.Seen();
      LandedNothing(s);
      assert Spaces(0) == "";
      var i := 0;
      while i < indentSize * depth
        invariant 0 <= i <= indentSize * depth
        invariant Valid() && fresh(dest.Repr() - old(dest.Repr()))
        invariant Landed(s, Spaces(i), dest.Seen())
      {
        ghost var t := dest.Seen();
        var n := Pass(" ");
        LandedJoin(s, Spaces(i), t, " ", dest.Seen());
        assert Spaces(i) + " " == Spaces(i + 1);
        i := i + 1;
      }
    }

    method WriteOpen(c: char)
      requires Valid() && (c == '{' || c == '[')
      requires indentSize * ((depth + 1) % 256) <= 255
      modifies `depth, dest.Repr()
      ensures Valid() && fresh(dest.Repr() - old(dest.Repr())) && depth == (old(depth) + 1) % 256
      ensures Landed(old(dest.Seen()), [c, '\n'] + Spaces(indentSize * depth), dest.Seen())
    {
      hide Dest.Contents, Dest.Bad, Landed, Takes, Spaces;
      ghost var s := dest.Seen();
      var n := Pass(if c == '{' then "{\n" else "[\n");
      label Opened:
      ghost var t := dest.Seen();
      depth := (depth + 1) % 256;
      assert dest.Memory() == old@Opened(dest.Memory()) && dest.Seen() == t;
      WriteIndent();
      LandedJoin(s, [c, '\n'], t, Spaces(indentSize * depth), dest.Seen());
    }

    method WriteClose(c: char)
      requires Valid() && (c == '}' || c == ']')
      requires depth > 0 ==> indentSize * (depth - 1) <= 255
      modifies `depth, dest.Repr()
      ensures Valid() && fresh(dest.Repr() - old(dest.Repr()))
      ensures depth == if old(depth) > 0 then old(depth) - 1 else 0
      ensures Landed(old(dest.Seen()), "\n" + Spaces(indentSize * depth) + [c], dest.Seen())
    {
      hide Dest.Contents, Dest.Bad, Landed, Takes, Spaces;
      ghost var s := dest.Seen();
      var n := Pass("\n");
      label Broken:
      ghost var t := dest.Seen();
      if depth > 0 { depth := depth - 1; }
      assert dest.Memory() == old@Broken(dest.Memory()) && dest.Seen() == t;
      WriteIndent();
      LandedJoin(s, "\n", t, Spaces(indentSize * depth), dest.Seen());
      t := dest.Seen();
      n := Pass(if c == '}' then "}" else "]");
      LandedJoin(s, "\n" + Spaces(indentSize * depth), t, [c], dest.Seen());
    }

    method WriteComma()
      requires Valid() && indentSize * depth <= 255
      modifies dest.Repr()
      ensures Valid() && fresh(dest.Repr() - old(dest.Repr()))
      ensures Landed(old(dest.Seen()), ",\n" + Spaces(indentSize * depth), dest.Seen())
    {
      hide Dest.Contents, Dest.Bad, Landed, Takes, Spaces;
      ghost var s := dest.Seen();
      var n := Pass(",\n");
      ghost var t := dest.Seen();
      WriteIndent();
      LandedJoin(s, ",\n", t, Spaces(indentSize * depth), dest.Seen());
    }

    // What one structural character outside strings turns into. The results of these writes are not looked at.
    method WriteStructural(c: char)
      requires Valid() && !inString && IsStructural(c)
      requires indentSize * Step(Mode(), c).depth <= 255
      modifies `depth, `inString, dest.Repr()
      ensures Valid() && fresh(dest.Repr() - old(dest.Repr())) && Mode() == old(Step(Mode(), c))
      ensures Landed(old(dest.Seen()), old(Put(indentSize, Mode(), c)), dest.Seen())
    {
      hide Dest.Contents, Dest.Bad, Landed, Takes, Spaces;
      var n;
      if c == '"' {
        ghost var s := dest.Seen();
        inString := true;
        assert dest.Memory() == old(dest.Memory()) && dest.Seen() == s;
        n := Pass("\"");
      } else if IsOpen(c) {
        WriteOpen(c);
      } else if IsClose(c) {
        WriteClose(c);
      } else if c == ',' {
        WriteComma();
      } else {
        n := Pass(": ");
      }
    }

    // A run of text, if there is one; a failure ends the whole write.
    method Flush(run: string, ghost s: Snap, ghost done: string, ghost whole: string) returns (ok: bool)
      requires Valid() && Landed(s, done, dest.Seen()) && done + run <= whole
      modifies dest.Repr()
      ensures Valid() && fresh(dest.Repr() - old(dest.Repr()))
      ensures if ok then Landed(s, done + run, dest.Seen()) else Landed(s, whole, dest.Seen()) && !Takes(s, whole)
    {
      hide Dest.Seen, Landed, Takes;
      ghost var t := dest.Seen();
      if run == "" {
        assert done + run == done;
        return true;
      }
      var n := Pass(run);
      ok := n != 0;
      if ok { LandedJoin(s, done, t, run, dest.Seen()); } else { LandedStops(s, done, t, run, dest.Seen(), whole); }
    }

    // Inside a string only backslashes and the closing quote matter.
    method NoteInString(c: char)
      requires inString
      modifies `escapeNext, `inString
      ensures Mode() == old(Step(Mode(), c))
    {
      if escapeNext {
        escapeNext := false;
      } else if c == '\\' {
        escapeNext := true;
      } else if c == '"' {
        inString := false;
      }
    }

    ghost function Shape(): Shape
      reads this
    {
      Indented(indentSize, Mode())
    }

    // Of the destination's failures only those of runs are noticed, and none of them shows in `bad`.
    method Write(str: string) returns (n: nat)
      requires Valid() && Bounded(Shape(), str)
      modifies this, dest.Repr()
      ensures Valid() && fresh(dest.Repr() - old(dest.Repr())) && bad == old(bad)
      ensures Landed(old(dest.Seen()), old(Render(Shape(), str)), dest.Seen())
      ensures Takes(old(dest.Seen()), old(Render(Shape(), str))) ==>
        Shape() == old(Next(Shape(), str)) && n == |old(Render(Shape(), str))|
      ensures n == 0 || n == dest.Length() - old(dest.Length())
      ensures depth <= old(depth) + Opens(str)
    {
      hide Dest.Contents, Dest.Bad, Dest.Valid, Landed, Takes, Render, Next, Bounded, Put;
      var before := dest.Length();
      ghost var shape, s := Shape(), dest.Seen();
      ghost var whole, done := Render(shape, str), "";
      var start, i := 0, 0;
      RenderNone(shape, str);
      LandedNothing(s);
      while i < |str|
        invariant 0 <= start <= i <= |str|
        invariant Valid() && fresh(dest.Repr() - old(dest.Repr())) && bad == old(bad)
        invariant Shape() == Next(shape, str[..i])
        invariant Landed(s, done, dest.Seen()) && done + str[start..i] == Render(shape, str[..i])
      {
        label Turn:
        var c := str[i];
        RenderNext(shape, str, i);
        DepthUpTo(shape, str, i);
        ghost var t, put := dest.Seen(), Put(indentSize, Mode(), c);
        if inString {
          MorePlain(done, str, start, i);
          PutPlain(indentSize, Mode(), c);
          NoteInString(c);
          assert dest.Memory() == old@Turn(dest.Memory()) && dest.Seen() == t;
        } else if IsStructural(c) {
          var ok := Flush(str[start..i], s, done, whole);
          if !ok { return 0; }
          done, t := done + str[start..i], dest.Seen();
          start := i + 1;
          WriteStructural(c);
          LandedJoin(s, done, t, put, dest.Seen());
          done := done + put;
        } else {
          MorePlain(done, str, start, i);
          PutPlain(indentSize, Mode(), c);
        }
        i := i + 1;
      }
      DepthUpTo(shape, str, i);
      assert str[..i] == str && str[start..i] == str[start..];
      var ok := Flush(str[start..], s, done, whole);
      if !ok { return 0; }
      LandedGrows(s, whole, dest.Seen());
      n := dest.Length() - before;
    }
  }

  // Any `Buffer&`.
  datatype Sink = Direct(plain: Dest) | Pretty(pretty: PrettyBuffer)
  {
    function Target(): Dest {
      if Direct? then plain else pretty.dest
    }

    ghost function Repr(): set<object>
      reads if Target().OnStack? then Target().stack else Target().heap
    {
      (if Pretty? then {pretty} else {}) + Target().Repr()
    }

    ghost function Own(): set<object> {
      if Pretty? then {pretty} else {}
    }

    ghost predicate Valid()
      reads Own(), if Target().OnStack? then Target().stack else Target().heap, Target().Memory()
    {
      Target().Valid() && (Pretty? ==> pretty.Valid())
    }

    // Integers and printed text need a span; a growing buffer guarantees `expandSize` of it.
    ghost predicate Roomy() {
      Target().OnHeap? ==> Target().heap.expandSize >= 21
    }

    ghost function Shape(): Shape
      reads Own()
    {
      if Direct? then Plain else pretty.Shape()
    }

    // Its own flag, as `bad()` reports it.
    predicate Bad()
      reads Own(), if Target().OnStack? then Target().stack else Target().heap
    {
      if Direct? then plain.Bad() else pretty.bad
    }

    ghost function Snap(): (s: Snap)
      requires Valid()
      reads Own(), if Target().OnStack? then Target().stack else Target().heap, Target().Memory()
      ensures Within(s)
    {
      Snapshot(Target().Contents(), Bad() || Target().Bad(), Target().Limit(), Shape())
    }

    function Length(): nat
      reads if Target().OnStack? then Target().stack else Target().heap
    {
      Target().Length()
    }

    method Write(str: string) returns (n: nat)
      requires Valid() && Bounded(Snap().shape, str)
      modifies Repr()
      ensures Valid() && fresh(Repr() - old(Repr()))
      ensures Amounts(old(Snap()), str, Snap()) && (n == 0 && str != "" ==> Snap().bad)
      ensures n == 0 || n == |Snap().content| - |old(Snap()).content|
      ensures old(Snap()).shape.Plain? || Takes(old(Snap()), str) ==>
        && Snap() == Wrote(old(Snap()), str)
        && n == (if Takes(old(Snap()), str) then |Render(old(Shape()), str)| else 0)
        && (n != 0 <==> str != "" && Takes(old(Snap()), str))
    {
      if Direct? {
        n := plain.Write(str);
      } else {
        n := pretty.Write(str);
        RenderGrows(old(Shape()), str);
      }
    }

    method Fail()
      requires Valid()
      modifies Repr()
      ensures Valid() && Repr() == old(Repr()) && Snap() == old(Snap()).(bad := true)
    {
      if Direct? { plain.Fail(); } else { pretty.bad := true; }
    }

    method GetWriteSpan() returns (span: Span)
      requires Valid()
      modifies Target().Repr()
      ensures Valid() && fresh(Repr() - old(Repr())) && Snap() == old(Snap())
      ensures span.data == Target().Memory() && span.off == Length() && span.off + span.len <= span.data.Length
      ensures Target().OnStack? ==> span.len == Target().stack.maxSize - Length()
      ensures Target().OnHeap? ==> span.len >= Target().heap.expandSize
    {
      if Direct? { span := plain.GetWriteSpan(); } else { span := pretty.dest.GetWriteSpan(); }
    }

    // The first `count` characters of the span become part of the text, as they are.
    method Commit(count: nat)
      requires Valid() && Fits(Target().Limit(), Length() + count) && Length() + count <= Target().Memory().Length
      modifies Target().Repr()
      ensures Valid() && Repr() == old(Repr())
      ensures Snap() == old(Snap()).(content := old(Target().Memory()[..Length() + count]))
    {
      if Direct? { plain.Commit(count); } else { pretty.dest.Commit(count); }
    }
  }

  lemma PutPlain(indent: nat, m: Mode, c: char)
    requires m.inString || !IsStructural(c)
    ensures Put(indent, m, c) == [c]
  {}

  lemma MorePlain(done: string, str: string, start: nat, i: nat)
    requires start <= i < |str|
    ensures done + str[start..i + 1] == (done + str[start..i]) + [str[i]]
  {
    assert str[start..i + 1] == str[start..i] + [str[i]];
  }

  lemma DepthUpTo(shape: Shape, str: string, i: nat)
    requires i <= |str| && shape.Indented?
    ensures Next(shape, str[..i]).Indented?
    ensures Next(shape, str[..i]).mode.depth <= shape.mode.depth + Opens(str)
  {
    DepthGrows(shape.mode, str[..i]);
    OpensSplit(str[..i], str[i..]);
    assert str[..i] + str[i..] == str;
  }

  lemma RenderNone(shape: Shape, str: string)
    ensures Next(shape, str[..0]) == shape && Render(shape, str[..0]) == ""
  {}

  // One more character of a longer text.
  lemma RenderNext(shape: Shape, str: string, i: nat)
    requires shape.Indented? && i < |str|
    ensures Next(shape, str[..i]).Indented? && Next(shape, str[..i]).indent == shape.indent
    ensures var now := Next(shape, str[..i]).mode;
      && Next(shape, str[..i + 1]) == Indented(shape.indent, Step(now, str[i]))
      && Render(shape, str[..i + 1]) == Render(shape, str[..i]) + Put(shape.indent, now, str[i])
      && Render(shape, str[..i]) <= Render(shape, str)
      && (Bounded(shape, str) ==> shape.indent * Step(now, str[i]).depth <= 255)
  {
    var next := Next(shape, str[..i]);
    assert str[..i + 1] == str[..i] + [str[i]];
    RenderSplit(shape, str[..i], [str[i]]);
    RenderOne(next, str[i]);
    assert str == str[..i + 1] + str[i + 1..];
    RenderSplit(shape, str[..i + 1], str[i + 1..]);
    assert Bounded(next, [str[i]]) ==> shape.indent * Step(next.mode, str[i]).depth <= 255;
  }
}

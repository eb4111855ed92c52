/** What `PrettyBuffer::write` does to text, character by character (pretty_buffer.cpp:9-62). */
module PrettyText {
  import opened Escaping

  // `in_string_`, `escape_next_` and `depth_` (a `uint8_t`).
  datatype Mode = Mode(inString: bool, escapeNext: bool, depth: nat)

  // How a buffer renders text: as it is, or indented.
  datatype Shape = Plain | Indented(indent: nat, mode: Mode)

  function Spaces(n: nat): (s: string)
    ensures |s| == n && forall i :: 0 <= i < n ==> s[i] == ' '
  {
    seq(n, i => ' ')
  }

  lemma Assoc(a: string, b: string, c: string)
    ensures (a + b) + c == a + (b + c)
  {}

  predicate IsOpen(c: char) { c == '{' || c == '[' }
  predicate IsClose(c: char) { c == '}' || c == ']' }
  predicate IsStructural(c: char) { IsOpen(c) || IsClose(c) || c == ',' || c == ':' || c == '"' }

  function Step(m: Mode, c: char): Mode {
    if m.inString then
      if m.escapeNext then m.(escapeNext := false)
      else if c == '\\' then m.(escapeNext := true)
      else if c == '"' then m.(inString := false)
      else m
    else if c == '"' then m.(inString := true)
    else if IsOpen(c) then m.(depth := (m.depth + 1) % 256)
    else if IsClose(c) then m.(depth := if m.depth > 0 then m.depth - 1 else 0)
    else m
  }

  function Put(indent: nat, m: Mode, c: char): string {
    var pad := Spaces(indent * Step(m, c).depth);
    if m.inString then [c]
    else if IsOpen(c) then [c, '\n'] + pad
    else if IsClose(c) then "\n" + pad + [c]
    else if c == ',' then ",\n" + pad
    else if c == ':' then ": "
    else [c]
  }

  // Outside strings: a new line behind an opening bracket or comma and before a closing bracket, indented by what is
  // then open; a space behind a colon; anything else as it is.
  lemma PutForms(indent: nat, d: nat, c: char)
    requires d < 255
    ensures var m := Mode(false, false, d);
      && (c as int in {0x5B, 0x7B} ==> Put(indent, m, c) == [c, 0x0A as char] + Blanks(indent * (d + 1)))
      && (c as int == 0x2C ==> Put(indent, m, c) == [c, 0x0A as char] + Blanks(indent * d))
      && (c as int in {0x5D, 0x7D} ==>
            Put(indent, m, c) == [0x0A as char] + Blanks(indent * if d > 0 then d - 1 else 0) + [c])
      && (c as int == 0x3A ==> Put(indent, m, c) == [c, 0x20 as char])
      && (c as int !in {0x5B, 0x5D, 0x7B, 0x7D, 0x2C, 0x3A} ==> Put(indent, m, c) == [c])
  {}

  function Blanks(n: nat): string {
    seq(n, i => 0x20 as char)
  }

  // The last character is handled last: this is the order in which `write` appends.
  function ModeAfter(m: Mode, s: string): Mode
    decreases s
  {
    if s == "" then m else ModeAfter(Step(m, s[0]), s[1..])
  }

  function Transduce(indent: nat, m: Mode, s: string): string
    decreases s
  {
    if s == "" then "" else Put(indent, m, s[0]) + Transduce(indent, Step(m, s[0]), s[1..])
  }

  // `write_indent` counts in a `uint8_t`, so it ends only while depth times indent stays within 255.
  predicate IndentFits(indent: nat, m: Mode, s: string)
    decreases s
  {
    s == "" || (indent * Step(m, s[0]).depth <= 255 && IndentFits(indent, Step(m, s[0]), s[1..]))
  }

  function Render(shape: Shape, s: string): string {
    if shape.Plain? then s else Transduce(shape.indent, shape.mode, s)
  }

  function Next(shape: Shape, s: string): Shape {
    if shape.Plain? then shape else Indented(shape.indent, ModeAfter(shape.mode, s))
  }

  predicate Bounded(shape: Shape, s: string) {
    shape.Indented? ==> IndentFits(shape.indent, shape.mode, s)
  }

  // Opening brackets, inside strings too: no more than these are ever open on top of those that were.
  function Opens(s: string): nat {
    if s == "" then 0 else (if IsOpen(s[0]) then 1 else 0) + Opens(s[1..])
  }

  lemma {:induction false} OpensSplit(a: string, b: string)
    ensures Opens(a + b) == Opens(a) + Opens(b)
  {
    if a == "" {
      assert a + b == b;
    } else {
      assert (a + b)[0] == a[0] && (a + b)[1..] == a[1..] + b;
      OpensSplit(a[1..], b);
    }
  }

  lemma {:induction false} DepthGrows(m: Mode, s: string)
    ensures ModeAfter(m, s).depth <= m.depth + Opens(s)
    decreases s
  {
    if s != "" { DepthGrows(Step(m, s[0]), s[1..]); }
  }

  lemma Shallower(indent: nat, d: nat, e: nat)
    requires d <= e && indent * e <= 255
    ensures indent * d <= 255
  {
    assert indent * e == indent * d + indent * (e - d);
  }

  lemma {:induction false} FewOpens(indent: nat, m: Mode, s: string)
    requires indent * (m.depth + Opens(s)) <= 255
    ensures IndentFits(indent, m, s)
    decreases s
  {
    if s != "" {
      var n := Step(m, s[0]);
      Shallower(indent, n.depth + Opens(s[1..]), m.depth + Opens(s));
      Shallower(indent, n.depth, m.depth + Opens(s));
      FewOpens(indent, n, s[1..]);
    }
  }

  // ---- chunks do not matter

  lemma {:induction false} TransduceSplit(indent: nat, m: Mode, a: string, b: string)
    ensures ModeAfter(m, a + b) == ModeAfter(ModeAfter(m, a), b)
    ensures Transduce(indent, m, a + b) == Transduce(indent, m, a) + Transduce(indent, ModeAfter(m, a), b)
    ensures IndentFits(indent, m, a + b) == (IndentFits(indent, m, a) && IndentFits(indent, ModeAfter(m, a), b))
    decreases a
  {
    if a == "" {
      assert a + b == b;
    } else {
      assert (a + b)[0] == a[0] && (a + b)[1..] == a[1..] + b;
      TransduceSplit(indent, Step(m, a[0]), a[1..], b);
    }
  }

  lemma RenderSplit(shape: Shape, a: string, b: string)
    ensures Next(shape, a + b) == Next(Next(shape, a), b)
    ensures Render(shape, a + b) == Render(shape, a) + Render(Next(shape, a), b)
    ensures Bounded(shape, a + b) == (Bounded(shape, a) && Bounded(Next(shape, a), b))
  {
    if shape.Indented? { TransduceSplit(shape.indent, shape.mode, a, b); }
  }

  lemma TransduceOne(indent: nat, m: Mode, c: char)
    ensures Transduce(indent, m, [c]) == Put(indent, m, c) && ModeAfter(m, [c]) == Step(m, c)
  {
    assert [c][1..] == "";
    assert Transduce(indent, Step(m, c), "") == "";
  }

  lemma RenderOne(shape: Shape, c: char)
    requires shape.Indented?
    ensures Render(shape, [c]) == Put(shape.indent, shape.mode, c)
    ensures Next(shape, [c]) == shape.(mode := Step(shape.mode, c))
  {
    TransduceOne(shape.indent, shape.mode, c);
  }

  lemma {:induction false} RenderGrows(shape: Shape, s: string)
    ensures |Render(shape, s)| >= |s|
    decreases s
  {
    if shape.Indented? && s != "" {
      RenderOne(shape, s[0]);
      RenderGrows(Next(shape, [s[0]]), s[1..]);
    }
  }

  // ---- text that may go round `write`

  // Outside strings and free of structural characters: digits, signs, literals.
  predicate Unstructured(s: string) {
    forall i :: 0 <= i < |s| ==> !IsStructural(s[i])
  }

  predicate InString(shape: Shape) {
    shape.Indented? && shape.mode.inString
  }

  // Not between a backslash and the character it escapes.
  predicate Settled(shape: Shape) {
    shape.Indented? ==> !shape.mode.escapeNext
  }

  lemma {:induction false} RenderUnstructured(shape: Shape, s: string)
    requires Unstructured(s) && !InString(shape) && Settled(shape)
    ensures Render(shape, s) == s && Next(shape, s) == shape
    decreases s
  {
    if shape.Indented? && s != "" {
      RenderUnstructured(shape, s[1..]);
      assert s == [s[0]] + s[1..];
    }
  }

  // An escaped fragment printed inside a string.
  lemma {:induction false} RenderEscaped(shape: Shape, s: string)
    requires shape.Indented? ==> shape.mode.inString
    requires Settled(shape)
    ensures Render(shape, Escape(s)) == Escape(s) && Next(shape, Escape(s)) == shape
    decreases s
  {
    if shape.Indented? && s != "" {
      RenderEscapeUnit(shape, s[0]);
      RenderEscaped(shape, s[1..]);
      RenderSplit(shape, EscapeChar(s[0]), Escape(s[1..]));
    }
  }

  lemma RenderEscapeUnit(shape: Shape, c: char)
    requires shape.Indented? && shape.mode.inString && Settled(shape)
    ensures var e := EscapeChar(c); Render(shape, e) == e && Next(shape, e) == shape
  {
    var e := EscapeChar(c);
    if HasShortEscape(c) {
      RenderPair(shape, e);
    } else if IsControl(c) {
      assert e == e[..2] + e[2..];
      RenderPair(shape, e[..2]);
      RenderPlainInString(shape, e[2..]);
      RenderSplit(shape, e[..2], e[2..]);
    } else {
      RenderPlainInString(shape, e);
    }
  }

  lemma RenderPair(shape: Shape, e: string)
    requires shape.Indented? && shape.mode.inString && Settled(shape)
    requires |e| == 2 && e[0] == '\\'
    ensures Render(shape, e) == e && Next(shape, e) == shape
  {
    assert e == [e[0]] + [e[1]];
    RenderSplit(shape, [e[0]], [e[1]]);
    RenderOne(shape, e[0]);
    RenderOne(Next(shape, [e[0]]), e[1]);
  }

  lemma {:induction false} RenderPlainInString(shape: Shape, s: string)
    requires shape.Indented? && shape.mode.inString && Settled(shape)
    requires forall i :: 0 <= i < |s| ==> s[i] != '"' && s[i] != '\\'
    ensures Render(shape, s) == s && Next(shape, s) == shape
  {
    if s != "" {
      RenderPlainInString(shape, s[1..]);
      assert s == [s[0]] + s[1..];
    }
  }

  // A whole quoted string.
  lemma RenderQuoted(shape: Shape, s: string)
    requires !InString(shape) && Settled(shape)
    ensures Render(shape, Quoted(s)) == Quoted(s) && Next(shape, Quoted(s)) == shape
  {
    if shape.Indented? {
      var inside := shape.(mode := shape.mode.(inString := true));
      RenderOne(shape, '"');
      RenderOne(inside, '"');
      RenderEscaped(inside, s);
      RenderSplit(shape, "\"", Escape(s));
      RenderSplit(shape, "\"" + Escape(s), "\"");
    }
  }

  // ---- nothing but whitespace is added

  predicate IsSpace(c: char) {
    c == ' ' || c == '\n' || c == '\r' || c == '\t'
  }

  // The text without the whitespace outside its strings.
  function Squeeze(m: Mode, s: string): string
    decreases s
  {
    if s == "" then ""
    else (if !m.inString && IsSpace(s[0]) then "" else [s[0]]) + Squeeze(Step(m, s[0]), s[1..])
  }

  lemma {:induction false} SqueezeSplit(m: Mode, a: string, b: string)
    ensures Squeeze(m, a + b) == Squeeze(m, a) + Squeeze(ModeAfter(m, a), b)
    decreases a
  {
    if a == "" {
      assert a + b == b;
    } else {
      assert (a + b)[0] == a[0] && (a + b)[1..] == a[1..] + b;
      SqueezeSplit(Step(m, a[0]), a[1..], b);
    }
  }

  lemma {:induction false} SqueezeSpaces(m: Mode, s: string)
    requires !m.inString && forall i :: 0 <= i < |s| ==> IsSpace(s[i])
    ensures Squeeze(m, s) == "" && ModeAfter(m, s) == m
  {
    if s != "" { SqueezeSpaces(m, s[1..]); }
  }

  lemma SqueezePad(m: Mode, c: char, pad: string)
    requires !m.inString && !Step(m, c).inString && forall i :: 0 <= i < |pad| ==> IsSpace(pad[i])
    ensures Squeeze(m, [c] + pad) == Squeeze(m, [c]) && ModeAfter(m, [c] + pad) == Step(m, c)
    ensures Squeeze(m, pad + [c]) == Squeeze(m, [c]) && ModeAfter(m, pad + [c]) == Step(m, c)
  {
    TransduceOne(0, m, c);
    SqueezeSplit(m, [c], pad);
    TransduceSplit(0, m, [c], pad);
    SqueezeSpaces(Step(m, c), pad);
    SqueezeSplit(m, pad, [c]);
    TransduceSplit(0, m, pad, [c]);
    SqueezeSpaces(m, pad);
  }

  lemma SqueezePut(indent: nat, m: Mode, c: char)
    ensures Squeeze(m, Put(indent, m, c)) == Squeeze(m, [c])
    ensures ModeAfter(m, Put(indent, m, c)) == Step(m, c)
  {
    TransduceOne(indent, m, c);
    if !m.inString && c != '"' {
      var pad := "\n" + Spaces(indent * Step(m, c).depth);
      SqueezePad(m, c, pad);
      SqueezePad(m, c, " ");
      if IsOpen(c) || c == ',' {
        assert Put(indent, m, c) == [c] + pad;
      } else if IsClose(c) {
        assert Put(indent, m, c) == pad + [c];
      } else if c == ':' {
        assert Put(indent, m, c) == [c] + " ";
      }
    }
  }

  // Removing the whitespace outside strings from the output gives the input so squeezed, and leaves the same mode.
  lemma {:induction false} PrettyOnlyAddsSpace(indent: nat, m: Mode, s: string)
    ensures Squeeze(m, Transduce(indent, m, s)) == Squeeze(m, s)
    ensures ModeAfter(m, Transduce(indent, m, s)) == ModeAfter(m, s)
    decreases s
  {
    if s != "" {
      var put, n := Put(indent, m, s[0]), Step(m, s[0]);
      var rest := Transduce(indent, n, s[1..]);
      SqueezePut(indent, m, s[0]);
      PrettyOnlyAddsSpace(indent, n, s[1..]);
      SqueezeSplit(m, put, rest);
      TransduceSplit(indent, m, put, rest);
      assert s == [s[0]] + s[1..];
      SqueezeSplit(m, [s[0]], s[1..]);
    }
  }
}

/** The text a pretty buffer renders is one more layout of the same value. */
module PrettyLayouts {
  import opened Escaping
  import opened PrettyText
  import opened JsonValues
  import opened Paths
  import opened Scanning
  import opened Layouts
  import opened Bindings
  import opened Delivery

  // A line break and the indentation that goes with a depth.
  function Break(indent: nat, m: Mode): string {
    "\n" + Spaces(indent * m.depth)
  }

  function ClosingBreak(indent: nat, m: Mode): string {
    Break(indent, Step(m, ']'))
  }

  // What follows a value: the closing bracket's line break, or a comma and the next line.
  function PrettyTail(indent: nat, m: Mode, last: bool): string {
    if last then ClosingBreak(indent, m) else "," + Break(indent, m)
  }

  function PrettyOpen(indent: nat, m: Mode, empty: bool): string {
    Break(indent, m) + if empty then ClosingBreak(indent, m) else ""
  }

  // How `j` is laid out when it is written in mode `m`.
  function PrettyLaid(indent: nat, m: Mode, j: Json): Laid
    decreases j, 1
  {
    match j
    case JArr(elems) => Array(PrettyOpen(indent, Step(m, '['), elems == []), PrettyItems(indent, Step(m, '['), elems))
    case JObj(fields) => Object(PrettyOpen(indent, Step(m, '{'), fields == []), PrettyFields(indent, Step(m, '{'),
      fields))
    case _ => Compact(j)
  }

  function PrettyItems(indent: nat, m: Mode, elems: seq<Json>): seq<LaidItem>
    decreases elems, 0
  {
    if elems == [] then []
    else
      var after := ModeAfter(m, Text(elems[0]));
      [LaidItem(PrettyLaid(indent, m, elems[0]), PrettyTail(indent, after, |elems| == 1))]
      + PrettyItems(indent, after, elems[1..])
  }

  function PrettyFields(indent: nat, m: Mode, fields: seq<Field>): seq<LaidField>
    decreases fields, 0
  {
    if fields == [] then []
    else
      var after := ModeAfter(m, Text(fields[0].value));
      var tail := PrettyTail(indent, after, |fields| == 1);
      [LaidField(Escape(fields[0].key), "", " ", PrettyLaid(indent, m, fields[0].value), tail)]
      + PrettyFields(indent, after, fields[1..])
  }

  predicate Between(m: Mode) {
    !m.inString && !m.escapeNext
  }

  // ---- whitespace is filler

  predicate Blank(s: string) {
    forall i :: 0 <= i < |s| ==> IsSpace(s[i])
  }

  lemma {:induction false} BlankIsGap(s: string, commas: bool)
    requires Blank(s)
    ensures IsSkipped(s, commas) && NoBrackets(s)
  {
    if s != "" { BlankIsGap(s[1..], commas); }
  }

  lemma TailIsFiller(indent: nat, m: Mode, last: bool)
    ensures var t := PrettyTail(indent, m, last); t != "" && IsPrimitiveDelim(t[0]) && IsFiller(t) && NoBrackets(t)
  {
    var t := PrettyTail(indent, m, last);
    if last {
      BlankIsGap(t, true);
    } else {
      assert t[1..] == Break(indent, m);
      BlankIsGap(t[1..], true);
    }
  }

  lemma OpenIsFiller(indent: nat, m: Mode, empty: bool)
    ensures IsFiller(PrettyOpen(indent, m, empty)) && NoBrackets(PrettyOpen(indent, m, empty))
  {
    BlankIsGap(PrettyOpen(indent, m, empty), true);
  }

  // ---- what the transducer makes of the pieces

  lemma TransduceValue(indent: nat, m: Mode, j: Json)
    requires Between(m)
    ensures Between(ModeAfter(m, Text(j)))
  {
    TextOutside(j, Indented(indent, m));
  }

  // Literals and strings come through unchanged.
  lemma TransduceScalar(indent: nat, m: Mode, j: Json)
    requires Between(m) && IsScalar(j)
    ensures Transduce(indent, m, Text(j)) == Text(j)
  {
    var shape := Indented(indent, m);
    if j.JStr? {
      RenderQuoted(shape, j.s);
    } else {
      ScalarText(j);
      RenderUnstructured(shape, Text(j));
    }
  }

  lemma TransduceKey(indent: nat, m: Mode, k: string, rest: string)
    requires Between(m)
    ensures ModeAfter(m, Quoted(k) + ":" + rest) == ModeAfter(m, rest)
    ensures Transduce(indent, m, Quoted(k) + ":" + rest) == Quoted(k) + "" + ":" + " " + Transduce(indent, m, rest)
  {
    var q, t := Quoted(k), Transduce(indent, m, rest);
    RenderQuoted(Indented(indent, m), k);
    hide Quoted;
    TransduceColon(indent, m, rest);
    TransduceSplit(indent, m, q, ":" + rest);
    Assoc(q, ":", rest);
    KeyPieces(q, t);
  }

  lemma KeyPieces(q: string, t: string)
    ensures q + (": " + t) == q + "" + ":" + " " + t
  {
    assert q + "" == q && ": " == ":" + " ";
  }

  lemma TransduceColon(indent: nat, m: Mode, rest: string)
    requires Between(m)
    ensures ModeAfter(m, ":" + rest) == ModeAfter(m, rest)
    ensures Transduce(indent, m, ":" + rest) == ": " + Transduce(indent, m, rest)
  {
    TransduceOne(indent, m, ':');
    TransduceSplit(indent, m, ":", rest);
  }

  lemma TransduceComma(indent: nat, m: Mode, rest: string)
    requires Between(m)
    ensures ModeAfter(m, "," + rest) == ModeAfter(m, rest)
    ensures Transduce(indent, m, "," + rest) == PrettyTail(indent, m, false) + Transduce(indent, m, rest)
  {
    TransduceSplit(indent, m, ",", rest);
    TransduceOne(indent, m, ',');
    assert [',', '\n'] + Spaces(indent * m.depth) == PrettyTail(indent, m, false);
  }

  // A value, a comma and more, up to the closing line break.
  lemma TransduceMore(indent: nat, m: Mode, t: string, more: string, close: string)
    requires Between(ModeAfter(m, t))
    ensures var after := ModeAfter(m, t);
      && ModeAfter(m, t + ("," + more)) == ModeAfter(after, more)
      && Transduce(indent, m, t + ("," + more)) + close
           == Transduce(indent, m, t) + PrettyTail(indent, after, false) + (Transduce(indent, after, more) + close)
  {
    hide PrettyTail;
    var after := ModeAfter(m, t);
    TransduceSplit(indent, m, t, "," + more);
    TransduceComma(indent, after, more);
    Assoc4(Transduce(indent, m, t), PrettyTail(indent, after, false), Transduce(indent, after, more), close);
  }

  lemma Assoc4(a: string, b: string, c: string, d: string)
    ensures (a + (b + c)) + d == (a + b) + (c + d)
  {
  }

  // A bracketed text, given what the transducer makes of its inside up to the closing line break.
  lemma TransduceBracketed(indent: nat, m: Mode, open: char, inner: string, close: char)
    requires Between(m) && IsOpen(open) && IsClose(close) && Between(ModeAfter(Step(m, open), inner))
    ensures Transduce(indent, m, [open] + inner + [close])
      == [open] + Break(indent, Step(m, open))
         + (Transduce(indent, Step(m, open), inner) + ClosingBreak(indent, ModeAfter(Step(m, open), inner))) + [close]
  {
    hide Transduce, ModeAfter, Spaces, IndentFits;
    var n := Step(m, open);
    TransduceSplit(indent, m, [open] + inner, [close]);
    TransduceSplit(indent, m, [open], inner);
    TransduceOne(indent, m, open);
    TransduceOne(indent, ModeAfter(n, inner), close);
    var pad := Spaces(indent * n.depth);
    assert [open, '\n'] + pad == [open] + ("\n" + pad);
    var end := ModeAfter(n, inner);
    assert Step(end, close) == Step(end, ']');
    assert "\n" + Spaces(indent * Step(end, close).depth) + [close] == ClosingBreak(indent, end) + [close];
  }

  // ---- the layout is what the buffer writes

  lemma {:induction false} PrettyIsLaid(indent: nat, m: Mode, j: Json)
    requires Between(m)
    ensures var l := PrettyLaid(indent, m, j);
      LaidText(l) == Transduce(indent, m, Text(j)) && Bare(l) == Compact(j) && WellLaid(l) && Tidy(l)
    decreases j, 1
  {
    match j
    case JArr(elems) => PrettyArray(indent, m, elems);
    case JObj(fields) => PrettyObject(indent, m, fields);
    case _ =>
      TransduceScalar(indent, m, j);
      CompactText(j);
  }

  lemma {:induction false} PrettyArray(indent: nat, m: Mode, elems: seq<Json>)
    requires Between(m)
    ensures var l := PrettyLaid(indent, m, JArr(elems));
      && LaidText(l) == Transduce(indent, m, Text(JArr(elems)))
      && Bare(l) == Compact(JArr(elems)) && WellLaid(l) && Tidy(l)
    decreases elems, 1
  {
    hide IsFiller, NoBrackets;
    var n := Step(m, '[');
    OpenIsFiller(indent, n, elems == []);
    PrettyItemsText(indent, n, elems);
    TransduceBracketed(indent, m, '[', ElemsText(elems), ']');
    BracketPieces("[", Break(indent, n), Transduce(indent, n, ElemsText(elems)),
                  ClosingBreak(indent, ModeAfter(n, ElemsText(elems))), "]", ItemsText(PrettyItems(indent, n,
                    elems)), elems == []);
  }

  // The closing line break belongs to the last value inside, or to the opening bracket when there is none.
  lemma BracketPieces(l: string, first: string, inner: string, last: string, r: string, items: string, empty: bool)
    requires items == if empty then "" else inner + last
    requires empty ==> inner == ""
    ensures l + first + (inner + last) + r == l + (first + (if empty then last else "")) + items + r
  {
    if empty {
      assert inner + last == last;
      assert l + first + last == l + (first + last) + "";
    } else {
      assert first + "" == first;
    }
  }

  lemma {:induction false} PrettyItemsText(indent: nat, m: Mode, elems: seq<Json>)
    requires Between(m)
    ensures Between(ModeAfter(m, ElemsText(elems)))
    ensures var items := PrettyItems(indent, m, elems);
      && WellItems(items) && TidyItems(items)
      && BareItems(items) == CompactItems(elems) && (items == [] <==> elems == [])
      && ItemsText(items) == if elems == [] then ""
           else Transduce(indent, m, ElemsText(elems)) + ClosingBreak(indent, ModeAfter(m, ElemsText(elems)))
    decreases elems, 0
  {
    hide IsFiller, NoBrackets, IsPrimitiveDelim, ClosingBreak;
    if elems != [] {
      var t, last, more := Text(elems[0]), |elems| == 1, elems[1..];
      var after := ModeAfter(m, t);
      PrettyIsLaid(indent, m, elems[0]);
      TransduceValue(indent, m, elems[0]);
      TailIsFiller(indent, after, last);
      PrettyItemsText(indent, after, more);
      ItemsCons(LaidItem(PrettyLaid(indent, m, elems[0]), PrettyTail(indent, after, last)), PrettyItems(indent,
        after, more));
      if last {
        assert t + "" == t;
      } else {
        TransduceMore(indent, m, t, ElemsText(more), ClosingBreak(indent, ModeAfter(after, ElemsText(more))));
      }
    }
  }

  lemma {:induction false} PrettyObject(indent: nat, m: Mode, fields: seq<Field>)
    requires Between(m)
    ensures var l := PrettyLaid(indent, m, JObj(fields));
      && LaidText(l) == Transduce(indent, m, Text(JObj(fields)))
      && Bare(l) == Compact(JObj(fields)) && WellLaid(l) && Tidy(l)
    decreases fields, 1
  {
    hide IsFiller, NoBrackets;
    var n := Step(m, '{');
    OpenIsFiller(indent, n, fields == []);
    PrettyFieldsText(indent, n, fields);
    TransduceBracketed(indent, m, '{', FieldsText(fields), '}');
    BracketPieces("{", Break(indent, n), Transduce(indent, n, FieldsText(fields)),
                  ClosingBreak(indent, ModeAfter(n, FieldsText(fields))), "}",
                  LaidFieldsText(PrettyFields(indent, n, fields)), fields == []);
  }

  lemma {:induction false} PrettyFieldsText(indent: nat, m: Mode, fields: seq<Field>)
    requires Between(m)
    ensures Between(ModeAfter(m, FieldsText(fields)))
    ensures var laid := PrettyFields(indent, m, fields);
      && WellFields(laid) && TidyFields(laid)
      && BareFields(laid) == CompactFields(fields) && (laid == [] <==> fields == [])
      && LaidFieldsText(laid) == if fields == [] then ""
           else Transduce(indent, m, FieldsText(fields)) + ClosingBreak(indent, ModeAfter(m, FieldsText(fields)))
    decreases fields, 0
  {
    hide IsFiller, IsGap, NoBrackets, IsPrimitiveDelim, ClosingBreak, Quoted, InQuotes, IsBody, WellField, TidyField;
    if fields != [] {
      var k, t, last, more := fields[0].key, Text(fields[0].value), |fields| == 1, fields[1..];
      var after := ModeAfter(m, t);
      PrettyIsLaid(indent, m, fields[0].value);
      TransduceValue(indent, m, fields[0].value);
      TailIsFiller(indent, after, last);
      PrettyFieldsText(indent, after, more);
      var f := LaidField(Escape(k), "", " ", PrettyLaid(indent, m, fields[0].value), PrettyTail(indent, after, last));
      PrettyField(f, fields[0], last);
      FieldsCons(f, PrettyFields(indent, after, more));
      TransduceKey(indent, m, k, t);
      if last {
        assert FieldText(fields[0]) + "" == FieldText(fields[0]);
      } else {
        TransduceMore(indent, m, FieldText(fields[0]), FieldsText(more), ClosingBreak(indent, ModeAfter(after,
          FieldsText(more))));
      }
    }
  }

  lemma PrettyField(f: LaidField, g: Field, last: bool)
    requires f.key == Escape(g.key) && f.gap == "" && f.lead == " " && WellLaid(f.value) && Tidy(f.value)
    requires IsFiller(f.tail) && NoBrackets(f.tail) && f.tail != "" && IsPrimitiveDelim(f.tail[0])
    ensures WellField(f, last) && TidyField(f)
    ensures LaidFieldText(f) == Quoted(g.key) + "" + ":" + " " + LaidText(f.value) + f.tail
  {
    EscapeIsBody(g.key);
    BlankIsFiller();
  }

  lemma BlankIsFiller()
    ensures IsGap("") && IsFiller(" ") && NoBrackets("") && NoBrackets(" ")
  {
    BlankIsGap(" ", true);
  }

  // ---- a value at its place

  // The text before what stands at a path, whose keys are as they are written.
  function TextBefore(j: Json, q: Path): string
    decreases j, 1
  {
    if q == [] || !j.JObj? then "" else "{" + BeforeIn(j.fields, q)
  }

  function BeforeIn(fields: seq<Field>, q: Path): string
    requires q != []
    decreases fields, 0
  {
    if fields == [] then ""
    else
      var f := fields[0];
      if HasField(CompactFields(fields[1..]), q[0]) then
        Quoted(f.key) + ":" + (Text(f.value) + ("," + BeforeIn(fields[1..], q)))
      else Quoted(f.key) + ":" + TextBefore(f.value, q[1..])
  }

  // The layout of what stands at a path is that of the value there, in the mode that the text before it leads to.
  lemma {:induction false} PrettyPlace(indent: nat, m: Mode, j: Json, q: Path) returns (pre: string, v: Json)
    requires Between(m) && At(PrettyLaid(indent, m, j), q).There?
    ensures At(PrettyLaid(indent, m, j), q).l == PrettyLaid(indent, ModeAfter(m, pre), v)
    ensures Between(ModeAfter(m, pre)) && pre + Text(v) <= Text(j) && At(Compact(j), q) == There(Compact(v))
    ensures pre == TextBefore(j, q)
    decreases j, 1
  {
    if q == [] {
      pre, v := "", j;
      assert "" + Text(j) == Text(j);
    } else {
      var n, fields := Step(m, '{'), j.fields;
      pre, v := PlaceInFields(indent, n, fields, q);
      TransduceSplit(indent, m, "{", pre);
      TransduceOne(indent, m, '{');
      PrefixInside("{", pre, Text(v), FieldsText(fields), "}");
      pre := "{" + pre;
    }
  }

  lemma PrefixInside(l: string, pre: string, t: string, inner: string, r: string)
    requires pre + t <= inner
    ensures l + pre + t <= l + inner + r
  {}

  lemma {:induction false} PlaceInFields(indent: nat, m: Mode, fields: seq<Field>, q: Path)
    returns (pre: string, v: Json)
    requires Between(m) && q != [] && AtField(PrettyFields(indent, m, fields), q).There?
    ensures AtField(PrettyFields(indent, m, fields), q).l == PrettyLaid(indent, ModeAfter(m, pre), v)
    ensures Between(ModeAfter(m, pre)) && pre + Text(v) <= FieldsText(fields)
    ensures AtField(CompactFields(fields), q) == There(Compact(v)) && pre == BeforeIn(fields, q)
    decreases fields, 0
  {
    hide Quoted, Break;
    var f, more := fields[0], fields[1..];
    var t, after := Text(f.value), ModeAfter(m, Text(f.value));
    TransduceValue(indent, m, f.value);
    PrettyCons(indent, m, fields);
    FieldsBegin(fields);
    SameKeys(indent, after, more, q[0]);
    if HasField(PrettyFields(indent, after, more), q[0]) {
      pre, v := PlaceInFields(indent, after, more, q);
      TransduceComma(indent, after, pre);
      TransduceSplit(indent, m, t, "," + pre);
      TransduceKey(indent, m, f.key, t + ("," + pre));
      LaterPrefix(Quoted(f.key) + ":", t, pre, Text(v), FieldsText(more));
      pre := Quoted(f.key) + ":" + (t + ("," + pre));
    } else {
      pre, v := PrettyPlace(indent, m, f.value, q[1..]);
      TransduceKey(indent, m, f.key, pre);
      FirstPrefix(Quoted(f.key) + ":", pre, Text(v), t, FieldsText(fields));
      pre := Quoted(f.key) + ":" + pre;
    }
  }

  lemma FieldsBegin(fields: seq<Field>)
    requires fields != []
    ensures var f := Quoted(fields[0].key) + ":" + Text(fields[0].value);
      && f <= FieldsText(fields)
      && (fields[1..] != [] ==> FieldsText(fields) == f + ("," + FieldsText(fields[1..])))
  {}

  lemma LaterPrefix(key: string, t: string, pre: string, v: string, more: string)
    requires pre + v <= more
    ensures key + (t + ("," + pre)) + v <= key + t + ("," + more)
  {}

  lemma FirstPrefix(key: string, pre: string, v: string, t: string, whole: string)
    requires pre + v <= t && key + t <= whole
    ensures key + pre + v <= whole
  {}

  lemma PrettyCons(indent: nat, m: Mode, fields: seq<Field>)
    requires fields != []
    ensures var after := ModeAfter(m, Text(fields[0].value));
      PrettyFields(indent, m, fields)[1..] == PrettyFields(indent, after, fields[1..])
    ensures CompactFields(fields)[1..] == CompactFields(fields[1..])
  {}

  lemma {:induction false} SameKeys(indent: nat, m: Mode, fields: seq<Field>, k: string)
    ensures HasField(PrettyFields(indent, m, fields), k) == HasField(CompactFields(fields), k)
    decreases fields
  {
    if fields != [] {
      PrettyCons(indent, m, fields);
      SameKeys(indent, ModeAfter(m, Text(fields[0].value)), fields[1..], k);
    }
  }

  // ---- any buffer

  // Whatever the buffer, the text of a value is a layout of it.
  function LaidBy(shape: Shape, j: Json): Laid {
    if shape.Plain? then Compact(j) else PrettyLaid(shape.indent, shape.mode, j)
  }

  lemma RenderedIsLaid(shape: Shape, j: Json)
    requires Outside(shape)
    ensures var l := LaidBy(shape, j);
      LaidText(l) == Render(shape, Text(j)) && Bare(l) == Compact(j) && WellLaid(l) && Tidy(l)
    ensures j.JObj? <==> LaidBy(shape, j).Object?
  {
    if shape.Plain? {
      CompactText(j);
    } else {
      PrettyIsLaid(shape.indent, shape.mode, j);
    }
  }

  // What stands at a path is rendered as the value there is where it stands.
  lemma RenderedPlace(shape: Shape, j: Json, q: Path) returns (v: Json)
    requires Outside(shape) && At(LaidBy(shape, j), q).There?
    ensures LaidText(At(LaidBy(shape, j), q).l) == Render(Next(shape, TextBefore(j, q)), Text(v))
    ensures TextBefore(j, q) + Text(v) <= Text(j) && At(Compact(j), q) == There(Compact(v))
    ensures Outside(Next(shape, TextBefore(j, q)))
  {
    var pre;
    if shape.Plain? {
      PrettyIsLaid(0, Mode(false, false, 0), j);
      CompactText(j);
      SamePlace(PrettyLaid(0, Mode(false, false, 0), j), Compact(j), q);
      pre, v := PrettyPlace(0, Mode(false, false, 0), j, q);
      CompactText(v);
    } else {
      pre, v := PrettyPlace(shape.indent, shape.mode, j, q);
      PrettyIsLaid(shape.indent, ModeAfter(shape.mode, pre), v);
    }
  }
}

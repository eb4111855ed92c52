/** Documents that are not read as one might think: an input for each case. */
module ReadingCounterexamples {
  import opened Escaping
  import opened Scanning
  import opened Layouts
  import opened ParserSpec
  import opened RoundTrip
  import opened Bindings
  import opened Delivery
  import opened Presence
  import opened Iteration

  // ---- objects in arrays: {"a":{"b":[{}],"c":0}}

  function InnerArray(): Laid {
    Array("", [LaidItem(Object("", []), "")])
  }

  function WithArray(b: string, c: string, v: string): Laid {
    Object("", [LaidField(b, "", "", InnerArray(), ","), LaidField(c, "", "", Primitive(v), "")])
  }

  function AroundArray(a: string, b: string, c: string, v: string): Laid {
    Object("", [LaidField(a, "", "", WithArray(b, c, v), "")])
  }

  predicate Names(a: string, b: string, c: string, v: string) {
    IsBody(a) && IsBody(b) && IsBody(c) && IsPrimitive(v) && a != "" && b != c && a != c && c != ""
  }

  lemma InnerArrayWell()
    ensures WellLaid(InnerArray())
  {
    ItemsCons(LaidItem(Object("", []), ""), []);
    assert [LaidItem(Object("", []), "")] + [] == [LaidItem(Object("", []), "")];
    SeparatorIsFiller(true);
  }

  lemma WithArrayWell(b: string, c: string, v: string)
    requires IsBody(b) && IsBody(c) && IsPrimitive(v)
    ensures WellLaid(WithArray(b, c, v))
  {
    InnerArrayWell();
    SeparatorIsFiller(true);
    SeparatorIsFiller(false);
    var f, g := LaidField(b, "", "", InnerArray(), ","), LaidField(c, "", "", Primitive(v), "");
    Layouts.FieldsCons(f, [g]);
    Layouts.FieldsCons(g, []);
    assert [f] + [g] == [f, g] && [g] + [] == [g];
  }

  lemma AroundArrayWell(a: string, b: string, c: string, v: string)
    requires Names(a, b, c, v)
    ensures Parsable(AroundArray(a, b, c, v))
  {
    WithArrayWell(b, c, v);
    SeparatorIsFiller(true);
    var f := LaidField(a, "", "", WithArray(b, c, v), "");
    Layouts.FieldsCons(f, []);
    assert [f] + [] == [f];
  }

  lemma InnerPlaces(b: string, c: string, v: string)
    requires b != c
    ensures At(WithArray(b, c, v), [c]) == There(Primitive(v))
  {
    var fields := WithArray(b, c, v).fields;
    assert fields[1..] == [fields[1]] && [fields[1]][1..] == [] && [c][1..] == [];
    assert AtField(fields, [c]) == AtField([fields[1]], [c]);
  }

  lemma OuterPlaces(a: string, b: string, c: string, v: string)
    requires a != c && b != c
    ensures At(AroundArray(a, b, c, v), [a, c]) == There(Primitive(v))
    ensures At(AroundArray(a, b, c, v), [c]) == Nowhere
  {
    InnerPlaces(b, c, v);
    assert AroundArray(a, b, c, v).fields[1..] == [] && [a, c][1..] == [c];
  }

  // The object in the array takes `a` off the open keys.
  lemma InsideFound(a: string, b: string, c: string, v: string, rest: string) returns (x: Event, y: Event)
    ensures FoundFields(WithArray(b, c, v).fields, [a], rest) == [x, y, PrimitiveEvent([c], v)]
    ensures x.path == [a, b] && y.path == [a, ""]
  {
    var fields, inner := WithArray(b, c, v).fields, InnerArray();
    var f, g := fields[0], fields[1];
    var item := inner.items[0];
    assert fields[1..] == [g] && [g][1..] == [] && inner.items[1..] == [];
    var first := f.tail + (LaidFieldsText(fields[1..]) + rest);
    var second := item.tail + (ItemsText([]) + ("]" + first));
    x, y := OwnBlock(inner, [a] + [b], first), OwnBlock(item.value, [a] + [""], second);
    OwnBlockIsBlock(inner, [a] + [b], first);
    OwnBlockIsBlock(item.value, [a] + [""], second);
    assert Found(item.value, [a], "", second) == [y] + FoundFields([], [a], "}" + second) == [y];
    assert FoundItems(inner.items, [a], "]" + first) == [y] + FoundItems([], Behind(item.value, [a], ""), "]" + first);
    assert Found(inner, [a], b, first) == [x] + [y];
    assert Behind(inner, [a], b) == BehindItems(inner.items, [a]) == Behind(item.value, [a], "") == [];
    assert [] + [c] == [c];
    assert FoundFields([g], [], rest) == [PrimitiveEvent([c], v)];
  }

  // A document with one member.
  lemma OnlyMemberFound(f: LaidField, post: string) returns (rest: string)
    ensures DocumentEvents(Object("", [f]), post)
      == [OwnBlock(Object("", [f]), [""], post)] + Found(f.value, [], f.key, rest)
  {
    hide OwnBlock;
    var fields := [f];
    assert fields[1..] == [] && [] + [""] == [""];
    rest := f.tail + (LaidFieldsText(fields[1..]) + ("}" + post));
    assert FoundFields(fields, [], "}" + post) == Found(f.value, [], f.key, rest) + [];
  }

  lemma EventsFound(a: string, b: string, c: string, v: string) returns (events: seq<Event>)
    requires a != ""
    ensures DocumentEvents(AroundArray(a, b, c, v), "") == events && |events| == 5
    ensures events[1].block && events[1].path == [a] && events[2].path == [a, b] && events[3].path == [a, ""]
    ensures events[4] == PrimitiveEvent([c], v)
  {
    hide OwnBlock, LaidFieldsText, PrimitiveEvent, FoundFields;
    var inner := WithArray(b, c, v);
    var rest := OnlyMemberFound(LaidField(a, "", "", inner, ""), "");
    var x, y := InsideFound(a, b, c, v, "}" + rest);
    OwnBlockIsBlock(inner, [a], rest);
    assert [] + [a] == [a] && Held([], a) == [a];
    events := [OwnBlock(AroundArray(a, b, c, v), [""], ""), OwnBlock(inner, [a], rest), x, y, PrimitiveEvent([c], v)];
    assert Found(inner, [], a, rest) == [OwnBlock(inner, [a], rest)] + [x, y, PrimitiveEvent([c], v)];
  }

  // What is stored under `a` and `c` comes to a binding to `c`, and one to `a` and `c` is left with the object.
  lemma KeyTakenOff(a: string, b: string, c: string, v: string, s: Slot) returns (block: Event)
    requires Names(a, b, c, v) && !s.target.IntTarget?
    ensures var l := AroundArray(a, b, c, v);
      && Parsable(l) && At(l, [a, c]) == There(Primitive(v)) && At(l, [c]) == Nowhere
      && (s.path == [c] ==> Rest([s], LaidText(l), [], "")[0] == Assigned(s, PrimitiveEvent([c], v)))
      && (s.path == [a, c] ==> Rest([s], LaidText(l), [], "")[0] == Assigned(s, block))
    ensures block.block && block.path == [a]
  {
    hide LaidText, Assigned, Found, Run;
    var l := AroundArray(a, b, c, v);
    AroundArrayWell(a, b, c, v);
    OuterPlaces(a, b, c, v);
    RunPlain(l);
    var events := EventsFound(a, b, c, v);
    block := events[1];
    if s.path == [c] {
      assert events == events[..4] + [events[4]] + [];
      GivenLast([s], events[..4], events[4], []);
    } else if s.path == [a, c] {
      assert events == events[..1] + [block] + events[2..];
      GivenLast([s], events[..1], block, events[2..]);
    }
  }

  // A document with nothing around it.
  lemma RunPlain(l: Laid)
    requires Parsable(l)
    ensures Run(LaidText(l), [], "") == DocumentEvents(l, "")
  {
    hide LaidText, Found;
    SeparatorIsFiller(true);
    RunDocument(l, "", "");
    assert "" + LaidText(l) + "" == LaidText(l);
  }

  lemma GivenLast(slots: seq<Slot>, a: seq<Event>, e: Event, b: seq<Event>)
    requires |slots| == 1 && !slots[0].target.IntTarget? && Matches(slots[0], e) && Aside(b, slots[0].path)
    ensures DeliverAll(slots, a + [e] + b)[0] == Assigned(slots[0], e)
  {
    LastOfSplit(slots, a, e, b, 0);
    var before := LastDecides(slots, a + [e] + b, 0);
  }

  // A binding to the single key `c` is set although the document has no such member.
  lemma StrayIsSet(a: string, b: string, c: string, v: string, s: Slot)
    requires Names(a, b, c, v) && s.path == [c]
    ensures var l := AroundArray(a, b, c, v);
      && Parsable(l) && Tells([s], 0) && At(l, [c]) == Nowhere && Stray(l.fields, c)
      && Rest(Cleared([s]), LaidText(l), [], "")[0].isSet
  {
    var l := AroundArray(a, b, c, v);
    AroundArrayWell(a, b, c, v);
    OuterPlaces(a, b, c, v);
    SeparatorIsFiller(true);
    assert "" + LaidText(l) + "" == LaidText(l);
    SetExactly(l, "", "", [s], 0);
    var fields := WithArray(b, c, v).fields;
    var f, g := fields[0], fields[1];
    assert fields[1..] == [g] && l.fields[1..] == [] && InnerArray().items[1..] == [];
    assert Lost(f.value, b) == LostItems(InnerArray().items) == 1;
    assert AtTop(g.value, 0, c, c, false);
    assert FieldsAtTop(fields, 1, c, false);
    assert StraysIn(l.fields[0], c);
    MembersAtTop(l.fields, c);
  }

  // ---- raw(): a bracket in a comment cuts the block short

  function CommentedArray(): Laid {
    Array("/*]*/", [])
  }

  lemma CommentedWell()
    ensures WellLaid(CommentedArray()) && Keyed(CommentedArray()) && !Captured(CommentedArray())
  {
    var g := "/*]*/";
    var h := g[2..];
    assert h == "]*/" && h[1..] == "*/" && h[1..][1..] == "/";
    assert HasCommentEnd(h);
    assert BlockCommentLength(h) == 3;
    assert g[5..] == "";
    assert IsFiller(g);
    assert g[1..] == "*]*/" && g[1..][1..] == h;
    assert Inner(CommentedArray()) == g;
    assert Dip(h) < 0;
  }

  // A document with that array: a binding to it does not get its text.
  lemma BracketInComment(k: string, s: Slot)
    requires IsBody(k) && k != "" && s.path == [k] && s.target.Dynamic?
    ensures var d := OneMember(k, CommentedArray());
      && Parsable(d) && At(d, [k]) == There(CommentedArray())
      && var r := Rest(Cleared([s]), LaidText(d), [], "")[0].target;
         r.Dynamic? && r.raw != LaidText(CommentedArray())
  {
    CommentedWell();
    UncapturedMember(CommentedArray(), k, s);
  }

  function OneMember(k: string, l: Laid): Laid {
    Object("", [LaidField(k, "", "", l, "")])
  }

  lemma UncapturedMember(l: Laid, k: string, s: Slot)
    requires IsContainer(l) && WellLaid(l) && Keyed(l) && !Captured(l)
    requires IsBody(k) && k != "" && s.path == [k] && s.target.Dynamic?
    ensures var d := OneMember(k, l);
      && Parsable(d) && At(d, [k]) == There(l)
      && var r := Rest(Cleared([s]), LaidText(d), [], "")[0].target; r.Dynamic? && r.raw != LaidText(l)
  {
    hide Captured, Rest, LaidText;
    SeparatorIsFiller(true);
    var d := OneMember(k, l);
    OneField(d.fields[0]);
    assert d.fields[1..] == [] && [k][1..] == [];
    assert At(d, [k]) == AtField(d.fields, [k]) == There(l);
    KeyedIsTraced(d, [k]);
    ParsedBinding(d, "", "", [s], 0);
    assert "" + LaidText(d) + "" == LaidText(d);
  }

  // ---- operator>>: iteration that does not hand over all elements

  function TwoItems(first: Laid, tail: string, second: Laid): Laid {
    Array("", [LaidItem(first, tail), LaidItem(second, "")])
  }

  lemma TwoItemsWell(first: Laid, tail: string, second: Laid)
    requires WellLaid(first) && WellLaid(second) && TailOk(first, tail, false)
    ensures WellLaid(TwoItems(first, tail, second))
  {
    var x, y := LaidItem(first, tail), LaidItem(second, "");
    Layouts.ItemsCons(x, [y]);
    Layouts.ItemsCons(y, []);
    assert [x] + [y] == [x, y] && [y] + [] == [y];
    SeparatorIsFiller(true);
  }

  // [1,/**/2]
  lemma CommentBetween(rest: string)
    ensures var l := TwoItems(Primitive("1"), ",/**/", Primitive("2"));
      WellLaid(l) && Tokens((LaidText(l) + rest)[1..]) != ElementTokens(l.items)
  {
    hide Tokens, IsFiller, LaidText;
    var tail := ",/**/";
    CommentTail();
    var l := TwoItems(Primitive("1"), tail, Primitive("2"));
    TwoItemsWell(Primitive("1"), tail, Primitive("2"));
    IterateLaid(l, rest);
    assert !Blanks(l.items[0].tail);
  }

  lemma CommentTail()
    ensures var tail := ",/**/"; IsFiller(tail) && !Blanks(tail) && IsPrimitiveDelim(tail[0])
  {
    var tail := ",/**/";
    assert tail[1..] == "/**/" && tail[1..][2..] == "*/" && tail[1..][4..] == "" && tail[1] == '/';
    assert HasCommentEnd("*/") && BlockCommentLength("*/") == 2;
    assert IsSkipped(tail[1..], true);
  }

  // ["",2]
  lemma EmptyStringFirst(rest: string)
    ensures var l := TwoItems(Str(""), ",", Primitive("2"));
      WellLaid(l) && Tokens((LaidText(l) + rest)[1..]) == []
  {
    var l := TwoItems(Str(""), ",", Primitive("2"));
    SomeValue();
    SeparatorIsFiller(false);
    TwoItemsWell(Str(""), ",", Primitive("2"));
    SeparatedTwo();
    hide Tokens;
    IterateArray(l, rest);
    assert ElementTokens(l.items)[0] == ElementToken(Str(""));
  }

  lemma SeparatedTwo()
    ensures Separated(TwoItems(Str(""), ",", Primitive("2")).items)
  {
    SomeValue();
    var x, y := LaidItem(Str(""), ","), LaidItem(Primitive("2"), "");
    SeparatedCons(x, [y]);
    SeparatedCons(y, []);
    assert [x] + [y] == [x, y] && [y] + [] == [y];
  }
}

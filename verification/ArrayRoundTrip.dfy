/** Emitting an array, parsing the text into a dynamic binding and iterating: every element comes back. */
module ArrayRoundTrip {
  import opened Escaping
  import opened PrettyText
  import opened Buffers
  import opened JsonValues
  import opened Grouping
  import opened Emission
  import opened Paths
  import opened Layouts
  import opened PrettyLayouts
  import opened ParserSpec
  import opened Delivery
  import opened Emitted
  import opened Iteration

  // A variable of a kind for the value holds it; what is null, and the string "null", zeroes any variable.
  predicate Received(v: Value, x: Target) {
    && (v.VNull? || v == VStr("null") ==> x == Zeroed(x))
    && (v.VBool? && x.BoolTarget? ==> x.b == v.b)
    && (v.VSigned? && x.IntTarget? && x.lo <= v.n <= x.hi ==> x.n == v.n)
    && (v.VUnsigned? && x.IntTarget? && x.lo <= v.u <= x.hi ==> x.n == v.u)
    && (v.VStr? && v.s != "null" && x.StringTarget? ==> x.s == v.s)
    && (v.VStr? && v.s != "null" && x.ViewTarget? ==> x.view == Escape(v.s))
  }

  lemma ElementReceived(l: Laid, v: Value, into: Target)
    requires Bare(l) == Compact(ToJson(v)) && !into.Dynamic?
    ensures Received(v, Taken(into, ElementToken(l)))
  {
    ScalarJson(v);
    ElementTaken(l, ToJson(v), into);
    SameKindTaken(into, ElementToken(l));
    hide Taken, ElementToken, ToJson;
  }

  lemma SameKindTaken(into: Target, token: Token)
    requires !into.Dynamic?
    ensures SameKind(Taken(into, token), into) && !Taken(into, token).Dynamic?
  {}

  lemma {:induction false} AllReceived(items: seq<LaidItem>, vs: seq<Value>, into: Target)
    requires |items| == |vs| && !into.Dynamic?
    requires forall j :: 0 <= j < |vs| ==> Bare(items[j].value) == Compact(ToJson(vs[j]))
    ensures var got := TakenAll(into, ElementTokens(items));
      |got| == |vs| && forall j :: 0 <= j < |vs| ==> SameKind(got[j], into) && Received(vs[j], got[j])
    decreases |vs|
  {
    hide Taken, ElementToken, Received, ToJson, Bare, Compact;
    if vs != [] {
      var x := Taken(into, ElementToken(items[0].value));
      ElementReceived(items[0].value, vs[0], into);
      SameKindTaken(into, ElementToken(items[0].value));
      AllReceived(items[1..], vs[1..], x);
      var tokens := ElementTokens(items);
      assert tokens[1..] == ElementTokens(items[1..]);
      var got, rest := TakenAll(into, tokens), TakenAll(x, tokens[1..]);
      assert got == [x] + rest;
      forall j | 0 <= j < |vs| ensures SameKind(got[j], into) && Received(vs[j], got[j]) {
        if j > 0 { assert got[j] == rest[j - 1] && vs[j] == vs[1..][j - 1]; }
      }
    }
  }

  lemma {:induction false} ItemIsBare(items: seq<LaidItem>, elems: seq<Json>, j: nat)
    requires BareItems(items) == CompactItems(elems) && j < |elems|
    ensures |items| == |elems| && Bare(items[j].value) == Compact(elems[j])
  {
    assert items != [];
    assert BareItems(items)[1..] == BareItems(items[1..]) && CompactItems(elems)[1..] == CompactItems(elems[1..]);
    if j > 0 {
      ItemIsBare(items[1..], elems[1..], j - 1);
    } else if |elems| > 1 {
      ItemIsBare(items[1..], elems[1..], 0);
    } else {
      assert BareItems(items[1..]) == [];
    }
  }

  // From an emitted array all elements are handed over, in order, none of them being the empty string.
  lemma ArrayReceived(shape: Shape, vs: seq<Value>, r: Slot, into: Target)
    requires Outside(shape) && r.isSet && r.target.Dynamic? && !r.target.started && !into.Dynamic?
    requires r.target.raw == Render(shape, Text(ToJson(VArr(vs)))) && forall j :: 0 <= j < |vs| ==> vs[j] != VStr("")
    ensures var got := AllExtracted(r, into);
      |got| == |vs| && forall j :: 0 <= j < |vs| ==> SameKind(got[j], into) && Received(vs[j], got[j])
  {
    hide AllExtracted, Tokens, TakenAll, Received, Render, Text, NoEmptyStrings;
    ArrayJson(vs);
    var elems := ToJson(VArr(vs)).elems;
    assert r.target.raw + "" == r.target.raw;
    IterateEmitted(shape, elems, "");
    var l := LaidBy(shape, JArr(elems));
    ArrayExtracted(r, into);
    ElementsReceived(l.items, vs, elems, into);
  }

  lemma ElementsReceived(items: seq<LaidItem>, vs: seq<Value>, elems: seq<Json>, into: Target)
    requires BareItems(items) == CompactItems(elems) && |elems| == |vs| && !into.Dynamic?
    requires forall j :: 0 <= j < |vs| ==> elems[j] == ToJson(vs[j]) && vs[j] != VStr("")
    ensures NoEmptyStrings(items)
    ensures var got := TakenAll(into, ElementTokens(items));
      |got| == |vs| && forall j :: 0 <= j < |vs| ==> SameKind(got[j], into) && Received(vs[j], got[j])
  {
    hide TakenAll, Received, ToJson;
    if elems == [] { assert items == []; } else { ItemIsBare(items, elems, 0); }
    forall j | 0 <= j < |vs|
      ensures Bare(items[j].value) == Compact(ToJson(vs[j])) && !IsEmptyString(items[j].value)
    {
      ItemIsBare(items, elems, j);
      NotEmptyString(items[j].value, vs[j]);
    }
    AllReceived(items, vs, into);
  }

  lemma NotEmptyString(l: Laid, v: Value)
    requires Bare(l) == Compact(ToJson(v)) && v != VStr("")
    ensures !IsEmptyString(l)
  {
    ScalarJson(v);
    if v.VStr? { EscapeLength(v.s); }
  }

  lemma PlaceOf(shape: Shape, es: seq<Entry>, k: nat, q: Path, text: string)
    requires Binds(es, k, q) && RenderedInPlace(shape, es, k, text)
    ensures text == Render(Next(shape, TextBefore(ToJson(VDoc(es)), q)), Text(ToJson(es[k].value)))
  {}

  // Emission without failure, then a parse: the loop over a dynamic binding to an array's path is handed every element
  // of the array and nothing else, and each turn leaves the element in the variable.
  lemma EmitThenIterate(s: Snap, es: seq<Entry>, t: Snap, slots: seq<Slot>, i: nat, k: nat, vs: seq<Value>,
                        into: Target)
    requires PrefixFree(Items(es)) && Outside(s.shape)
    requires After(s, DocText(es), t) && !t.bad
    requires DistinctPaths(slots) && BindsSome(es, slots) && i < |slots| && Binds(es, k, slots[i].path)
    requires Traced(Compact(ToJson(VDoc(es))), slots[i].path)
    requires es[k].value == VArr(vs) && slots[i].target.Dynamic? && !into.Dynamic?
    requires forall j :: 0 <= j < |vs| ==> vs[j] != VStr("")
    ensures var r := Rest(Cleared(slots), t.content[|s.content|..], [], "")[i];
      && r.target.Dynamic?
      && var got := AllExtracted(r, into);
         |got| == |vs| && forall j :: 0 <= j < |vs| ==> SameKind(got[j], into) && Received(vs[j], got[j])
  {
    hide Rest, AllExtracted, Received, BoundTo, Traced, Render, Text, Compact, RenderedInPlace, TextBefore;
    var r := Rest(Cleared(slots), t.content[|s.content|..], [], "")[i];
    EmitThenParse(s, es, t, slots, i, k);
    BoundValue(s.shape, es, k, r);
    PlacedValue(s.shape, es, k, slots[i].path);
    var place := Next(s.shape, TextBefore(ToJson(VDoc(es)), slots[i].path));
    PlaceOf(s.shape, es, k, slots[i].path, r.target.raw);
    ArrayReceived(place, vs, r, into);
  }
}

/** Emitting nodes and parsing the text back: every binding to an emitted path gets that node's value. */
module Emitted {
  import opened Escaping
  import opened Decoding
  import opened Integers
  import opened PrettyText
  import opened Buffers
  import opened JsonValues
  import opened Paths
  import opened Grouping
  import opened Emission
  import opened Layouts
  import opened PrettyLayouts
  import opened ParserSpec
  import opened RoundTrip
  import opened Bindings
  import opened Delivery

  // A path the way the parser compares it: key by key, as written in the text.
  function AsWritten(p: Path): (q: Path)
    ensures |q| == |p|
  {
    if p == [] then [] else [Escape(p[0])] + AsWritten(p[1..])
  }

  lemma {:induction false} CleanPath(p: Path)
    requires forall k :: k in p ==> Clean(k)
    ensures AsWritten(p) == p
  {
    if p != [] {
      EscapeIdentity(p[0]);
      CleanPath(p[1..]);
    }
  }

  lemma EscapeInjective(a: string, b: string)
    requires Escape(a) == Escape(b)
    ensures a == b
  {
    DecodeEscape(a);
    DecodeEscape(b);
  }

  // ---- what can be read back

  predicate Nonempty(p: Path) {
    forall k :: k in p ==> k != ""
  }

  // Prefix-free paths of non-empty keys, and no documents inside arrays: nothing is lost on the way.
  predicate Readable(v: Value)
    decreases v, 1
  {
    match v
    case VArr(elems) => NoDocuments(elems)
    case VDoc(entries) => ReadableEntries(entries) && PrefixFree(Items(entries))
    case _ => true
  }

  predicate NoDocuments(vs: seq<Value>)
    decreases vs, 0
  {
    vs == [] || (!vs[0].VDoc? && Readable(vs[0]) && NoDocuments(vs[1..]))
  }

  predicate ReadableEntries(es: seq<Entry>)
    decreases es, 0
  {
    es == [] || ((es[0].omitted || (Nonempty(es[0].path) && Readable(es[0].value))) && ReadableEntries(es[1..]))
  }

  predicate Sound(l: Laid) {
    Keyed(l) && Unique(l)
  }

  predicate SoundItem(it: Item) {
    it.path != [] && Nonempty(it.path) && Sound(Compact(PlanJson(it.value)))
  }

  predicate SoundItems(items: seq<Item>) {
    forall it :: it in items ==> SoundItem(it)
  }

  function Laying(ms: seq<Member>): seq<LaidField> {
    CompactFields(Fields(ms))
  }

  lemma LayingCons(m: Member, ms: seq<Member>)
    ensures var f := LaidField(Escape(m.key), "", "", Compact(TreeJson(m.tree)), Separator(ms == []));
      Laying([m] + ms) == [f] + Laying(ms)
  {
    assert ([m] + ms)[1..] == ms;
    var f := Field(m.key, TreeJson(m.tree));
    assert Fields([m] + ms) == [f] + Fields(ms);
    assert ([f] + Fields(ms))[1..] == Fields(ms);
    if ms != [] { assert Fields(ms) != []; }
  }

  // ---- grouped nodes are found at their paths

  lemma {:induction false} HasFieldKey(ms: seq<Member>, k: string)
    requires HasField(Laying(ms), Escape(k))
    ensures HasKey(ms, k)
  {
    if ms == [] {
      assert false;
    } else {
      assert ms == [ms[0]] + ms[1..];
      LayingCons(ms[0], ms[1..]);
      assert Laying(ms)[1..] == Laying(ms[1..]);
      if Escape(ms[0].key) == Escape(k) {
        EscapeInjective(ms[0].key, k);
      } else {
        HasFieldKey(ms[1..], k);
      }
    }
  }

  lemma AtFirst(m: Member, ms: seq<Member>, p: Path)
    requires p != [] && !HasKey(ms, m.key)
    ensures var q := AsWritten(p);
      && (p[0] == m.key ==> AtField(Laying([m] + ms), q) == At(Compact(TreeJson(m.tree)), AsWritten(p[1..])))
      && (p[0] != m.key && AtField(Laying(ms), q).There? ==> AtField(Laying([m] + ms), q) == AtField(Laying(ms), q))
  {
    LayingCons(m, ms);
    var q := AsWritten(p);
    assert q[1..] == AsWritten(p[1..]);
    assert Laying([m] + ms)[1..] == Laying(ms);
    if p[0] == m.key {
      if HasField(Laying(ms), q[0]) { HasFieldKey(ms, m.key); }
    } else if AtField(Laying(ms), q).There? {
      ThereHasField(Laying(ms), q);
    }
  }

  // The first key of the grouped nodes does not come again.
  lemma FirstKeyOnce(items: seq<Item>)
    requires PrefixFree(items) && items != []
    ensures Safe(items) && Group(items) != [] && !HasKey(Group(items)[1..], Group(items)[0].key)
  {
    GroupUniqueKeys(items);
  }

  lemma {:induction false} GroupFinds(items: seq<Item>, it: Item)
    requires PrefixFree(items) && it in items
    ensures Safe(items) && it.path != []
    ensures AtField(Laying(Group(items)), AsWritten(it.path)) == There(Compact(PlanJson(it.value)))
    decreases Weight(items), 1
  {
    FirstKeyOnce(items);
    if |items[0].path| == 1 { FindsLeaf(items, it); } else { FindsBranch(items, it); }
  }

  lemma {:induction false} FindsLeaf(items: seq<Item>, it: Item)
    requires PrefixFree(items) && Safe(items) && it in items && |items[0].path| == 1
    requires !HasKey(Group(items)[1..], Group(items)[0].key)
    ensures it.path != []
    ensures AtField(Laying(Group(items)), AsWritten(it.path)) == There(Compact(PlanJson(it.value)))
    decreases Weight(items), 0
  {
    hide Laying, HasKey, Clash;
    var k, rest := items[0].path[0], items[1..];
    assert items[0].path == [k] && Group(items)[1..] == Group(rest);
    AtFirst(Member(k, Leaf(items[0].value)), Group(rest), if it == items[0] then [k] else it.path);
    if it != items[0] {
      ClashFirst(k, it.path);
      GroupFinds(rest, it);
    } else {
      assert [k][1..] == [];
    }
  }

  lemma ClashFirst(k: string, p: Path)
    ensures !Clash([k], p) ==> p != [] && p[0] != k
  {}

  lemma {:induction false} FindsBranch(items: seq<Item>, it: Item)
    requires PrefixFree(items) && Safe(items) && it in items && |items[0].path| > 1
    requires !HasKey(Group(items)[1..], Group(items)[0].key)
    ensures it.path != []
    ensures AtField(Laying(Group(items)), AsWritten(it.path)) == There(Compact(PlanJson(it.value)))
    decreases Weight(items), 0
  {
    hide Laying, HasKey, Clash;
    var k := items[0].path[0];
    GroupBranch(items, k);
    assert Group(items)[1..] == Group(Beside(items, k));
    SafeHead(items);
    PrefixFreeParts(items, k);
    var m := Member(k, Branch(Group(Under(items, k))));
    if Starts(it.path, k) {
      KeepUnder(items, k, it);
      assert it.path == [k] + it.path[1..];
      GroupFinds(Under(items, k), Item(it.path[1..], it.value));
      BranchPlace(Group(Under(items, k)), AsWritten(it.path[1..]));
      AtFirst(m, Group(Beside(items, k)), it.path);
    } else {
      KeepBeside(items, k, it);
      GroupFinds(Beside(items, k), it);
      AtFirst(m, Group(Beside(items, k)), it.path);
    }
  }

  lemma BranchPlace(ms: seq<Member>, q: Path)
    requires q != []
    ensures At(Compact(TreeJson(Branch(ms))), q) == AtField(Laying(ms), q)
  {}

  // ---- grouped nodes make a document the parser reads right

  lemma SoundFirst(m: Member, ms: seq<Member>)
    requires m.key != "" && Sound(Compact(TreeJson(m.tree))) && !HasKey(ms, m.key)
    requires KeyedFields(Laying(ms)) && UniqueFields(Laying(ms))
    ensures KeyedFields(Laying([m] + ms)) && UniqueFields(Laying([m] + ms))
  {
    LayingCons(m, ms);
    assert Laying([m] + ms)[1..] == Laying(ms);
    if HasField(Laying(ms), Escape(m.key)) { HasFieldKey(ms, m.key); }
  }

  lemma SoundUnder(items: seq<Item>, k: string)
    requires SoundItems(items) && forall it :: it in items ==> it.path != [k]
    ensures SoundItems(Under(items, k)) && SoundItems(Beside(items, k))
  {
    forall it | it in Under(items, k) ensures SoundItem(it) {
      UnderMember(items, k, it);
      var whole := Item([k] + it.path, it.value);
      assert SoundItem(whole);
      assert forall x :: x in it.path ==> x in whole.path;
      assert whole.path != [k];
    }
    forall it | it in Beside(items, k) ensures SoundItem(it) {
      BesideMember(items, k, it);
    }
  }

  lemma {:induction false} GroupIsSound(items: seq<Item>)
    requires PrefixFree(items) && SoundItems(items)
    ensures Safe(items) && KeyedFields(Laying(Group(items))) && UniqueFields(Laying(Group(items)))
    decreases Weight(items)
  {
    hide Laying, Sound;
    PrefixFreeIsSafe(items);
    GroupUniqueKeys(items);
    if items == [] {
      NothingLaid();
    } else {
      var k, rest := items[0].path[0], items[1..];
      assert SoundItem(items[0]) && k in items[0].path;
      if |items[0].path| == 1 {
        assert forall it :: it in rest ==> it in items;
        GroupIsSound(rest);
        assert Group(items)[1..] == Group(rest);
        SoundFirst(Member(k, Leaf(items[0].value)), Group(rest));
      } else {
        GroupBranch(items, k);
        SafeHead(items);
        PrefixFreeParts(items, k);
        SoundUnder(items, k);
        GroupIsSound(Under(items, k));
        GroupIsSound(Beside(items, k));
        assert Group(items)[1..] == Group(Beside(items, k));
        BranchIsSound(Group(Under(items, k)));
        SoundFirst(Member(k, Branch(Group(Under(items, k)))), Group(Beside(items, k)));
      }
    }
  }

  lemma NothingLaid()
    ensures Laying([]) == []
  {}

  lemma BranchIsSound(ms: seq<Member>)
    requires KeyedFields(Laying(ms)) && UniqueFields(Laying(ms))
    ensures Sound(Compact(TreeJson(Branch(ms))))
  {}

  lemma {:induction false} ItemsAreSound(es: seq<Entry>)
    requires ReadableEntries(es) && PrefixFree(Items(es))
    ensures SoundItems(Items(es))
    decreases es, 0
  {
    if es != [] {
      if es[0].omitted {
        ItemsAreSound(es[1..]);
      } else {
        assert Items(es)[1..] == Items(es[1..]);
        ReadableIsSound(es[0].value);
        ItemsAreSound(es[1..]);
      }
    }
  }

  lemma {:induction false} ReadableIsSound(v: Value)
    requires Readable(v)
    ensures Sound(Compact(ToJson(v)))
    decreases v, 1
  {
    match v
    case VArr(elems) => ArrayIsSound(elems);
    case VDoc(entries) => DocumentIsSound(entries);
    case _ =>
  }

  lemma {:induction false} DocumentIsSound(es: seq<Entry>)
    requires ReadableEntries(es) && PrefixFree(Items(es))
    ensures Sound(Compact(ToJson(VDoc(es))))
    decreases es, 1
  {
    ItemsAreSound(es);
    GroupIsSound(Items(es));
    BranchIsSound(Group(Items(es)));
    DocumentJson(es);
  }

  // A document is the object of its grouped nodes.
  lemma DocumentJson(es: seq<Entry>)
    requires Safe(Items(es))
    ensures ToJson(VDoc(es)) == JObj(Fields(Group(Items(es)))) == TreeJson(Branch(Group(Items(es))))
  {
    GroupIsBuild(Items(es));
  }

  lemma {:induction false} ArrayIsSound(vs: seq<Value>)
    requires NoDocuments(vs)
    ensures NoObjects(CompactItems(PlanJsons(ToPlans(vs))))
    decreases vs, 0
  {
    if vs != [] {
      ReadableIsSound(vs[0]);
      ArrayIsSound(vs[1..]);
      assert ToPlans(vs)[1..] == ToPlans(vs[1..]);
      assert PlanJsons(ToPlans(vs))[1..] == PlanJsons(ToPlans(vs[1..]));
      assert CompactItems(PlanJsons(ToPlans(vs)))[1..] == CompactItems(PlanJsons(ToPlans(vs[1..])));
    }
  }

  // ---- there and back

  predicate Binds(es: seq<Entry>, k: nat, q: Path) {
    k < |es| && !es[k].omitted && q == AsWritten(es[k].path)
  }

  ghost predicate BindsSome(es: seq<Entry>, slots: seq<Slot>) {
    forall i :: 0 <= i < |slots| ==> exists k: nat :: Binds(es, k, slots[i].path)
  }

  lemma {:induction false} InItems(es: seq<Entry>, k: nat)
    requires k < |es| && !es[k].omitted
    ensures Item(es[k].path, ToPlan(es[k].value)) in Items(es)
  {
    if k > 0 { InItems(es[1..], k - 1); }
  }

  // The emitted object has each node's value at the node's path.
  lemma EmittedPlace(es: seq<Entry>, k: nat, q: Path)
    requires PrefixFree(Items(es)) && Binds(es, k, q)
    ensures q != [] && At(Compact(ToJson(VDoc(es))), q) == There(Compact(ToJson(es[k].value)))
  {
    hide Laying;
    var items := Items(es);
    InItems(es, k);
    GroupFinds(items, Item(es[k].path, ToPlan(es[k].value)));
    DocumentJson(es);
    BranchPlace(Group(items), q);
  }

  lemma EmittedIsParsable(es: seq<Entry>)
    requires PrefixFree(Items(es))
    ensures Parsable(Compact(ToJson(VDoc(es))))
  {
    PrefixFreeIsSafe(Items(es));
    DocumentJson(es);
    CompactText(ToJson(VDoc(es)));
  }

  // Without documents inside arrays and empty keys no path is mistaken for another one.
  lemma ReadableIsTraced(es: seq<Entry>, k: nat, q: Path)
    requires Readable(VDoc(es)) && Binds(es, k, q)
    ensures Traced(Compact(ToJson(VDoc(es))), q)
  {
    PrefixFreeIsSafe(Items(es));
    DocumentJson(es);
    EmittedPlace(es, k, q);
    ReadableIsSound(VDoc(es));
    KeyedIsTraced(Compact(ToJson(VDoc(es))), q);
  }

  // The same of the layout that a buffer of any kind gives the document.
  lemma RenderedDocument(shape: Shape, es: seq<Entry>, slots: seq<Slot>)
    requires PrefixFree(Items(es)) && Outside(shape) && BindsSome(es, slots)
    ensures var l := LaidBy(shape, ToJson(VDoc(es)));
      && LaidText(l) == Render(shape, DocText(es)) && Parsable(l) && Bare(l) == Compact(ToJson(VDoc(es))) && Tidy(l)
      && AllThere(l, slots)
  {
    hide At, Binds;
    var j := ToJson(VDoc(es));
    var l, c := LaidBy(shape, j), Compact(j);
    RenderedIsLaid(shape, j);
    CompactText(j);
    EmittedIsParsable(es);
    forall i | 0 <= i < |slots| ensures slots[i].path != [] && At(l, slots[i].path).There? {
      var k: nat :| Binds(es, k, slots[i].path);
      EmittedPlace(es, k, slots[i].path);
      SamePlace(l, c, slots[i].path);
    }
  }

  // `text` is the value of node `k` as the buffer renders it where it stands in the document.
  ghost predicate RenderedInPlace(shape: Shape, es: seq<Entry>, k: nat, text: string)
    requires k < |es|
  {
    text == Render(Next(shape, TextBefore(ToJson(VDoc(es)), AsWritten(es[k].path))), Text(ToJson(es[k].value)))
  }

  // The binding carries node `k`'s value, in the layout the buffer has given it.
  ghost predicate BoundTo(shape: Shape, es: seq<Entry>, k: nat, r: Slot)
    requires k < |es|
  {
    exists v: Laid ::
      && Carries(r, v) && Bare(v) == Compact(ToJson(es[k].value)) && Tidy(v)
      && RenderedInPlace(shape, es, k, LaidText(v))
  }

  // Emission without failure, then a parse of what was emitted, into distinct bindings on any of the emitted
  // paths: the binding on a node's path gets that node's value, in a plain or in a pretty buffer.
  lemma EmitThenParse(s: Snap, es: seq<Entry>, t: Snap, slots: seq<Slot>, i: nat, k: nat)
    requires PrefixFree(Items(es)) && Outside(s.shape)
    requires After(s, DocText(es), t) && !t.bad
    requires DistinctPaths(slots) && BindsSome(es, slots) && i < |slots| && Binds(es, k, slots[i].path)
    requires Traced(Compact(ToJson(VDoc(es))), slots[i].path)
    ensures BoundTo(s.shape, es, k, Rest(Cleared(slots), t.content[|s.content|..], [], "")[i])
    ensures SameKind(Rest(Cleared(slots), t.content[|s.content|..], [], "")[i].target, slots[i].target)
  {
    hide Carries, Rest, Parsable, IsFiller, At, Render, BoundTo, RenderedInPlace, DistinctPaths, Traced, LaidText, Tidy,
      Bare;
    var l := LaidBy(s.shape, ToJson(VDoc(es)));
    RenderedDocument(s.shape, es, slots);
    StillTraced(l, ToJson(VDoc(es)), slots[i].path);
    var json := t.content[|s.content|..];
    Appended(s, DocText(es), t);
    assert json == "" + LaidText(l) + "";
    NoFiller();
    ParsedBinding(l, "", "", slots, i);
    PlacedValue(s.shape, es, k, slots[i].path);
    BoundBy(s.shape, es, k, Rest(Cleared(slots), json, [], "")[i], At(l, slots[i].path).l);
  }

  lemma StillTraced(l: Laid, j: Json, q: Path)
    requires Bare(l) == Compact(j) && Traced(Compact(j), q)
    ensures Traced(l, q)
  {
    CompactText(j);
    SameTraced(Compact(j), l, q);
  }

  lemma Appended(s: Snap, text: string, t: Snap)
    requires After(s, text, t) && !t.bad
    ensures |s.content| <= |t.content| && t.content[|s.content|..] == Render(s.shape, text)
  {
    hide Render, Next;
  }

  lemma PlacedValue(shape: Shape, es: seq<Entry>, k: nat, q: Path)
    requires PrefixFree(Items(es)) && Outside(shape) && Binds(es, k, q)
    ensures var l := LaidBy(shape, ToJson(VDoc(es)));
      && At(l, q).There? && Bare(At(l, q).l) == Compact(ToJson(es[k].value)) && Tidy(At(l, q).l)
      && RenderedInPlace(shape, es, k, LaidText(At(l, q).l))
    ensures Outside(Next(shape, TextBefore(ToJson(VDoc(es)), q)))
  {
    var j := ToJson(VDoc(es));
    var l := LaidBy(shape, j);
    EmittedPlace(es, k, q);
    RenderedIsLaid(shape, j);
    CompactText(j);
    CompactText(ToJson(es[k].value));
    SamePlace(l, Compact(j), q);
    PlaceIsTidy(l, q);
    var v := RenderedPlace(shape, j, q);
    CompactText(v);
  }

  lemma BoundBy(shape: Shape, es: seq<Entry>, k: nat, r: Slot, v: Laid)
    requires k < |es| && Carries(r, v) && Bare(v) == Compact(ToJson(es[k].value)) && Tidy(v)
    requires RenderedInPlace(shape, es, k, LaidText(v))
    ensures BoundTo(shape, es, k, r)
  {}

  // What that means for each kind of value and binding.
  lemma BoundValue(shape: Shape, es: seq<Entry>, k: nat, r: Slot)
    requires k < |es| && BoundTo(shape, es, k, r)
    ensures r.isSet && (r.isNull <==> es[k].value.VNull?)
    ensures es[k].value.VBool? && r.target.BoolTarget? ==> r.target.b == es[k].value.b
    ensures es[k].value.VSigned? && r.target.IntTarget? && r.target.lo <= es[k].value.n <= r.target.hi ==>
      r.target.n == es[k].value.n
    ensures es[k].value.VUnsigned? && r.target.IntTarget? && r.target.lo <= es[k].value.u <= r.target.hi ==>
      r.target.n == es[k].value.u
    ensures es[k].value.VStr? && r.target.StringTarget? ==> r.target.s == es[k].value.s
    ensures es[k].value.VStr? && r.target.ViewTarget? ==> r.target.view == Escape(es[k].value.s)
    ensures (es[k].value.VArr? || es[k].value.VDoc?) && r.target.Dynamic? ==>
      RenderedInPlace(shape, es, k, r.target.raw)
    ensures r.target.Dynamic? ==> r.target.iter == r.target.raw && !r.target.started
  {
    hide RenderedInPlace, LaidText, FromChars, Decode, Captured, Tidy, Render, Next;
    var j := ToJson(es[k].value);
    var v: Laid :| Carries(r, v) && Bare(v) == Compact(j) && Tidy(v) && RenderedInPlace(shape, es, k, LaidText(v));
    TidyIsCaptured(v);
    ScalarsAreBare(v, j);
    if j.JStr? {
      DecodeEscape(j.s);
    } else if IsScalar(j) {
      NullText(j);
      if j.JInt? && r.target.IntTarget? && r.target.lo <= j.n <= r.target.hi {
        FromCharsReadsIntText(j.n, r.target.lo, r.target.hi, 0);
        FromCharsReadsIntText(j.n, r.target.lo, r.target.hi, 1);
      }
    }
  }

  lemma ScalarsAreBare(v: Laid, j: Json)
    requires Bare(v) == Compact(j)
    ensures IsScalar(j) ==> v == Compact(j)
    ensures IsContainer(v) <==> !IsScalar(j)
  {}

  lemma NullText(j: Json)
    requires IsScalar(j) && !j.JStr?
    ensures Text(j) == "null" <==> j.JNull?
  {
    if j.JInt? {
      DecimalIsCanonical(if j.n < 0 then -j.n else j.n);
      assert IsDigit(Text(j)[|Text(j)| - 1]);
    }
  }

  // In a plain buffer the text is the compact text.
  lemma PlainInPlace(es: seq<Entry>, k: nat, text: string)
    requires k < |es| && RenderedInPlace(Plain, es, k, text)
    ensures text == Text(ToJson(es[k].value))
  {}

  lemma NoFiller()
    ensures IsFiller("")
  {}

  lemma {:induction false} PlaceIsTidy(l: Laid, q: Path)
    requires Tidy(l) && At(l, q).There?
    ensures Tidy(At(l, q).l)
    decreases l, 1
  {
    if q != [] { FieldPlaceIsTidy(l.fields, q); }
  }

  lemma {:induction false} FieldPlaceIsTidy(fields: seq<LaidField>, q: Path)
    requires q != [] && TidyFields(fields) && AtField(fields, q).There?
    ensures Tidy(AtField(fields, q).l)
    decreases fields, 0
  {
    if HasField(fields[1..], q[0]) {
      FieldPlaceIsTidy(fields[1..], q);
    } else {
      PlaceIsTidy(fields[0].value, q[1..]);
    }
  }
}

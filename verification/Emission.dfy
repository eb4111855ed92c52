/** What emitting a list of nodes amounts to: the buffer calls it makes, their text, and what a level of the
    recursion still has to do (document.cpp:10-88). */
module Emission {
  import opened Escaping
  import opened PrettyText
  import opened Buffers
  import opened Writers
  import opened Integers
  import opened JsonValues
  import opened Paths
  import opened Grouping

  // ---- values and entries

  datatype Value =
    | VNull
    | VBool(b: bool)
    | VSigned(bits: nat, n: int)
    | VUnsigned(bits: nat, u: nat)
    | VStr(s: string)
    | VArr(elems: seq<Value>)
    | VDoc(entries: seq<Entry>)

  // A node as data: its path, whether it is left out, its value.
  datatype Entry = Entry(path: Path, omitted: bool, value: Value)

  function ToPlan(v: Value): Plan
    decreases v, 1
  {
    match v
    case VNull => PNull
    case VBool(b) => PBool(b)
    case VSigned(_, n) => PInt(n)
    case VUnsigned(_, u) => PInt(u)
    case VStr(s) => PStr(s)
    case VArr(elems) => PList(ToPlans(elems))
    case VDoc(entries) => if entries == [] then PEmpty else PDoc(Build(Items(entries)))
  }

  function ToPlans(vs: seq<Value>): seq<Plan>
    decreases vs, 0
  {
    if vs == [] then [] else [ToPlan(vs[0])] + ToPlans(vs[1..])
  }

  function Items(entries: seq<Entry>): seq<Item>
    decreases entries, 0
  {
    if entries == [] then []
    else if entries[0].omitted then Items(entries[1..])
    else [Item(entries[0].path, ToPlan(entries[0].value))] + Items(entries[1..])
  }

  function ToJson(v: Value): Json {
    PlanJson(ToPlan(v))
  }

  // What a value is as JSON: a scalar is itself.
  lemma ScalarJson(v: Value)
    ensures v.VNull? ==> ToJson(v) == JNull
    ensures v.VBool? ==> ToJson(v) == JBool(v.b)
    ensures v.VSigned? ==> ToJson(v) == JInt(v.n)
    ensures v.VUnsigned? ==> ToJson(v) == JInt(v.u)
    ensures v.VStr? ==> ToJson(v) == JStr(v.s)
  {}

  // An array has all its elements, in order.
  lemma {:induction false} ArrayJson(vs: seq<Value>)
    ensures ToJson(VArr(vs)).JArr? && |ToJson(VArr(vs)).elems| == |vs|
    ensures forall i :: 0 <= i < |vs| ==> ToJson(VArr(vs)).elems[i] == ToJson(vs[i])
    decreases |vs|
  {
    ArrayPlans(vs);
    if vs != [] {
      ArrayJson(vs[1..]);
      ArrayPlans(vs[1..]);
      var elems, rest := ToJson(VArr(vs)).elems, ToJson(VArr(vs[1..])).elems;
      assert ToPlans(vs)[1..] == ToPlans(vs[1..]) && ToPlans(vs)[0] == ToPlan(vs[0]);
      assert elems == [ToJson(vs[0])] + rest;
      assert forall i :: 0 < i < |vs| ==> vs[i] == vs[1..][i - 1];
    }
  }

  lemma ArrayPlans(vs: seq<Value>)
    ensures ToJson(VArr(vs)) == JArr(PlanJsons(ToPlans(vs)))
  {
    assert ToPlan(VArr(vs)) == PList(ToPlans(vs));
  }

  lemma {:induction false} ItemsSplit(a: seq<Entry>, b: seq<Entry>)
    ensures Items(a + b) == Items(a) + Items(b)
    decreases |a|
  {
    if a == [] {
      assert a + b == b;
    } else {
      assert (a + b)[0] == a[0] && (a + b)[1..] == a[1..] + b;
      ItemsSplit(a[1..], b);
    }
  }

  function ItemOf(e: Entry): Item {
    Item(e.path, ToPlan(e.value))
  }

  // The items are the nodes that are not omitted, each once and in order: the `j`-th is node `ks[j]`.
  predicate AreItems(es: seq<Entry>, ks: seq<nat>) {
    ItemsAt(es, Items(es), ks) && Increasing(ks) && AllLive(es, ks)
  }

  predicate ItemsAt(es: seq<Entry>, items: seq<Item>, ks: seq<nat>) {
    |ks| == |items| &&
    forall j :: 0 <= j < |ks| ==> ks[j] < |es| && !es[ks[j]].omitted && items[j] == ItemOf(es[ks[j]])
  }

  predicate Increasing(ks: seq<nat>) {
    forall i, j :: 0 <= i < j < |ks| ==> ks[i] < ks[j]
  }

  predicate AllLive(es: seq<Entry>, ks: seq<nat>) {
    forall k :: 0 <= k < |es| && !es[k].omitted ==> k in ks
  }

  lemma {:induction false} ItemsInOrder(es: seq<Entry>) returns (ks: seq<nat>)
    ensures AreItems(es, ks)
    decreases |es|
  {
    hide ItemsAt, Increasing, AllLive, Items;
    if es == [] {
      ks := [];
      NoItems();
    } else {
      var n := |es| - 1;
      ks := ItemsInOrder(es[..n]);
      ItemsSnoc(es[..n], es[n], ks);
      assert es == es[..n] + [es[n]];
      if !es[n].omitted { ks := ks + [n]; }
    }
  }

  lemma NoItems()
    ensures AreItems([], [])
  {}

  lemma ItemsSnoc(es: seq<Entry>, e: Entry, ks: seq<nat>)
    requires AreItems(es, ks)
    ensures AreItems(es + [e], if e.omitted then ks else ks + [|es|])
  {
    ItemsSplit(es, [e]);
    assert [e][1..] == [] && Items([]) == [];
    hide ItemsAt, Increasing, AllLive;
    if e.omitted {
      StillAt(es, e, Items(es), ks);
      assert Items([e]) == [] && Items(es) + [] == Items(es);
    } else {
      OneMoreAt(es, e, Items(es), ks);
      assert Items([e]) == [ItemOf(e)];
    }
  }

  lemma StillAt(es: seq<Entry>, e: Entry, items: seq<Item>, ks: seq<nat>)
    requires ItemsAt(es, items, ks) && AllLive(es, ks) && e.omitted
    ensures ItemsAt(es + [e], items, ks) && AllLive(es + [e], ks)
  {}

  lemma OneMoreAt(es: seq<Entry>, e: Entry, items: seq<Item>, ks: seq<nat>)
    requires ItemsAt(es, items, ks) && Increasing(ks) && AllLive(es, ks) && !e.omitted
    ensures var ks' := ks + [|es|];
      ItemsAt(es + [e], items + [ItemOf(e)], ks') && Increasing(ks') && AllLive(es + [e], ks')
  {}

  // ---- buffer calls

  // `buffer.write(",")`, `write_escaped(key)`, `write(":")`, the four brackets, `emit_value`.
  datatype Op = Comma | Key(key: string) | Colon | Open | Close | OpenArray | CloseArray | Val(value: Plan)

  function OpText(op: Op): string {
    match op
    case Comma => ","
    case Key(k) => Quoted(k)
    case Colon => ":"
    case Open => "{"
    case Close => "}"
    case OpenArray => "["
    case CloseArray => "]"
    case Val(p) => Text(PlanJson(p))
  }

  function OpsText(ops: seq<Op>): string {
    if ops == [] then "" else OpText(ops[0]) + OpsText(ops[1..])
  }

  function MemberOps(m: Member): seq<Op>
    decreases m, 1
  {
    [Key(m.key), Colon] +
    match m.tree
    case Leaf(p) => [Val(p)]
    case Branch(ms) => [Open] + MembersOps(ms, true) + [Close]
  }

  function SepOps(first: bool): seq<Op> {
    if first then [] else [Comma]
  }

  function KeyOps(k: string, first: bool): seq<Op> {
    SepOps(first) + [Key(k), Colon]
  }

  function MembersOps(ms: seq<Member>, first: bool): seq<Op>
    decreases ms, 0
  {
    if ms == [] then []
    else SepOps(first) + MemberOps(ms[0]) + MembersOps(ms[1..], false)
  }

  function ElemsOps(ps: seq<Plan>, first: bool): seq<Op> {
    if ps == [] then [] else SepOps(first) + [Val(ps[0])] + ElemsOps(ps[1..], false)
  }

  function ObjectOps(ms: seq<Member>): seq<Op> {
    [Open] + MembersOps(ms, true) + [Close]
  }

  function ArrayOps(ps: seq<Plan>): seq<Op> {
    [OpenArray] + ElemsOps(ps, true) + [CloseArray]
  }

  lemma {:induction false} OpsTextSplit(a: seq<Op>, b: seq<Op>)
    ensures OpsText(a + b) == OpsText(a) + OpsText(b)
  {
    if a == [] {
      assert a + b == b;
    } else {
      assert (a + b)[0] == a[0] && (a + b)[1..] == a[1..] + b;
      OpsTextSplit(a[1..], b);
    }
  }

  lemma OpsTextOne(op: Op)
    ensures OpsText([op]) == OpText(op)
  {
    assert [op][1..] == [];
    assert OpText(op) + "" == OpText(op);
  }

  lemma OpsTextSplit3(a: seq<Op>, b: seq<Op>, c: seq<Op>)
    ensures OpsText(a + b + c) == OpsText(a) + OpsText(b) + OpsText(c)
  {
    OpsTextSplit(a + b, c);
    OpsTextSplit(a, b);
  }

  lemma FieldsTextCons(f: Field, fs: seq<Field>)
    ensures FieldsText([f] + fs) == FieldText(f) + (if fs == [] then "" else "," + FieldsText(fs))
  {
    assert ([f] + fs)[1..] == fs;
  }

  lemma FieldsCons(ms: seq<Member>)
    requires ms != []
    ensures Fields(ms) == [Field(ms[0].key, TreeJson(ms[0].tree))] + Fields(ms[1..])
    ensures Fields(ms[1..]) == [] <==> ms[1..] == []
  {}

  // The calls write the compact text of the tree.
  lemma {:induction false} MembersOpsText(ms: seq<Member>, first: bool)
    ensures OpsText(MembersOps(ms, first)) == (if first || ms == [] then "" else ",") + FieldsText(Fields(ms))
    decreases ms, 0
  {
    if ms != [] {
      var f := Field(ms[0].key, TreeJson(ms[0].tree));
      OpsTextSplit3(SepOps(first), MemberOps(ms[0]), MembersOps(ms[1..], false));
      OpsTextOne(Comma);
      MemberOpsText(ms[0]);
      MembersOpsText(ms[1..], false);
      FieldsCons(ms);
      FieldsTextCons(f, Fields(ms[1..]));
      var sep := if first then "" else ",";
      assert OpsText(SepOps(first)) == sep;
      Assoc(sep, FieldText(f), OpsText(MembersOps(ms[1..], false)));
    }
  }

  lemma {:induction false} MemberOpsText(m: Member)
    ensures OpsText(MemberOps(m)) == FieldText(Field(m.key, TreeJson(m.tree)))
    decreases m, 1
  {
    KeyText(m.key);
    match m.tree
    case Leaf(p) =>
      OpsTextOne(Val(p));
      OpsTextSplit([Key(m.key), Colon], [Val(p)]);
    case Branch(ms) =>
      MembersOpsText(ms, true);
      assert "" + FieldsText(Fields(ms)) == FieldsText(Fields(ms));
      BracedText(MembersOps(ms, true));
      OpsTextSplit([Key(m.key), Colon], [Open] + MembersOps(ms, true) + [Close]);
  }

  lemma BracedText(ops: seq<Op>)
    ensures OpsText([Open] + ops + [Close]) == "{" + OpsText(ops) + "}"
  {
    OpsTextOne(Open);
    OpsTextOne(Close);
    OpsTextSplit([Open], ops);
    OpsTextSplit([Open] + ops, [Close]);
  }

  lemma KeyText(k: string)
    ensures OpsText([Key(k), Colon]) == Quoted(k) + ":"
  {
    hide Quoted;
    OpsTextOne(Key(k));
    OpsTextOne(Colon);
    OpsTextSplit([Key(k)], [Colon]);
    assert [Key(k)] + [Colon] == [Key(k), Colon];
  }

  lemma {:induction false} ElemsOpsText(ps: seq<Plan>, first: bool)
    ensures OpsText(ElemsOps(ps, first)) == (if first || ps == [] then "" else ",") + ElemsText(PlanJsons(ps))
  {
    if ps != [] {
      var head := SepOps(first);
      OpsTextSplit(head + [Val(ps[0])], ElemsOps(ps[1..], false));
      OpsTextSplit(head, [Val(ps[0])]);
      OpsTextOne(Comma);
      OpsTextOne(Val(ps[0]));
      ElemsOpsText(ps[1..], false);
      assert PlanJsons(ps)[1..] == PlanJsons(ps[1..]);
      assert Text(PlanJson(ps[0])) + "" == Text(PlanJson(ps[0]));
    }
  }

  lemma ArrayOpsText(ps: seq<Plan>)
    ensures OpsText(ArrayOps(ps)) == Text(PlanJson(PList(ps)))
  {
    ElemsOpsText(ps, true);
    assert "" + ElemsText(PlanJsons(ps)) == ElemsText(PlanJsons(ps));
    BracketText(ElemsOps(ps, true));
  }

  lemma BracketText(ops: seq<Op>)
    ensures OpsText([OpenArray] + ops + [CloseArray]) == "[" + OpsText(ops) + "]"
  {
    OpsTextOne(OpenArray);
    OpsTextOne(CloseArray);
    OpsTextSplit([OpenArray], ops);
    OpsTextSplit([OpenArray] + ops, [CloseArray]);
  }

  lemma ObjectOpsText(ms: seq<Member>)
    ensures OpsText(ObjectOps(ms)) == Text(JObj(Fields(ms)))
  {
    MembersOpsText(ms, true);
    assert "" + FieldsText(Fields(ms)) == FieldsText(Fields(ms));
    BracedText(MembersOps(ms, true));
  }

  lemma {:induction false} OpsOutside(ops: seq<Op>, shape: Shape)
    requires Outside(shape)
    ensures Outside(Next(shape, OpsText(ops)))
    decreases ops
  {
    hide Next, InString, Settled;
    if ops == [] {
      NextNothing(shape);
    } else {
      match ops[0] {
        case Comma => StaysOutside(shape, ',');
        case Key(k) => RenderQuoted(shape, k);
        case Colon => StaysOutside(shape, ':');
        case Open => StaysOutside(shape, '{');
        case Close => StaysOutside(shape, '}');
        case OpenArray => StaysOutside(shape, '[');
        case CloseArray => StaysOutside(shape, ']');
        case Val(p) => TextOutside(PlanJson(p), shape);
      }
      OpsOutside(ops[1..], Next(shape, OpText(ops[0])));
      RenderSplit(shape, OpText(ops[0]), OpsText(ops[1..]));
    }
  }

  // ---- what the calls do to a buffer, failures included

  function Size(p: Plan): nat
    decreases p, 1
  {
    match p
    case PList(elems) => 2 + Sizes(elems)
    case PDoc(ms) => 2 + MembersSize(ms)
    case _ => 0
  }

  function Sizes(ps: seq<Plan>): nat
    decreases ps, 0
  {
    if ps == [] then 0 else 2 + Size(ps[0]) + Sizes(ps[1..])
  }

  function MembersSize(ms: seq<Member>): nat
    decreases ms, 0
  {
    if ms == [] then 0 else 3 + TreeSize(ms[0].tree) + MembersSize(ms[1..])
  }

  function TreeSize(t: Tree): nat
    decreases t, 1
  {
    match t
    case Leaf(p) => 1 + Size(p)
    case Branch(ms) => 2 + MembersSize(ms)
  }

  function OpSize(op: Op): nat {
    if op.Val? then 1 + Size(op.value) else 1
  }

  function OpsSize(ops: seq<Op>): nat {
    if ops == [] then 0 else OpSize(ops[0]) + OpsSize(ops[1..])
  }

  lemma {:induction false} OpsSizeSplit(a: seq<Op>, b: seq<Op>)
    ensures OpsSize(a + b) == OpsSize(a) + OpsSize(b)
  {
    if a == [] {
      assert a + b == b;
    } else {
      assert (a + b)[0] == a[0] && (a + b)[1..] == a[1..] + b;
      OpsSizeSplit(a[1..], b);
    }
  }

  lemma OpsSizeOne(op: Op)
    ensures OpsSize([op]) == OpSize(op)
  {
    assert [op][1..] == [];
  }

  lemma SepSize(first: bool)
    ensures OpsSize(SepOps(first)) <= 1
  {
    OpsSizeOne(Comma);
  }

  lemma {:induction false} MembersOpsSize(ms: seq<Member>, first: bool)
    ensures OpsSize(MembersOps(ms, first)) <= MembersSize(ms)
    decreases ms, 0
  {
    if ms != [] {
      SepSize(first);
      OpsSizeSplit(SepOps(first) + MemberOps(ms[0]), MembersOps(ms[1..], false));
      OpsSizeSplit(SepOps(first), MemberOps(ms[0]));
      MemberOpsSize(ms[0]);
      MembersOpsSize(ms[1..], false);
    }
  }

  lemma {:induction false} MemberOpsSize(m: Member)
    ensures OpsSize(MemberOps(m)) <= 2 + TreeSize(m.tree)
    decreases m, 1
  {
    var value := match m.tree
      case Leaf(p) => [Val(p)]
      case Branch(ms) => [Open] + MembersOps(ms, true) + [Close];
    assert [Key(m.key), Colon] == [Key(m.key)] + [Colon];
    OpsSizeOne(Key(m.key));
    OpsSizeOne(Colon);
    OpsSizeSplit([Key(m.key)], [Colon]);
    OpsSizeSplit([Key(m.key), Colon], value);
    match m.tree
    case Leaf(p) => OpsSizeOne(Val(p));
    case Branch(ms) => ObjectOpsSize(ms);
  }

  lemma {:induction false} ObjectOpsSize(ms: seq<Member>)
    ensures OpsSize(ObjectOps(ms)) <= 2 + MembersSize(ms)
    decreases ms, 1
  {
    MembersOpsSize(ms, true);
    OpsSizeOne(Open);
    OpsSizeOne(Close);
    OpsSizeSplit([Open] + MembersOps(ms, true), [Close]);
    OpsSizeSplit([Open], MembersOps(ms, true));
  }

  lemma {:induction false} ElemsOpsSize(ps: seq<Plan>, first: bool)
    ensures OpsSize(ElemsOps(ps, first)) <= Sizes(ps)
  {
    if ps != [] {
      SepSize(first);
      OpsSizeOne(Val(ps[0]));
      OpsSizeSplit(SepOps(first) + [Val(ps[0])], ElemsOps(ps[1..], false));
      OpsSizeSplit(SepOps(first), [Val(ps[0])]);
      ElemsOpsSize(ps[1..], false);
    }
  }

  lemma ArrayOpsSize(ps: seq<Plan>)
    ensures OpsSize(ArrayOps(ps)) <= 2 + Sizes(ps)
  {
    ElemsOpsSize(ps, true);
    OpsSizeOne(OpenArray);
    OpsSizeOne(CloseArray);
    OpsSizeSplit([OpenArray] + ElemsOps(ps, true), [CloseArray]);
    OpsSizeSplit([OpenArray], ElemsOps(ps, true));
  }

  // `emit_value`, whose result nobody looks at.
  function PutPlan(s: Snap, p: Plan): Snap
    decreases 1 + Size(p), 0
  {
    match p
    case PNull => Wrote(s, "null")
    case PBool(b) => Wrote(s, BoolText(b))
    case PInt(n) => PutRaw(s, IntText(n))
    case PStr(str) => PutEscaped(s, str).snap
    case PList(elems) =>
      ArrayOpsSize(elems);
      PlayOn(s, ArrayOps(elems))
    case PEmpty => Wrote(s, "{}")
    case PDoc(ms) =>
      ObjectOpsSize(ms);
      Play(s, ObjectOps(ms)).snap
  }

  // One call, and whether it reports success.
  function Made(s: Snap, op: Op): Outcome
    decreases OpSize(op), 1
  {
    match op
    case Key(k) => PutEscaped(s, k)
    case Val(p) => Outcome(PutPlan(s, p), true)
    case _ => Piece(s, OpText(op))
  }

  // The buffer after a run of calls, whether all of them succeeded, and the calls that were made.
  datatype Played = Played(snap: Snap, ok: bool, calls: seq<Op>)

  // Calls up to the first that fails.
  function Play(s: Snap, ops: seq<Op>): Played
    decreases OpsSize(ops), 2
  {
    if ops == [] then Played(s, true, [])
    else
      var o := Made(s, ops[0]);
      if !o.ok then Played(o.snap, false, [ops[0]])
      else
        var r := Play(o.snap, ops[1..]);
        Played(r.snap, r.ok, [ops[0]] + r.calls)
  }

  // All calls, whatever their results.
  function PlayOn(s: Snap, ops: seq<Op>): Snap
    decreases OpsSize(ops), 2
  {
    if ops == [] then s else PlayOn(Made(s, ops[0]).snap, ops[1..])
  }

  // ---- what that amounts to: the whole text, or failure

  lemma {:induction false} PutPlanAfter(s: Snap, p: Plan)
    requires Within(s)
    ensures After(s, Text(PlanJson(p)), PutPlan(s, p))
    decreases 1 + Size(p), 0
  {
    match p
    case PNull => WroteAfter(s, "null");
    case PBool(b) => WroteAfter(s, BoolText(b));
    case PInt(n) => PutRawAfter(s, IntText(n));
    case PStr(str) => PutEscapedAfter(s, str);
    case PList(elems) =>
      ArrayOpsSize(elems);
      ArrayOpsText(elems);
      PlayOnAfter(s, ArrayOps(elems));
    case PEmpty => WroteAfter(s, "{}");
    case PDoc(ms) =>
      ObjectOpsSize(ms);
      ObjectOpsText(ms);
      PlayAfter(s, ObjectOps(ms));
  }

  lemma {:induction false} StepAfter(s: Snap, op: Op)
    requires Within(s)
    ensures After(s, OpText(op), Made(s, op).snap) && (!Made(s, op).ok ==> Made(s, op).snap.bad)
    decreases OpSize(op), 1
  {
    match op
    case Key(k) => PutEscapedAfter(s, k);
    case Val(p) => PutPlanAfter(s, p);
    case _ => WroteAfter(s, OpText(op));
  }

  lemma {:induction false} PlayAfter(s: Snap, ops: seq<Op>)
    requires Within(s)
    ensures After(s, OpsText(ops), Play(s, ops).snap) && (!Play(s, ops).ok ==> Play(s, ops).snap.bad)
    decreases OpsSize(ops), 2
  {
    hide After, OpText;
    if ops == [] {
      AfterNothing(s);
    } else {
      var o := Made(s, ops[0]);
      StepAfter(s, ops[0]);
      AfterWithin(s, OpText(ops[0]), o.snap);
      if o.ok {
        PlayAfter(o.snap, ops[1..]);
        AfterJoin(s, OpText(ops[0]), o.snap, OpsText(ops[1..]), Play(o.snap, ops[1..]).snap);
      } else {
        FailedForGood(s, OpText(ops[0]), o.snap, OpsText(ops));
      }
    }
  }

  lemma {:induction false} PlayOnAfter(s: Snap, ops: seq<Op>)
    requires Within(s)
    ensures After(s, OpsText(ops), PlayOn(s, ops))
    decreases OpsSize(ops), 2
  {
    hide After, OpText;
    if ops == [] {
      AfterNothing(s);
    } else {
      var o := Made(s, ops[0]);
      StepAfter(s, ops[0]);
      AfterWithin(s, OpText(ops[0]), o.snap);
      PlayOnAfter(o.snap, ops[1..]);
      AfterJoin(s, OpText(ops[0]), o.snap, OpsText(ops[1..]), PlayOn(o.snap, ops[1..]));
    }
  }

  lemma {:induction false} PlaySplit(s: Snap, a: seq<Op>, b: seq<Op>)
    ensures var r := Play(s, a);
      Play(s, a + b) ==
        if !r.ok then r
        else var q := Play(r.snap, b); Played(q.snap, q.ok, r.calls + q.calls)
    decreases |a|
  {
    hide Made;
    if a == [] {
      assert a + b == b;
    } else {
      assert (a + b)[0] == a[0] && (a + b)[1..] == a[1..] + b;
      var o := Made(s, a[0]);
      if o.ok {
        PlaySplit(o.snap, a[1..], b);
        var r, q := Play(o.snap, a[1..]), Play(Play(s, a).snap, b);
        assert [a[0]] + (r.calls + q.calls) == ([a[0]] + r.calls) + q.calls;
      }
    }
  }

  // No call takes anything back.
  lemma {:induction false} PutPlanGrows(s: Snap, p: Plan)
    ensures |PutPlan(s, p).content| >= |s.content|
    decreases 1 + Size(p), 0
  {
    match p
    case PNull =>
    case PBool(b) =>
    case PInt(n) =>
    case PStr(str) => PutEscapedGrows(s, str);
    case PList(elems) =>
      ArrayOpsSize(elems);
      PlayOnGrows(s, ArrayOps(elems));
    case PEmpty =>
    case PDoc(ms) =>
      ObjectOpsSize(ms);
      PlayGrows(s, ObjectOps(ms));
  }

  lemma {:induction false} StepGrows(s: Snap, op: Op)
    ensures |Made(s, op).snap.content| >= |s.content|
    decreases OpSize(op), 1
  {
    match op
    case Key(k) => PutEscapedGrows(s, k);
    case Val(p) => PutPlanGrows(s, p);
    case _ =>
  }

  lemma {:induction false} PlayGrows(s: Snap, ops: seq<Op>)
    ensures |Play(s, ops).snap.content| >= |s.content|
    decreases OpsSize(ops), 2
  {
    if ops != [] {
      StepGrows(s, ops[0]);
      if Made(s, ops[0]).ok { PlayGrows(Made(s, ops[0]).snap, ops[1..]); }
    }
  }

  lemma {:induction false} PlayOnGrows(s: Snap, ops: seq<Op>)
    ensures |PlayOn(s, ops).content| >= |s.content|
    decreases OpsSize(ops), 2
  {
    if ops != [] {
      StepGrows(s, ops[0]);
      PlayOnGrows(Made(s, ops[0]).snap, ops[1..]);
    }
  }

  // ---- what a run of calls needs of the buffer, and what it has done

  predicate Accepts(s: Snap, ops: seq<Op>) {
    Ready(s) && Bearable(s, OpsText(ops))
  }

  // One call: exactly, unless the destination of a pretty buffer overflows; amounting to its text in any case.
  predicate DidCall(s: Snap, op: Op, t: Snap, ok: bool) {
    && (Admits(s, OpText(op)) ==> Outcome(t, ok) == Made(s, op))
    && Amounts(s, OpText(op), t) && (!ok ==> t.bad)
  }

  // A run that stops at the first call that fails.
  predicate Did(s: Snap, ops: seq<Op>, r: Played) {
    && (Admits(s, OpsText(ops)) ==> r == Play(s, ops))
    && Amounts(s, OpsText(ops), r.snap) && (!r.ok ==> r.snap.bad)
  }

  // A run whose results do not matter.
  predicate DidOn(s: Snap, ops: seq<Op>, t: Snap) {
    && (Admits(s, OpsText(ops)) ==> t == PlayOn(s, ops))
    && Amounts(s, OpsText(ops), t)
  }

  lemma DidNothing(s: Snap)
    requires Within(s)
    ensures Did(s, [], Played(s, true, [])) && DidOn(s, [], s)
  {
    AmountsNothing(s);
  }

  lemma DidOne(s: Snap, op: Op, t: Snap, ok: bool)
    requires DidCall(s, op, t, ok)
    ensures Did(s, [op], Played(t, ok, [op]))
  {
    hide Made, Amounts, Admits;
    OpsTextOne(op);
    assert [op][1..] == [] && [op] + [] == [op];
    var o := Made(s, op);
    assert Play(o.snap, []) == Played(o.snap, true, []);
    assert Play(s, [op]) == Played(o.snap, o.ok, [op]);
  }

  lemma DidThen(s: Snap, a: seq<Op>, r: Played, b: seq<Op>, q: Played)
    requires Did(s, a, r) && r.ok && Did(r.snap, b, q)
    ensures Did(s, a + b, Played(q.snap, q.ok, r.calls + q.calls))
  {
    hide Play, Amounts, Admits;
    OpsTextSplit(a, b);
    AmountsJoin(s, OpsText(a), r.snap, OpsText(b), q.snap);
    if Admits(s, OpsText(a + b)) {
      AdmitsRest(s, OpsText(a), r.snap, OpsText(b));
      PlaySplit(s, a, b);
    }
  }

  lemma AdmitsRest(s: Snap, a: string, t: Snap, b: string)
    requires Admits(s, a + b) && Amounts(s, a, t)
    ensures Admits(s, a) && Admits(t, b)
  {
    BearableRest(s, a, t, b);
  }

  lemma DidStop(s: Snap, a: seq<Op>, r: Played, b: seq<Op>)
    requires Did(s, a, r) && !r.ok
    ensures Did(s, a + b, r)
  {
    hide Play, Amounts, Admits;
    OpsTextSplit(a, b);
    AmountsStop(s, OpsText(a), r.snap, OpsText(b));
    if Admits(s, OpsText(a + b)) {
      AdmitsRest(s, OpsText(a), r.snap, OpsText(b));
      PlaySplit(s, a, b);
    }
  }

  lemma DidOnThen(s: Snap, a: seq<Op>, t: Snap, op: Op, u: Snap, ok: bool)
    requires DidOn(s, a, t) && DidCall(t, op, u, ok)
    ensures DidOn(s, a + [op], u)
  {
    hide PlayOn, Made, Amounts, Admits;
    OpsTextSplit(a, [op]);
    OpsTextOne(op);
    AmountsJoin(s, OpsText(a), t, OpText(op), u);
    if Admits(s, OpsText(a + [op])) {
      AdmitsRest(s, OpsText(a), t, OpText(op));
      PlayOnLast(s, a, op);
    }
  }

  lemma {:induction false} PlayOnLast(s: Snap, a: seq<Op>, op: Op)
    ensures PlayOn(s, a + [op]) == Made(PlayOn(s, a), op).snap
    decreases |a|
  {
    hide Made;
    if a == [] {
      assert a + [op] == [op] && [op][1..] == [];
    } else {
      assert (a + [op])[0] == a[0] && (a + [op])[1..] == a[1..] + [op];
      PlayOnLast(Made(s, a[0]).snap, a[1..], op);
    }
  }

  lemma AcceptsSplit(s: Snap, a: seq<Op>, b: seq<Op>)
    requires Accepts(s, a + b)
    ensures Accepts(s, a)
  {
    OpsTextSplit(a, b);
    BearableSplit(s, OpsText(a), OpsText(b));
  }

  lemma AcceptsRest(s: Snap, a: seq<Op>, t: Snap, b: seq<Op>)
    requires Accepts(s, a + b) && Amounts(s, OpsText(a), t)
    ensures Accepts(t, b)
  {
    hide Bearable;
    OpsTextSplit(a, b);
    BearableRest(s, OpsText(a), t, OpsText(b));
    StillReady(s, a, t);
  }

  lemma StillReady(s: Snap, a: seq<Op>, t: Snap)
    requires Ready(s) && Amounts(s, OpsText(a), t)
    ensures Ready(t)
  {
    if !t.bad {
      AfterGood(s, OpsText(a), t);
      OpsOutside(a, s.shape);
    }
  }

  lemma DidAccepts(s: Snap, a: seq<Op>, r: Played, b: seq<Op>)
    requires Accepts(s, a + b) && Did(s, a, r)
    ensures Accepts(s, a) && Accepts(r.snap, b)
  {
    hide Accepts, Amounts, Play;
    AcceptsSplit(s, a, b);
    AcceptsRest(s, a, r.snap, b);
  }

  // ---- what a level still has to emit

  predicate Live(e: Entry, emitted: bool, p: Path) {
    !emitted && !e.omitted && p <= e.path
  }

  // The live entries below `p`, with `p` taken off.
  function Pending(es: seq<Entry>, flags: seq<bool>, p: Path): seq<Item>
    requires |es| == |flags|
  {
    if es == [] then []
    else
      var rest := Pending(es[1..], flags[1..], p);
      if Live(es[0], flags[0], p) then [Item(es[0].path[|p|..], ToPlan(es[0].value))] + rest else rest
  }

  function Mark(es: seq<Entry>, flags: seq<bool>, p: Path): (r: seq<bool>)
    requires |es| == |flags|
    ensures |r| == |es| && forall i :: 0 <= i < |es| ==> r[i] == (flags[i] || (!es[i].omitted && p <= es[i].path))
  {
    seq(|es|, i requires 0 <= i < |es| => flags[i] || (!es[i].omitted && p <= es[i].path))
  }

  lemma {:induction false} PendingAll(es: seq<Entry>, flags: seq<bool>)
    requires |es| == |flags| && forall i :: 0 <= i < |flags| ==> !flags[i]
    ensures Pending(es, flags, []) == Items(es)
  {
    if es != [] {
      PendingAll(es[1..], flags[1..]);
      assert es[0].path[0..] == es[0].path;
    }
  }

  lemma PartsOfFirst(it: Item, rest: seq<Item>, k: string)
    ensures Starts(it.path, k) ==>
      Under([it] + rest, k) == [Item(it.path[1..], it.value)] + Under(rest, k) && Beside([it] + rest, k) ==
        Beside(rest, k)
    ensures !Starts(it.path, k) ==>
      Under([it] + rest, k) == Under(rest, k) && Beside([it] + rest, k) == [it] + Beside(rest, k)
  {
    assert ([it] + rest)[1..] == rest;
  }

  lemma {:induction false} PendingUnder(es: seq<Entry>, flags: seq<bool>, p: Path, k: string)
    requires |es| == |flags|
    ensures Pending(es, flags, p + [k]) == Under(Pending(es, flags, p), k)
  {
    if es != [] {
      PendingUnder(es[1..], flags[1..], p, k);
      var q := es[0].path;
      if p <= q {
        assert Starts(q[|p|..], k) <==> p + [k] <= q;
        if p + [k] <= q { assert q[|p|..][1..] == q[|p + [k]|..]; }
        PartsOfFirst(Item(q[|p|..], ToPlan(es[0].value)), Pending(es[1..], flags[1..], p), k);
      } else {
        assert !(p + [k] <= q);
      }
    }
  }

  lemma {:induction false} PendingBeside(es: seq<Entry>, flags: seq<bool>, p: Path, k: string)
    requires |es| == |flags|
    ensures Pending(es, Mark(es, flags, p + [k]), p) == Beside(Pending(es, flags, p), k)
  {
    if es != [] {
      PendingBeside(es[1..], flags[1..], p, k);
      assert Mark(es, flags, p + [k])[1..] == Mark(es[1..], flags[1..], p + [k]);
      var q := es[0].path;
      if p <= q {
        assert Starts(q[|p|..], k) <==> p + [k] <= q;
        PartsOfFirst(Item(q[|p|..], ToPlan(es[0].value)), Pending(es[1..], flags[1..], p), k);
      }
    }
  }

  // Entries before `i` that are not live do not show.
  lemma {:induction false} PendingFrom(es: seq<Entry>, flags: seq<bool>, p: Path, i: nat)
    requires |es| == |flags| && i <= |es| && forall j :: 0 <= j < i ==> !Live(es[j], flags[j], p)
    ensures Pending(es, flags, p) == Pending(es[i..], flags[i..], p)
  {
    if i > 0 {
      PendingFrom(es[1..], flags[1..], p, i - 1);
      assert es[1..][i - 1..] == es[i..] && flags[1..][i - 1..] == flags[i..];
    } else {
      assert es[0..] == es && flags[0..] == flags;
    }
  }

  lemma PendingFirst(es: seq<Entry>, flags: seq<bool>, p: Path, i: nat)
    requires |es| == |flags| && i < |es| && forall j :: 0 <= j < i ==> !Live(es[j], flags[j], p)
    requires Live(es[i], flags[i], p)
    ensures Pending(es, flags, p)
      == [Item(es[i].path[|p|..], ToPlan(es[i].value))] + Pending(es, flags[i := true], p)
  {
    PendingFrom(es, flags, p, i);
    assert es[i..][1..] == es[i + 1..] && flags[i..][1..] == flags[i + 1..];
    PendingFrom(es, flags[i := true], p, i + 1);
    assert flags[i := true][i + 1..] == flags[i + 1..];
  }

  lemma PendingNone(es: seq<Entry>, flags: seq<bool>, p: Path)
    requires |es| == |flags| && forall j :: 0 <= j < |es| ==> !Live(es[j], flags[j], p)
    ensures Pending(es, flags, p) == []
  {
    PendingFrom(es, flags, p, |es|);
  }

  // The flags once the member of entry `i` has been emitted, and that member.
  function FlagsAfter(es: seq<Entry>, flags: seq<bool>, p: Path, i: nat): seq<bool>
    requires |es| == |flags| && i < |es| && |p| < |es[i].path|
  {
    if |es[i].path| == |p| + 1 then flags[i := true] else Mark(es, flags, p + [es[i].path[|p|]])
  }

  predicate FirstLive(es: seq<Entry>, flags: seq<bool>, p: Path, i: nat) {
    && |es| == |flags| && i < |es| && Live(es[i], flags[i], p)
    && forall j :: 0 <= j < i ==> !Live(es[j], flags[j], p)
  }

  function MemberAt(es: seq<Entry>, flags: seq<bool>, p: Path, i: nat): Member
    requires |es| == |flags| && i < |es| && |p| < |es[i].path|
    requires Safe(Pending(es, flags, p + [es[i].path[|p|]])) || |es[i].path| == |p| + 1
  {
    var k := es[i].path[|p|];
    if |es[i].path| == |p| + 1 then Member(k, Leaf(ToPlan(es[i].value)))
    else Member(k, Branch(Group(Pending(es, flags, p + [k]))))
  }

  lemma NextMember(es: seq<Entry>, flags: seq<bool>, p: Path, i: nat)
    requires FirstLive(es, flags, p, i) && Safe(Pending(es, flags, p))
    ensures |p| < |es[i].path| && Safe(Pending(es, FlagsAfter(es, flags, p, i), p))
    ensures |es[i].path| > |p| + 1 ==>
      var q := p + [es[i].path[|p|]];
      q == es[i].path[..|p| + 1] && Safe(Pending(es, flags, q)) && Weight(Pending(es, flags, q)) <
        Weight(Pending(es, flags, p))
    ensures Group(Pending(es, flags, p))
      == [MemberAt(es, flags, p, i)] + Group(Pending(es, FlagsAfter(es, flags, p, i), p))
  {
    PendingFirst(es, flags, p, i);
    var items := Pending(es, flags, p);
    assert items[0].path != [];
    var k := es[i].path[|p|];
    assert items[0].path[0] == k;
    if |es[i].path| == |p| + 1 {
      assert items[1..] == Pending(es, flags[i := true], p);
    } else {
      PendingUnder(es, flags, p, k);
      PendingBeside(es, flags, p, k);
      GroupBranch(items, k);
    }
  }

  lemma MembersOpsNext(m: Member, ms: seq<Member>, first: bool)
    ensures MembersOps([m] + ms, first) == SepOps(first) + MemberOps(m) + MembersOps(ms, false)
  {
    assert ([m] + ms)[1..] == ms;
  }

  // ---- one level, as the emitter sees it

  predicate LevelSafe(es: seq<Entry>, flags: seq<bool>, p: Path) {
    |es| == |flags| && Safe(Pending(es, flags, p))
  }

  function LevelWeight(es: seq<Entry>, flags: seq<bool>, p: Path): nat
    requires |es| == |flags|
  {
    Weight(Pending(es, flags, p))
  }

  function LevelOps(es: seq<Entry>, flags: seq<bool>, p: Path, first: bool): seq<Op>
    requires LevelSafe(es, flags, p)
  {
    MembersOps(Group(Pending(es, flags, p)), first)
  }

  function NestedOps(es: seq<Entry>, flags: seq<bool>, q: Path): seq<Op>
    requires LevelSafe(es, flags, q)
  {
    [Open] + LevelOps(es, flags, q, true) + [Close]
  }

  function NodeOp(e: Entry): Op {
    Val(ToPlan(e.value))
  }

  // The entry's first key below `p` can be written.
  predicate CanTurn(es: seq<Entry>, flags: seq<bool>, p: Path, i: nat) {
    && FirstLive(es, flags, p, i) && |p| < |es[i].path|
    && (|es[i].path| > |p| + 1 ==> LevelSafe(es, flags, es[i].path[..|p| + 1]))
  }

  function TurnOps(es: seq<Entry>, flags: seq<bool>, p: Path, i: nat, first: bool): seq<Op>
    requires CanTurn(es, flags, p, i)
  {
    KeyOps(es[i].path[|p|], first) +
    if |es[i].path| == |p| + 1 then [NodeOp(es[i])] else NestedOps(es, flags, es[i].path[..|p| + 1])
  }

  lemma LevelStep(es: seq<Entry>, flags: seq<bool>, p: Path, i: nat, first: bool)
    requires FirstLive(es, flags, p, i) && LevelSafe(es, flags, p)
    ensures CanTurn(es, flags, p, i) && LevelSafe(es, FlagsAfter(es, flags, p, i), p)
    ensures |es[i].path| > |p| + 1 ==>
      LevelWeight(es, flags, es[i].path[..|p| + 1]) < LevelWeight(es, flags, p)
    ensures LevelOps(es, flags, p, first)
      == TurnOps(es, flags, p, i, first) + LevelOps(es, FlagsAfter(es, flags, p, i), p, false)
  {
    NextMember(es, flags, p, i);
    var m, rest := MemberAt(es, flags, p, i), Group(Pending(es, FlagsAfter(es, flags, p, i), p));
    MembersOpsNext(m, rest, first);
    MemberOpsAreTurn(m, first);
  }

  lemma MemberOpsAreTurn(m: Member, first: bool)
    ensures SepOps(first) + MemberOps(m) == KeyOps(m.key, first) +
      match m.tree
      case Leaf(p) => [Val(p)]
      case Branch(ms) => [Open] + MembersOps(ms, true) + [Close]
  {}

  lemma LevelShrinks(es: seq<Entry>, flags: seq<bool>, p: Path, i: nat)
    requires FirstLive(es, flags, p, i) && LevelSafe(es, flags, p)
    ensures |p| < |es[i].path| && LevelWeight(es, FlagsAfter(es, flags, p, i), p) < LevelWeight(es, flags, p)
  {
    NextMember(es, flags, p, i);
    PendingFirst(es, flags, p, i);
    var items, k := Pending(es, flags, p), es[i].path[|p|];
    if |es[i].path| == |p| + 1 {
      assert items[1..] == Pending(es, flags[i := true], p);
    } else {
      PendingBeside(es, flags, p, k);
      GroupBranch(items, k);
    }
  }

  // Flags set since a level began belong to entries below `p`.
  predicate Between(es: seq<Entry>, flags: seq<bool>, now: seq<bool>, p: Path) {
    |flags| == |now| == |es| && forall j :: 0 <= j < |es| ==>
      (flags[j] ==> now[j]) && (now[j] ==> flags[j] || (!es[j].omitted && p <= es[j].path))
  }

  lemma LevelStepFlags(es: seq<Entry>, flags: seq<bool>, now: seq<bool>, p: Path, i: nat)
    requires Between(es, flags, now, p) && FirstLive(es, now, p, i) && |p| < |es[i].path|
    ensures Between(es, flags, FlagsAfter(es, now, p, i), p)
    ensures forall j :: 0 <= j <= i ==> !Live(es[j], FlagsAfter(es, now, p, i)[j], p)
  {
    var k := es[i].path[|p|];
    assert es[i].path[..|p| + 1] == p + [k];
  }

  lemma LevelDone(es: seq<Entry>, flags: seq<bool>, now: seq<bool>, p: Path, first: bool)
    requires Between(es, flags, now, p) && forall j :: 0 <= j < |es| ==> !Live(es[j], now[j], p)
    ensures LevelSafe(es, now, p) && LevelOps(es, now, p, first) == [] && now == Mark(es, flags, p)
  {
    PendingNone(es, now, p);
  }

  // ---- the whole document

  predicate ItemsSafe(es: seq<Entry>) {
    Safe(Items(es))
  }

  function DocText(es: seq<Entry>): string {
    Text(ToJson(VDoc(es)))
  }

  function DocOps(es: seq<Entry>): seq<Op> {
    ObjectOps(Build(Items(es)))
  }

  // What the flat path does with the nodes from some position on.
  function FlatOps(es: seq<Entry>, first: bool): seq<Op>
    requires ItemsSafe(es)
  {
    MembersOps(Group(Items(es)), first)
  }

  lemma DocOpsText(es: seq<Entry>)
    ensures OpsText(DocOps(es)) == DocText(es)
  {
    ObjectOpsText(Build(Items(es)));
  }

  lemma DocOpsParts(es: seq<Entry>, flags: seq<bool>)
    requires ItemsSafe(es) && |flags| == |es| && forall i :: 0 <= i < |flags| ==> !flags[i]
    ensures LevelSafe(es, flags, []) && DocOps(es) == [Open] + LevelOps(es, flags, [], true) + [Close]
    ensures DocOps(es) == [Open] + FlatOps(es, true) + [Close]
  {
    PendingAll(es, flags);
    GroupIsBuild(Items(es));
  }

  // The calls for a node at depth one.
  function LeafOps(e: Entry, first: bool): seq<Op>
    requires e.path != []
  {
    KeyOps(e.path[0], first) + [NodeOp(e)]
  }

  lemma FlatStep(es: seq<Entry>, i: nat, first: bool)
    requires i < |es| && ItemsSafe(es[i..]) && |es[i].path| <= 1
    ensures ItemsSafe(es[i + 1..])
    ensures es[i].omitted ==> FlatOps(es[i..], first) == FlatOps(es[i + 1..], first)
    ensures !es[i].omitted ==> |es[i].path| == 1
    ensures !es[i].omitted ==> FlatOps(es[i..], first) == LeafOps(es[i], first) + FlatOps(es[i + 1..], false)
  {
    assert es[i..][1..] == es[i + 1..];
    if !es[i].omitted {
      var it := Item(es[i].path, ToPlan(es[i].value));
      assert Items(es[i..]) == [it] + Items(es[i + 1..]);
      assert Items(es[i..])[1..] == Items(es[i + 1..]);
      var m := Member(es[i].path[0], Leaf(it.value));
      MembersOpsNext(m, Group(Items(es[i + 1..])), first);
      MemberOpsAreTurn(m, first);
    }
  }

  // What has been done is the whole document's text, or failure.
  lemma DidDocument(s: Snap, es: seq<Entry>, r: Played)
    requires Did(s, DocOps(es), r)
    ensures Amounts(s, DocText(es), r.snap) && (!r.ok ==> r.snap.bad)
    ensures Admits(s, DocText(es)) ==> r == Play(s, DocOps(es))
  {
    DocOpsText(es);
  }

  lemma AcceptsDocument(s: Snap, es: seq<Entry>)
    requires Ready(s) && Bearable(s, DocText(es))
    ensures Accepts(s, DocOps(es))
  {
    DocOpsText(es);
  }
}

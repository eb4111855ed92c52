/** Nodes and the emitter (node.hpp, document.hpp, document.cpp:10-88). */
module Documents {
  import opened Escaping
  import opened Integers
  import opened PrettyText
  import opened Buffers
  import opened Writers
  import opened JsonValues
  import opened Paths
  import opened Grouping
  import opened Emission

  // ---- nodes

  predicate ValidValue(v: Value)
    decreases v, 1
  {
    match v
    case VSigned(bits, n) => bits <= 64 && InSigned(bits, n)
    case VUnsigned(bits, u) => bits <= 64 && u < Pow2(bits)
    case VArr(elems) => ValidValues(elems)
    case VDoc(entries) => ValidEntries(entries) && Safe(Items(entries))
    case _ => true
  }

  predicate ValidValues(vs: seq<Value>)
    decreases vs, 0
  {
    vs == [] || (ValidValue(vs[0]) && ValidValues(vs[1..]))
  }

  predicate ValidEntries(es: seq<Entry>)
    decreases es, 0
  {
    es == [] || (ValidValue(es[0].value) && ValidEntries(es[1..]))
  }

  lemma {:induction false} ValidEntry(es: seq<Entry>, i: nat)
    requires ValidEntries(es) && i < |es|
    ensures ValidValue(es[i].value)
  {
    if i > 0 { ValidEntry(es[1..], i - 1); }
  }

  class Node {
    const path: Path
    const value: Value
    var emitted: bool
    var omitted: bool

    constructor (path: Path, value: Value, omitted: bool)
      ensures this.path == path && this.value == value && this.omitted == omitted && !emitted
    {
      this.path, this.value, this.omitted, emitted := path, value, omitted, false;
    }

    method Reset()
      modifies `emitted
      ensures !emitted
    {
      emitted := false;
    }

    method SetOmitted(o: bool)
      modifies `omitted
      ensures omitted == o
    {
      omitted := o;
    }
  }

  // The node objects, as data.
  ghost predicate Listed(nodes: seq<Node>, es: seq<Entry>)
    reads nodes
  {
    && |nodes| == |es|
    && (forall i, j :: 0 <= i < j < |nodes| ==> nodes[i] != nodes[j])
    && (forall i :: 0 <= i < |nodes| ==> es[i] == Entry(nodes[i].path, nodes[i].omitted, nodes[i].value))
  }

  ghost predicate Flagged(nodes: seq<Node>, flags: seq<bool>)
    reads nodes
  {
    |flags| == |nodes| && forall i :: 0 <= i < |nodes| ==> flags[i] == nodes[i].emitted
  }

  ghost predicate Apart(nodes: seq<Node>, sink: Sink)
    reads if sink.Target().OnStack? then sink.Target().stack else sink.Target().heap
  {
    forall i :: 0 <= i < |nodes| ==> nodes[i] !in sink.Repr()
  }

  // ---- single calls

  // One call of the emitter other than `emit_value`.
  method Issue(sink: Sink, op: Op) returns (ok: bool)
    requires !op.Val? && sink.Valid() && Accepts(sink.Snap(), [op])
    modifies sink.Repr()
    ensures sink.Valid() && fresh(sink.Repr() - old(sink.Repr()))
    ensures DidCall(old(sink.Snap()), op, sink.Snap(), ok)
  {
    hide Wrote, Takes, PutEscaped, Admits, Amounts, Bearable;
    OpsTextOne(op);
    if op.Key? {
      ok := WriteEscaped(sink, op.key);
    } else {
      BearableIsBounded(sink.Snap(), OpText(op));
      TakenIfAdmitted(sink.Snap(), OpText(op));
      var n := sink.Write(OpText(op));
      ok := n != 0;
    }
  }

  lemma TakenIfAdmitted(s: Snap, text: string)
    ensures Admits(s, text) ==> s.shape.Plain? || Takes(s, text)
  {
    if Admits(s, text) { AdmittedIsTaken(s, text); }
  }

  lemma {:induction false} ValidElem(vs: seq<Value>, i: nat)
    requires ValidValues(vs) && i < |vs|
    ensures ValidValue(vs[i])
  {
    if i > 0 { ValidElem(vs[1..], i - 1); }
  }

  // ---- values

  // `write_json_value` and `emit_value`.
  method EmitJsonValue(sink: Sink, v: Value)
    requires sink.Valid() && sink.Roomy() && ValidValue(v) && Accepts(sink.Snap(), [Val(ToPlan(v))])
    modifies sink.Repr()
    ensures sink.Valid() && fresh(sink.Repr() - old(sink.Repr()))
    ensures DidCall(old(sink.Snap()), Val(ToPlan(v)), sink.Snap(), true)
    decreases v, 0
  {
    hide Wrote, Takes, PutEscaped, PutRaw, Admits, Amounts, Bearable, OpText, Made;
    OpsTextOne(Val(ToPlan(v)));
    MadeValue(sink.Snap(), v);
    match v
    case VNull => WriteWord(sink, "null");
    case VBool(b) => WriteWord(sink, BoolText(b));
    case VSigned(bits, n) => WriteSigned(sink, bits, n);
    case VUnsigned(bits, u) => WriteUnsigned(sink, bits, u);
    case VStr(str) =>
      var ok := WriteEscaped(sink, str);
    case VArr(elems) => EmitArray(sink, elems);
    case VDoc(entries) => EmitDocument(sink, entries);
  }

  predicate MadeText(s: Snap, v: Value, text: string, t: Snap) {
    OpText(Val(ToPlan(v))) == text && Made(s, Val(ToPlan(v))) == Outcome(t, true)
  }

  // What the call for a scalar is.
  lemma MadeValue(s: Snap, v: Value)
    ensures v.VNull? ==> MadeText(s, v, "null", Wrote(s, "null"))
    ensures v.VBool? ==> MadeText(s, v, BoolText(v.b), Wrote(s, BoolText(v.b)))
    ensures v.VSigned? ==> MadeText(s, v, IntText(v.n), PutRaw(s, IntText(v.n)))
    ensures v.VUnsigned? ==> MadeText(s, v, Decimal(v.u), PutRaw(s, Decimal(v.u)))
    ensures v.VStr? ==> MadeText(s, v, Quoted(v.s), PutEscaped(s, v.s).snap)
    ensures v.VArr? ==> ToPlan(v) == PList(ToPlans(v.elems))
  {
    var p := ToPlan(v);
    if v.VNull? {
      assert PutPlan(s, p) == Wrote(s, "null") && Text(PlanJson(p)) == "null";
    } else if v.VBool? {
      assert PutPlan(s, p) == Wrote(s, BoolText(v.b)) && Text(PlanJson(p)) == BoolText(v.b);
    } else if v.VSigned? {
      assert PutPlan(s, p) == PutRaw(s, IntText(v.n)) && Text(PlanJson(p)) == IntText(v.n);
    } else if v.VUnsigned? {
      assert PutPlan(s, p) == PutRaw(s, IntText(v.u)) && Text(PlanJson(p)) == IntText(v.u);
    } else if v.VStr? {
      assert PutPlan(s, p) == PutEscaped(s, v.s).snap && Text(PlanJson(p)) == Quoted(v.s);
    }
  }

  // A literal, whose result is not looked at.
  method WriteWord(sink: Sink, word: string)
    requires sink.Valid() && Bearable(sink.Snap(), word)
    modifies sink.Repr()
    ensures sink.Valid() && fresh(sink.Repr() - old(sink.Repr()))
    ensures Admits(old(sink.Snap()), word) ==> sink.Snap() == Wrote(old(sink.Snap()), word)
    ensures Amounts(old(sink.Snap()), word, sink.Snap())
  {
    hide Wrote, Takes, Admits, Amounts, Bearable;
    BearableIsBounded(sink.Snap(), word);
    TakenIfAdmitted(sink.Snap(), word);
    var n := sink.Write(word);
  }

  // `ArrayDocument` and `SpanArrayDocument`: results are ignored, a failure shows in the buffer only.
  method EmitArray(sink: Sink, elems: seq<Value>)
    requires sink.Valid() && sink.Roomy() && ValidValues(elems)
    requires Accepts(sink.Snap(), [Val(PList(ToPlans(elems)))])
    modifies sink.Repr()
    ensures sink.Valid() && fresh(sink.Repr() - old(sink.Repr()))
    ensures DidCall(old(sink.Snap()), Val(PList(ToPlans(elems))), sink.Snap(), true)
    decreases elems, 1
  {
    hide Accepts, Sink.Snap, Sink.Valid, Sink.Roomy, Dest.Valid, DidOn, DidCall, ArrayOps;
    ghost var ps, s := ToPlans(elems), sink.Snap();
    ArrayIsValue(s, ps);
    DidNothing(s);
    ArrayPieces(ps);
    ghost var done := IssueOn(sink, OpenArray, s, [], ElemsOps(ps, true) + [CloseArray]);
    done := EmitElems(sink, elems, s, done);
    done := IssueOn(sink, CloseArray, s, done, []);
    DidArray(s, ps, sink.Snap());
  }

  lemma ArrayPieces(ps: seq<Plan>)
    ensures [] + ([OpenArray] + (ElemsOps(ps, true) + [CloseArray])) == ArrayOps(ps)
    ensures [] + [OpenArray] == [OpenArray]
    ensures [OpenArray] + (ElemsOps(ps, true) + [CloseArray]) == ArrayOps(ps)
    ensures [OpenArray] + ElemsOps(ps, true) + ([CloseArray] + []) == ArrayOps(ps)
    ensures [OpenArray] + ElemsOps(ps, true) + [CloseArray] == ArrayOps(ps)
  {}

  lemma ArrayIsValue(s: Snap, ps: seq<Plan>)
    requires Accepts(s, [Val(PList(ps))])
    ensures Accepts(s, ArrayOps(ps))
  {
    ArrayOpsText(ps);
    OpsTextOne(Val(PList(ps)));
  }

  lemma DidArray(s: Snap, ps: seq<Plan>, t: Snap)
    requires DidOn(s, ArrayOps(ps), t)
    ensures DidCall(s, Val(PList(ps)), t, true)
  {
    hide Amounts, Admits;
    ArrayOpsText(ps);
    assert PutPlan(s, PList(ps)) == PlayOn(s, ArrayOps(ps));
  }

  // One more call of a longer run whose results do not matter; `done` has been made of it.
  method IssueOn(sink: Sink, op: Op, ghost s: Snap, ghost done: seq<Op>, ghost rest: seq<Op>)
    returns (ghost done': seq<Op>)
    requires !op.Val? && sink.Valid() && Accepts(s, done + ([op] + rest)) && DidOn(s, done, sink.Snap())
    modifies sink.Repr()
    ensures sink.Valid() && fresh(sink.Repr() - old(sink.Repr()))
    ensures done' == done + [op] && DidOn(s, done', sink.Snap())
  {
    hide Accepts, Sink.Snap, Sink.Valid, DidOn, DidCall;
    ghost var t := sink.Snap();
    OnAccepts(s, done, t, op, rest);
    var ok := Issue(sink, op);
    DidOnThen(s, done, t, op, sink.Snap(), ok);
    done' := done + [op];
  }

  lemma OnAccepts(s: Snap, done: seq<Op>, t: Snap, op: Op, rest: seq<Op>)
    requires Accepts(s, done + ([op] + rest)) && DidOn(s, done, t)
    ensures Accepts(t, [op])
  {
    hide Accepts, Amounts, PlayOn;
    AcceptsRest(s, done, t, [op] + rest);
    AcceptsSplit(t, [op], rest);
  }

  // The elements, between the brackets of the array.
  method EmitElems(sink: Sink, elems: seq<Value>, ghost s: Snap, ghost open: seq<Op>) returns (ghost done: seq<Op>)
    requires sink.Valid() && sink.Roomy() && ValidValues(elems)
    requires Accepts(s, open + (ElemsOps(ToPlans(elems), true) + [CloseArray])) && DidOn(s, open, sink.Snap())
    modifies sink.Repr()
    ensures sink.Valid() && fresh(sink.Repr() - old(sink.Repr()))
    ensures done == open + ElemsOps(ToPlans(elems), true) && DidOn(s, done, sink.Snap())
    decreases elems, 0
  {
    hide Accepts, Sink.Snap, Sink.Valid, Sink.Roomy, Dest.Valid, DidOn, ValidValue;
    ghost var whole := open + (ElemsOps(ToPlans(elems), true) + [CloseArray]);
    done := open;
    var first := true;
    assert elems[0..] == elems;
    for i := 0 to |elems|
      invariant sink.Valid() && fresh(sink.Repr() - old(sink.Repr()))
      invariant DidOn(s, done, sink.Snap())
      invariant done + (ElemsOps(ToPlans(elems[i..]), first) + [CloseArray]) == whole
    {
      ValidElem(elems, i);
      assert elems[i..][1..] == elems[i + 1..];
      ghost var rest := ElemsOps(ToPlans(elems[i + 1..]), false) + [CloseArray];
      ElemStep(ToPlan(elems[i]), ToPlans(elems[i + 1..]), first);
      done := EmitElem(sink, elems[i], first, s, done, rest);
      first := false;
    }
    NoElems(first);
    LastPart(done, open, ElemsOps(ToPlans(elems), true));
  }

  lemma LastPart(done: seq<Op>, open: seq<Op>, elems: seq<Op>)
    requires done + [CloseArray] == open + (elems + [CloseArray])
    ensures done == open + elems
  {
    assert open + (elems + [CloseArray]) == (open + elems) + [CloseArray];
    assert (done + [CloseArray])[..|done|] == done;
    assert ((open + elems) + [CloseArray])[..|open + elems|] == open + elems;
  }

  // One element, with a comma unless it is the first.
  method EmitElem(sink: Sink, v: Value, first: bool, ghost s: Snap, ghost done: seq<Op>, ghost rest: seq<Op>)
    returns (ghost done': seq<Op>)
    requires sink.Valid() && sink.Roomy() && ValidValue(v) && DidOn(s, done, sink.Snap())
    requires Accepts(s, done + if first then [Val(ToPlan(v))] + rest else [Comma] + ([Val(ToPlan(v))] + rest))
    modifies sink.Repr()
    ensures sink.Valid() && fresh(sink.Repr() - old(sink.Repr()))
    ensures DidOn(s, done', sink.Snap())
    ensures done' + rest == done + if first then [Val(ToPlan(v))] + rest else [Comma] + ([Val(ToPlan(v))] + rest)
    decreases v, 1
  {
    hide Accepts, Sink.Snap, Sink.Valid, Sink.Roomy, Dest.Valid, ValidValue, DidOn, DidCall;
    done' := done;
    if !first {
      done' := IssueOn(sink, Comma, s, done, [Val(ToPlan(v))] + rest);
      OpsAssoc(done, [Comma], [Val(ToPlan(v))] + rest);
    }
    ghost var t := sink.Snap();
    OnAccepts(s, done', t, Val(ToPlan(v)), rest);
    EmitJsonValue(sink, v);
    DidOnThen(s, done', t, Val(ToPlan(v)), sink.Snap(), true);
    OpsAssoc(done', [Val(ToPlan(v))], rest);
    done' := done' + [Val(ToPlan(v))];
  }

  lemma OpsAssoc(a: seq<Op>, b: seq<Op>, c: seq<Op>)
    ensures (a + b) + c == a + (b + c)
  {}

  // The calls for one element, and those that follow.
  lemma ElemStep(p: Plan, ps: seq<Plan>, first: bool)
    ensures var rest := ElemsOps(ps, false) + [CloseArray];
      ElemsOps([p] + ps, first) + [CloseArray] == if first then [Val(p)] + rest else [Comma] + ([Val(p)] + rest)
  {
    assert ([p] + ps)[1..] == ps;
  }

  lemma NoElems(first: bool)
    ensures ElemsOps(ToPlans([]), first) + [CloseArray] == [CloseArray]
  {}

  method EmitDocument(sink: Sink, entries: seq<Entry>)
    requires sink.Valid() && sink.Roomy() && ValidEntries(entries) && ItemsSafe(entries)
    requires Accepts(sink.Snap(), [Val(ToPlan(VDoc(entries)))])
    modifies sink.Repr()
    ensures sink.Valid() && fresh(sink.Repr() - old(sink.Repr()))
    ensures DidCall(old(sink.Snap()), Val(ToPlan(VDoc(entries))), sink.Snap(), true)
    decreases entries, 5
  {
    hide ItemsSafe, Admits, Bearable, DocText, ValidEntries, Emitted, PutPlan, Amounts, OpText;
    NestedDocument(sink.Snap(), entries);
    var nodes := MakeNodes(entries);
    var n, r := EmitJsonNodes(sink, nodes, entries);
  }

  // A document as a value is emitted like any other.
  lemma NestedDocument(s: Snap, es: seq<Entry>)
    ensures Made(s, Val(ToPlan(VDoc(es)))) == Outcome(Emitted(s, es).snap, true)
    ensures OpsText([Val(ToPlan(VDoc(es)))]) == OpText(Val(ToPlan(VDoc(es)))) == DocText(es)
  {
    OpsTextOne(Val(ToPlan(VDoc(es))));
  }

  // The tuple of nodes a `Document` holds.
  method MakeNodes(entries: seq<Entry>) returns (nodes: seq<Node>)
    ensures Listed(nodes, entries) && forall i :: 0 <= i < |nodes| ==> fresh(nodes[i])
  {
    nodes := [];
    for i := 0 to |entries|
      invariant |nodes| == i && forall j :: 0 <= j < i ==> fresh(nodes[j])
      invariant Listed(nodes, entries[..i])
    {
      var node := new Node(entries[i].path, entries[i].value, entries[i].omitted);
      nodes := nodes + [node];
    }
    assert entries[..|entries|] == entries;
  }

  // ---- the traversal, call by call

  // One call, recorded.
  method Call(sink: Sink, op: Op) returns (ok: bool, ghost r: Played)
    requires !op.Val? && sink.Valid() && Accepts(sink.Snap(), [op])
    modifies sink.Repr()
    ensures sink.Valid() && fresh(sink.Repr() - old(sink.Repr()))
    ensures Did(old(sink.Snap()), [op], r) && r.snap == sink.Snap() && r.ok == ok
  {
    hide Accepts, Sink.Snap, Sink.Valid, DidCall, Did;
    ghost var s := sink.Snap();
    ok := Issue(sink, op);
    DidOne(s, op, sink.Snap(), ok);
    r := Played(sink.Snap(), ok, [op]);
  }

  // `n->emit_value(buffer)`: the value, then the flag.
  method EmitNode(sink: Sink, n: Node, ghost nodes: seq<Node>, ghost i: nat, ghost es: seq<Entry>,
                  ghost flags: seq<bool>)
    returns (ghost r: Played)
    requires i < |nodes| && n == nodes[i] && Listed(nodes, es) && Flagged(nodes, flags) && Apart(nodes, sink)
    requires ValidEntries(es) && sink.Valid() && sink.Roomy() && Accepts(sink.Snap(), [NodeOp(es[i])])
    modifies sink.Repr(), n`emitted
    ensures sink.Valid() && fresh(sink.Repr() - old(sink.Repr()))
    ensures Listed(nodes, es) && Flagged(nodes, flags[i := true]) && Apart(nodes, sink)
    ensures Did(old(sink.Snap()), [NodeOp(es[i])], r) && r.snap == sink.Snap() && r.ok
    decreases es, 0
  {
    hide Accepts, DidCall, ValidValue, ToPlan, Did, Play;
    ValidEntry(es, i);
    assert es[i].value == n.value;
    ghost var s := sink.Snap();
    EmitJsonValue(sink, n.value);
    DidOne(s, NodeOp(es[i]), sink.Snap(), true);
    n.emitted := true;
    r := Played(sink.Snap(), true, [NodeOp(es[i])]);
  }

  // The comma, the key and the colon before a member's value.
  method EmitKey(sink: Sink, key: string, first: bool) returns (ok: bool, ghost r: Played)
    requires sink.Valid() && Accepts(sink.Snap(), KeyOps(key, first))
    modifies sink.Repr()
    ensures sink.Valid() && fresh(sink.Repr() - old(sink.Repr()))
    ensures Did(old(sink.Snap()), KeyOps(key, first), r) && r.snap == sink.Snap() && r.ok == ok
  {
    hide Accepts, Sink.Snap, Sink.Valid, Did;
    ghost var s := sink.Snap();
    DidNothing(s);
    r := Played(s, true, []);
    ghost var done: seq<Op> := [];
    if !first {
      ok, r, done := CallNext(sink, Comma, s, done, r, [Key(key), Colon], KeyOps(key, first));
      if !ok { return; }
    }
    ok, r, done := CallNext(sink, Key(key), s, done, r, [Colon], KeyOps(key, first));
    if !ok { return; }
    assert done + [Colon] + [] == KeyOps(key, first);
    ok, r, done := CallNext(sink, Colon, s, done, r, [], KeyOps(key, first));
    assert done == KeyOps(key, first);
  }

  // One more call of a longer run, of which `done` has been made.
  method CallNext(sink: Sink, op: Op, ghost s: Snap, ghost done: seq<Op>, ghost r: Played, ghost rest: seq<Op>,
                  ghost whole: seq<Op>)
    returns (ok: bool, ghost r': Played, ghost done': seq<Op>)
    requires !op.Val? && sink.Valid() && whole == done + [op] + rest
    requires Accepts(s, whole) && Did(s, done, r) && r.ok && r.snap == sink.Snap()
    modifies sink.Repr()
    ensures sink.Valid() && fresh(sink.Repr() - old(sink.Repr()))
    ensures r'.snap == sink.Snap() && r'.ok == ok && done' == done + [op]
    ensures Did(s, done', r') && (!ok ==> Did(s, whole, r'))
  {
    hide Accepts, Sink.Snap, Sink.Valid, Did;
    assert whole == done + ([op] + rest);
    NextAccepted(s, done, r, [op], rest);
    ghost var q;
    ok, q := Call(sink, op);
    done' := done + [op];
    DidThen(s, done, r, [op], q);
    r' := Played(q.snap, q.ok, r.calls + q.calls);
    if !ok { DidStop(s, done', r', rest); }
  }

  // What is next in a longer run is accepted.
  lemma NextAccepted(s: Snap, done: seq<Op>, r: Played, next: seq<Op>, rest: seq<Op>)
    requires Accepts(s, done + (next + rest)) && Did(s, done, r) && r.ok
    ensures Accepts(r.snap, next)
  {
    hide Accepts, Did;
    DidAccepts(s, done, r, next + rest);
    AcceptsSplit(r.snap, next, rest);
  }

  // An intermediate object: its braces, and one level further down between them.
  method EmitNested(sink: Sink, nodes: seq<Node>, q: Path, ghost es: seq<Entry>, ghost flags: seq<bool>)
    returns (ok: bool, ghost r: Played)
    requires Listed(nodes, es) && Flagged(nodes, flags) && Apart(nodes, sink) && ValidEntries(es)
    requires LevelSafe(es, flags, q) && sink.Valid() && sink.Roomy() && Accepts(sink.Snap(), NestedOps(es, flags, q))
    modifies sink.Repr(), nodes
    ensures sink.Valid() && fresh(sink.Repr() - old(sink.Repr()))
    ensures Listed(nodes, es) && Apart(nodes, sink) && (ok ==> Flagged(nodes, Mark(es, flags, q)))
    ensures Did(old(sink.Snap()), NestedOps(es, flags, q), r) && r.snap == sink.Snap() && r.ok == ok
    decreases es, 1, LevelWeight(es, flags, q), 2
  {
    hide Accepts, Sink.Snap, Sink.Valid, Sink.Roomy, Dest.Valid, Did, Play, LevelSafe, LevelWeight, LevelOps,
      ValidEntries;
    ghost var s, inner, whole := sink.Snap(), LevelOps(es, flags, q, true), NestedOps(es, flags, q);
    DidNothing(s);
    assert [] + [Open] + (inner + [Close]) == whole;
    ghost var done;
    ok, r, done := CallNext(sink, Open, s, [], Played(s, true, []), inner + [Close], whole);
    if !ok { return; }
    assert done + (inner + [Close]) == whole;
    NextAccepted(s, done, r, inner, [Close]);
    ghost var t;
    ok, t := EmitLevel(sink, nodes, q, es, flags);
    DidThen(s, done, r, inner, t);
    r := Played(t.snap, t.ok, r.calls + t.calls);
    assert done + inner + [Close] == whole == done + inner + [Close] + [];
    if !ok {
      DidStop(s, done + inner, r, [Close]);
      return;
    }
    ok, r, done := CallNext(sink, Close, s, done + inner, r, [], whole);
    assert done == whole;
  }

  // One turn of `emit_level`'s loop on a live node: the node, or all nodes below its next key.
  method EmitMember(sink: Sink, nodes: seq<Node>, i: nat, p: Path, first: bool, ghost es: seq<Entry>,
                    ghost flags: seq<bool>)
    returns (ok: bool, ghost r: Played)
    requires Listed(nodes, es) && Flagged(nodes, flags) && Apart(nodes, sink) && ValidEntries(es)
    requires LevelSafe(es, flags, p) && CanTurn(es, flags, p, i)
    requires sink.Valid() && sink.Roomy() && Accepts(sink.Snap(), TurnOps(es, flags, p, i, first))
    modifies sink.Repr(), nodes
    ensures sink.Valid() && fresh(sink.Repr() - old(sink.Repr()))
    ensures Listed(nodes, es) && Apart(nodes, sink) && (ok ==> Flagged(nodes, FlagsAfter(es, flags, p, i)))
    ensures Did(old(sink.Snap()), TurnOps(es, flags, p, i, first), r) && r.snap == sink.Snap() && r.ok == ok
    decreases es, 1, LevelWeight(es, flags, p), 0
  {
    hide Accepts, Sink.Snap, Sink.Valid, Sink.Roomy, Dest.Valid, Did, Play, LevelSafe, LevelWeight, LevelOps, NestedOps,
      NodeOp, ValidEntries, KeyOps;
    LevelStep(es, flags, p, i, first);
    var key := nodes[i].path[|p|];
    assert nodes[i].path == es[i].path;
    ghost var s, head := sink.Snap(), KeyOps(key, first);
    ghost var q := es[i].path[..|p| + 1];
    ghost var value := if |es[i].path| == |p| + 1 then [NodeOp(es[i])] else NestedOps(es, flags, q);
    assert TurnOps(es, flags, p, i, first) == head + value;
    AcceptsSplit(s, head, value);
    ok, r := EmitKey(sink, key, first);
    if !ok {
      DidStop(s, head, r, value);
      return;
    }
    DidAccepts(s, head, r, value);
    ghost var t;
    if |nodes[i].path| == |p| + 1 {
      t := EmitNode(sink, nodes[i], nodes, i, es, flags);
    } else {
      assert q == p + [key];
      ok, t := EmitNested(sink, nodes, nodes[i].path[..|p| + 1], es, flags);
    }
    DidThen(s, head, r, value, t);
    r := Played(t.snap, t.ok, r.calls + t.calls);
  }

  method EmitLevel(sink: Sink, nodes: seq<Node>, p: Path, ghost es: seq<Entry>, ghost flags: seq<bool>)
    returns (ok: bool, ghost r: Played)
    requires Listed(nodes, es) && Flagged(nodes, flags) && Apart(nodes, sink) && ValidEntries(es)
    requires LevelSafe(es, flags, p)
    requires sink.Valid() && sink.Roomy() && Accepts(sink.Snap(), LevelOps(es, flags, p, true))
    modifies sink.Repr(), nodes
    ensures sink.Valid() && fresh(sink.Repr() - old(sink.Repr()))
    ensures Listed(nodes, es) && Apart(nodes, sink) && (ok ==> Flagged(nodes, Mark(es, flags, p)))
    ensures Did(old(sink.Snap()), LevelOps(es, flags, p, true), r) && r.snap == sink.Snap() && r.ok == ok
    decreases es, 1, LevelWeight(es, flags, p), 1
  {
    hide Accepts, Sink.Snap, Sink.Valid, Sink.Roomy, Dest.Valid, Did, Play, LevelSafe, LevelWeight, LevelOps, TurnOps,
      ValidEntries, FlagsAfter, Mark;
    ghost var s, whole := sink.Snap(), LevelOps(es, flags, p, true);
    ghost var now, done: seq<Op> := flags, [];
    ok, r := true, Played(s, true, []);
    DidNothing(s);
    var first := true;
    for i := 0 to |nodes|
      invariant sink.Valid() && fresh(sink.Repr() - old(sink.Repr()))
      invariant Listed(nodes, es) && Flagged(nodes, now) && Apart(nodes, sink)
      invariant ok && r.ok && Did(s, done, r) && r.snap == sink.Snap()
      invariant Between(es, flags, now, p) && forall j :: 0 <= j < i ==> !Live(es[j], now[j], p)
      invariant LevelSafe(es, now, p) && LevelWeight(es, now, p) <= LevelWeight(es, flags, p)
      invariant done + LevelOps(es, now, p, first) == whole
    {
      if nodes[i].emitted || nodes[i].omitted { continue; }
      if |p| > 0 && !MatchesParent(nodes[i].path, p) { continue; }
      LevelStep(es, now, p, i, first);
      LevelShrinks(es, now, p, i);
      LevelStepFlags(es, flags, now, p, i);
      ghost var turn, rest := TurnOps(es, now, p, i, first), LevelOps(es, FlagsAfter(es, now, p, i), p, false);
      NextAccepted(s, done, r, turn, rest);
      ghost var t;
      ok, t := EmitMember(sink, nodes, i, p, first, es, now);
      DidThen(s, done, r, turn, t);
      r, done := Played(t.snap, t.ok, r.calls + t.calls), done + turn;
      assert done + rest == whole;
      if !ok {
        DidStop(s, done, r, rest);
        return;
      }
      now := FlagsAfter(es, now, p, i);
      first := false;
    }
    LevelDone(es, flags, now, p, first);
    assert done + [] == done;
  }

  method EmitLeaf(sink: Sink, nodes: seq<Node>, i: nat, first: bool, ghost es: seq<Entry>)
    returns (ok: bool, ghost r: Played)
    requires Listed(nodes, es) && Apart(nodes, sink) && ValidEntries(es)
    requires i < |es| && !es[i].omitted && es[i].path != []
    requires sink.Valid() && sink.Roomy() && Accepts(sink.Snap(), LeafOps(es[i], first))
    modifies sink.Repr(), nodes
    ensures sink.Valid() && fresh(sink.Repr() - old(sink.Repr())) && Listed(nodes, es) && Apart(nodes, sink)
    ensures Did(old(sink.Snap()), LeafOps(es[i], first), r) && r.snap == sink.Snap() && r.ok == ok
    decreases es, 1
  {
    hide Accepts, Sink.Snap, Sink.Valid, Sink.Roomy, Dest.Valid, Did, Play, NodeOp, KeyOps, ValidEntries;
    assert nodes[i].path == es[i].path;
    ghost var s, head, value := sink.Snap(), KeyOps(es[i].path[0], first), [NodeOp(es[i])];
    AcceptsSplit(s, head, value);
    ok, r := EmitKey(sink, nodes[i].path[0], first);
    if !ok {
      DidStop(s, head, r, value);
      return;
    }
    DidAccepts(s, head, r, value);
    ghost var flags := FlagsOf(nodes);
    ghost var t := EmitNode(sink, nodes[i], nodes, i, es, flags);
    DidThen(s, head, r, value, t);
    r := Played(t.snap, t.ok, r.calls + t.calls);
  }

  // The flat fast path: every node sits at depth one.
  method EmitFlat(sink: Sink, nodes: seq<Node>, ghost es: seq<Entry>) returns (ok: bool, ghost r: Played)
    requires Listed(nodes, es) && Apart(nodes, sink) && ValidEntries(es)
    requires ItemsSafe(es) && forall i :: 0 <= i < |es| ==> |es[i].path| <= 1
    requires sink.Valid() && sink.Roomy() && Accepts(sink.Snap(), FlatOps(es, true))
    modifies sink.Repr(), nodes
    ensures sink.Valid() && fresh(sink.Repr() - old(sink.Repr()))
    ensures Listed(nodes, es) && Apart(nodes, sink)
    ensures Did(old(sink.Snap()), FlatOps(es, true), r) && r.snap == sink.Snap() && r.ok == ok
    decreases es, 2
  {
    hide Accepts, Sink.Snap, Sink.Valid, Sink.Roomy, Dest.Valid, Did, Play, ItemsSafe, FlatOps, LeafOps, ValidEntries;
    ghost var s, whole := sink.Snap(), FlatOps(es, true);
    ghost var done: seq<Op> := [];
    ok, r := true, Played(s, true, []);
    DidNothing(s);
    assert es[0..] == es;
    var first := true;
    for i := 0 to |nodes|
      invariant sink.Valid() && fresh(sink.Repr() - old(sink.Repr()))
      invariant Listed(nodes, es) && Apart(nodes, sink)
      invariant ok && r.ok && Did(s, done, r) && r.snap == sink.Snap()
      invariant ItemsSafe(es[i..]) && done + FlatOps(es[i..], first) == whole
    {
      FlatStep(es, i, first);
      if nodes[i].omitted { continue; }
      assert nodes[i].path == es[i].path;
      ghost var turn, rest := LeafOps(es[i], first), FlatOps(es[i + 1..], false);
      assert done + (turn + rest) == whole;
      NextAccepted(s, done, r, turn, rest);
      ghost var t;
      ok, t := EmitLeaf(sink, nodes, i, first, es);
      DidThen(s, done, r, turn, t);
      r, done := Played(t.snap, t.ok, r.calls + t.calls), done + turn;
      assert done + rest == whole;
      if !ok {
        DidStop(s, done, r, rest);
        return;
      }
      first := false;
    }
    FlatDone(es, first);
    assert done + [] == done;
  }

  lemma FlatDone(es: seq<Entry>, first: bool)
    ensures ItemsSafe(es[|es|..]) && FlatOps(es[|es|..], first) == []
  {}

  ghost function FlagsOf(nodes: seq<Node>): (flags: seq<bool>)
    reads nodes
    ensures Flagged(nodes, flags)
  {
    seq(|nodes|, i requires 0 <= i < |nodes| reads nodes => nodes[i].emitted)
  }

  method ResetAll(nodes: seq<Node>, ghost es: seq<Entry>)
    requires Listed(nodes, es)
    modifies nodes
    ensures Listed(nodes, es) && forall i :: 0 <= i < |nodes| ==> !nodes[i].emitted
  {
    for i := 0 to |nodes|
      invariant Listed(nodes, es) && forall j :: 0 <= j < i ==> !nodes[j].emitted
    {
      nodes[i].Reset();
    }
  }

  // ---- whole documents

  method EmitFlatDocument(sink: Sink, nodes: seq<Node>, ghost es: seq<Entry>) returns (ok: bool, ghost r: Played)
    requires Listed(nodes, es) && Apart(nodes, sink) && ValidEntries(es)
    requires ItemsSafe(es) && forall i :: 0 <= i < |es| ==> |es[i].path| <= 1
    requires sink.Valid() && sink.Roomy() && Accepts(sink.Snap(), DocOps(es))
    modifies sink.Repr(), nodes
    ensures sink.Valid() && fresh(sink.Repr() - old(sink.Repr())) && Listed(nodes, es)
    ensures Did(old(sink.Snap()), DocOps(es), r) && sink.Snap() == r.snap && ok == r.ok
    decreases es, 3
  {
    hide Accepts, Sink.Snap, Sink.Valid, Sink.Roomy, Dest.Valid, Did, Play, ItemsSafe, FlatOps, DocOps, ValidEntries;
    ghost var s, inner, whole := sink.Snap(), FlatOps(es, true), DocOps(es);
    DocOpsParts(es, seq(|es|, i => false));
    DidNothing(s);
    assert [] + [Open] + (inner + [Close]) == whole;
    ghost var done;
    ok, r, done := CallNext(sink, Open, s, [], Played(s, true, []), inner + [Close], whole);
    if ok {
      assert done + (inner + [Close]) == whole;
      NextAccepted(s, done, r, inner, [Close]);
      ghost var t;
      ok, t := EmitFlat(sink, nodes, es);
      DidThen(s, done, r, inner, t);
      r := Played(t.snap, t.ok, r.calls + t.calls);
      assert done + inner + [Close] == whole == done + inner + [Close] + [];
      if ok {
        ok, r, done := CallNext(sink, Close, s, done + inner, r, [], whole);
        assert done == whole;
      } else {
        DidStop(s, done + inner, r, [Close]);
      }
    }
  }

  method EmitNestedDocument(sink: Sink, nodes: seq<Node>, ghost es: seq<Entry>) returns (ok: bool, ghost r: Played)
    requires Listed(nodes, es) && Apart(nodes, sink) && ValidEntries(es) && ItemsSafe(es)
    requires sink.Valid() && sink.Roomy() && Accepts(sink.Snap(), DocOps(es))
    modifies sink.Repr(), nodes
    ensures sink.Valid() && fresh(sink.Repr() - old(sink.Repr())) && Listed(nodes, es)
    ensures Did(old(sink.Snap()), DocOps(es), r) && sink.Snap() == r.snap && ok == r.ok
    ensures ok ==> forall i :: 0 <= i < |nodes| ==> nodes[i].emitted == !nodes[i].omitted
    decreases es, 2
  {
    hide Accepts, Sink.Roomy, ItemsSafe, DocOps, ValidEntries, Did;
    ResetAll(nodes, es);
    ok, r := EmitTree(sink, nodes, es);
  }

  // The braces of the root and everything between them, once all flags are down.
  method EmitTree(sink: Sink, nodes: seq<Node>, ghost es: seq<Entry>) returns (ok: bool, ghost r: Played)
    requires Listed(nodes, es) && Apart(nodes, sink) && ValidEntries(es) && ItemsSafe(es)
    requires forall i :: 0 <= i < |nodes| ==> !nodes[i].emitted
    requires sink.Valid() && sink.Roomy() && Accepts(sink.Snap(), DocOps(es))
    modifies sink.Repr(), nodes
    ensures sink.Valid() && fresh(sink.Repr() - old(sink.Repr())) && Listed(nodes, es)
    ensures Did(old(sink.Snap()), DocOps(es), r) && sink.Snap() == r.snap && ok == r.ok
    ensures ok ==> forall i :: 0 <= i < |nodes| ==> nodes[i].emitted == !nodes[i].omitted
    decreases es, 1
  {
    hide Accepts, Sink.Snap, Sink.Valid, Sink.Roomy, Dest.Valid, Did, Play, ItemsSafe, LevelOps, LevelSafe, DocOps,
      ValidEntries;
    ghost var s := sink.Snap();
    ghost var flags := FlagsOf(nodes);
    DocOpsParts(es, flags);
    assert NestedOps(es, flags, []) == DocOps(es);
    ok, r := EmitNested(sink, nodes, [], es, flags);
  }

  lemma EmptyDocument()
    ensures DocText([]) == "{}"
  {}

  // The flat fast path is the traversal: on lists of depth-one nodes, omitted ones included, both make the same
  // calls with the same results and leave the same buffer, wherever a call or a value fails; and where the destination
  // of a pretty buffer overflows, both fail.
  method EmitBothWays(flat: Sink, tree: Sink, nodes: seq<Node>, ghost es: seq<Entry>)
    returns (okFlat: bool, okTree: bool, ghost callsFlat: seq<Op>, ghost callsTree: seq<Op>)
    requires Listed(nodes, es) && Apart(nodes, flat) && Apart(nodes, tree) && flat.Repr() !! tree.Repr()
    requires ValidEntries(es) && ItemsSafe(es) && forall i :: 0 <= i < |es| ==> |es[i].path| <= 1
    requires flat.Valid() && flat.Roomy() && tree.Valid() && tree.Roomy()
    requires flat.Snap() == tree.Snap() && Accepts(flat.Snap(), DocOps(es))
    modifies flat.Repr(), tree.Repr(), nodes
    ensures flat.Valid() && tree.Valid() && flat.Snap().bad == tree.Snap().bad
    ensures !flat.Snap().bad || Admits(old(flat.Snap()), DocText(es)) ==> flat.Snap() == tree.Snap()
    ensures Admits(old(flat.Snap()), DocText(es)) ==> okFlat == okTree && callsFlat == callsTree
  {
    hide Accepts, ItemsSafe, DocOps, ValidEntries, Sink.Roomy, Dest.Valid, Play, Did, Admits;
    ghost var s := flat.Snap();
    ghost var f, t;
    okFlat, f := EmitFlatDocument(flat, nodes, es);
    assert tree.Snap() == s && tree.Valid() && tree.Roomy();
    assert flat.Repr() !! tree.Repr();
    okTree, t := EmitNestedDocument(tree, nodes, es);
    assert flat.Snap() == f.snap;
    DidAlike(s, es, f, t);
    callsFlat, callsTree := f.calls, t.calls;
  }

  lemma DidAlike(s: Snap, es: seq<Entry>, f: Played, t: Played)
    requires Did(s, DocOps(es), f) && Did(s, DocOps(es), t)
    ensures f.snap.bad == t.snap.bad && (!f.snap.bad ==> f.snap == t.snap)
    ensures Admits(s, DocText(es)) ==> f == t
  {
    hide Play;
    DidDocument(s, es, f);
    DidDocument(s, es, t);
  }

  // What `emit_json_nodes` does to a buffer; without nodes it is one write.
  function Emitted(s: Snap, es: seq<Entry>): Outcome {
    if es == [] then Piece(s, "{}") else Outcome(Play(s, DocOps(es)).snap, Play(s, DocOps(es)).ok)
  }

  lemma EmittedAfter(s: Snap, es: seq<Entry>)
    requires Within(s)
    ensures After(s, DocText(es), Emitted(s, es).snap) && (!Emitted(s, es).ok ==> Emitted(s, es).snap.bad)
    ensures |Emitted(s, es).snap.content| >= |s.content|
  {
    if es == [] {
      EmptyDocument();
      WroteAfter(s, "{}");
    } else {
      DocOpsText(es);
      PlayAfter(s, DocOps(es));
      PlayGrows(s, DocOps(es));
    }
  }

  // The length is that of what has been written if all calls succeeded, a value that overflowed notwithstanding,
  // and 0 if one failed.
  method EmitJsonNodes(sink: Sink, nodes: seq<Node>, ghost es: seq<Entry>) returns (n: nat, ghost r: Outcome)
    requires Listed(nodes, es) && Apart(nodes, sink) && ValidEntries(es) && ItemsSafe(es)
    requires sink.Valid() && sink.Roomy() && Ready(sink.Snap()) && Bearable(sink.Snap(), DocText(es))
    modifies sink.Repr(), nodes
    ensures sink.Valid() && fresh(sink.Repr() - old(sink.Repr())) && Listed(nodes, es)
    ensures sink.Snap() == r.snap && (!r.ok ==> r.snap.bad)
    ensures Admits(old(sink.Snap()), DocText(es)) ==> r == Emitted(old(sink.Snap()), es)
    ensures Amounts(old(sink.Snap()), DocText(es), sink.Snap())
    ensures n == if r.ok then |sink.Snap().content| - |old(sink.Snap()).content| else 0
    decreases es, 4
  {
    hide Accepts, Admits, ValidEntries, ItemsSafe, DocText, DocOps, Sink.Valid, Sink.Roomy, Dest.Contents, Render, Next,
      Play, Did, Wrote, Takes, After;
    ghost var s := sink.Snap();
    AcceptsDocument(s, es);
    var before := sink.Length();
    if nodes == [] {
      EmptyDocument();
      BearableIsBounded(s, "{}");
      TakenIfAdmitted(s, "{}");
      n := sink.Write("{}");
      r := Outcome(sink.Snap(), n != 0);
      return;
    }
    var nested := false;
    for i := 0 to |nodes|
      invariant !nested && forall j :: 0 <= j < i ==> |nodes[j].path| <= 1
    {
      if |nodes[i].path| > 1 {
        nested := true;
        break;
      }
    }
    var written;
    ghost var t;
    if !nested {
      written, t := EmitFlatDocument(sink, nodes, es);
    } else {
      written, t := EmitNestedDocument(sink, nodes, es);
    }
    DidDocument(s, es, t);
    r := Outcome(t.snap, written);
    n := if written && sink.Length() >= before then sink.Length() - before else 0;
  }
}

/** Emissions that do not end as one might think: an input for each case. */
module WritingCounterexamples {
  import opened Escaping
  import opened PrettyText
  import opened Buffers
  import opened Writers
  import opened JsonValues
  import opened Grouping
  import opened Emission
  import opened Documents

  // ---- the length returned although a value has failed: {"a":true} into 8 characters

  function OneEntry(): seq<Entry> {
    [Entry(["a"], false, VBool(true))]
  }

  lemma OneEntryOps()
    ensures ItemsSafe(OneEntry()) && DocOps(OneEntry()) == [Open, Key("a"), Colon, Val(PBool(true)), Close]
  {
    var es := OneEntry();
    assert es[1..] == [] && Items(es) == [Item(["a"], PBool(true))] && Items(es)[1..] == [];
    assert es[0..] == es;
    DocOpsParts(es, [false]);
    FlatStep(es, 0, true);
    assert FlatOps(es[1..], false) == [];
  }

  lemma ValueOverflows()
    ensures var s := Snapshot("", false, AtMost(8), Plain);
      var r := Emitted(s, OneEntry());
      r.ok && r.snap.bad && r.snap.content == "{" + Quoted("a") + ":" + "}" && |r.snap.content| == 6
  {
    OneEntryOps();
    var s0 := Snapshot("", false, AtMost(8), Plain);
    var key := Quoted("a");
    assert Clean("a");
    EscapeIdentity("a");
    assert key == "\"" + "a" + "\"" && |key| == 3;
    var s1 := s0.(content := "{");
    var s2 := s0.(content := "{" + key);
    var s3 := s0.(content := "{" + key + ":");
    var s4 := s3.(bad := true);
    var s5 := s4.(content := "{" + key + ":" + "}");
    hide Quoted;
    assert Made(s0, Open) == Outcome(s1, true);
    assert Made(s1, Key("a")) == Outcome(s2, true);
    assert Made(s2, Colon) == Outcome(s3, true);
    assert |BoolText(true)| == 4;
    assert Made(s3, Val(PBool(true))) == Outcome(s4, true);
    assert Made(s4, Close) == Outcome(s5, true);
    PlayFive(s0, Open, s1, Key("a"), s2, Colon, s3, Val(PBool(true)), s4, Close, s5);
  }

  lemma PlayFive(s0: Snap, a: Op, s1: Snap, b: Op, s2: Snap, c: Op, s3: Snap, d: Op, s4: Snap, e: Op, s5: Snap)
    requires Made(s0, a) == Outcome(s1, true) && Made(s1, b) == Outcome(s2, true)
    requires Made(s2, c) == Outcome(s3, true) && Made(s3, d) == Outcome(s4, true) && Made(s4, e) == Outcome(s5, true)
    ensures Play(s0, [a, b, c, d, e]).ok && Play(s0, [a, b, c, d, e]).snap == s5
  {
    hide Made;
    PlayOne(s4, e, [], s5);
    PlayOne(s3, d, [e], s4);
    PlayOne(s2, c, [d, e], s3);
    PlayOne(s1, b, [c, d, e], s2);
    PlayOne(s0, a, [b, c, d, e], s1);
    assert [a] + [b, c, d, e] == [a, b, c, d, e] && [b] + [c, d, e] == [b, c, d, e];
    assert [c] + [d, e] == [c, d, e] && [d] + [e] == [d, e] && [e] + [] == [e];
  }

  lemma PlayOne(s: Snap, op: Op, ops: seq<Op>, t: Snap)
    requires Made(s, op) == Outcome(t, true)
    ensures Play(s, [op] + ops).ok == Play(t, ops).ok && Play(s, [op] + ops).snap == Play(t, ops).snap
  {
    hide Made;
    assert ([op] + ops)[1..] == ops;
  }

  // ---- a key that comes twice: one node at `a` and one below it

  lemma KeyTwice(a: string, b: string)
    ensures var es := [Entry([a], false, VNull), Entry([a, b], false, VNull)];
      && ItemsSafe(es)
      && ToJson(VDoc(es)) == JObj([Field(a, JNull), Field(a, JObj([Field(b, JNull)]))])
  {
    var es := [Entry([a], false, VNull), Entry([a, b], false, VNull)];
    var x, y := Item([a], PNull), Item([a, b], PNull);
    assert es[1..] == [Entry([a, b], false, VNull)] && es[1..][1..] == [];
    assert Items(es[1..]) == [y] + Items(es[1..][1..]) == [y];
    assert Items(es) == [x] + [y] == [x, y] && [x, y][1..] == [y] && [y][1..] == [];
    assert Safe([x, y]);
    GroupIsBuild([x, y]);
    LoneLeaf(b);
    assert [a, b][1..] == [b];
    assert Under([y], a) == [Item([b], PNull)] && Beside([y], a) == [];
    var inner := Member(a, Branch(Group([Item([b], PNull)])));
    assert Group([y]) == [inner];
    var ms := [Member(a, Leaf(PNull)), inner];
    assert Group([x, y]) == [ms[0]] + [inner] == ms;
    assert ms[1..] == [inner] && [inner][1..] == [];
    assert Fields([inner]) == [Field(a, TreeJson(inner.tree))] + Fields([]);
    assert Fields(ms) == [Field(a, TreeJson(ms[0].tree))] + Fields([inner]);
    assert ToJson(VDoc(es)) == PlanJson(PDoc(Build(Items(es)))) == JObj(Fields(ms));
  }

  lemma LoneLeaf(b: string)
    ensures Group([Item([b], PNull)]) == [Member(b, Leaf(PNull))]
    ensures Fields([Member(b, Leaf(PNull))]) == [Field(b, JNull)]
  {
    assert [Item([b], PNull)][1..] == [] && [Member(b, Leaf(PNull))][1..] == [];
  }

  // ---- a pretty buffer that does not see its destination fail

  method Unnoticed() returns (p: PrettyBuffer, n: nat)
    ensures fresh(p) && p.Valid() && p.dest.Bad() && !p.bad
  {
    var b := new StackBuffer(0);
    p := new PrettyBuffer(OnStack(b));
    n := p.Write(",");
  }
}

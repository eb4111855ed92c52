/** What a parse of laid-out text leaves in its bindings: each gets the value at its path, whatever the layout. */
module Delivery {
  import opened Decoding
  import opened Integers
  import opened PrettyText
  import opened Paths
  import opened Layouts
  import opened ParserSpec
  import opened RoundTrip
  import opened Bindings

  // ---- which events a binding is given

  // A block goes to every binding at or below its path, a scalar to the first one.
  predicate Reaches(slots: seq<Slot>, e: Event, i: nat)
    requires i < |slots|
  {
    Matches(slots[i], e) && (e.block || forall j :: 0 <= j < i ==> !Matches(slots[j], e))
  }

  lemma {:induction false} DeliverAt(slots: seq<Slot>, e: Event, i: nat)
    requires i < |slots|
    ensures Deliver(slots, e)[i] == if Reaches(slots, e, i) then Assigned(slots[i], e) else slots[i]
  {
    if i > 0 {
      DeliverAt(slots[1..], e, i - 1);
      assert forall j :: 0 < j < i ==> slots[j] == slots[1..][j - 1];
    }
  }

  // Bindings with the same paths.
  predicate SamePaths(slots: seq<Slot>, other: seq<Slot>) {
    |slots| == |other| && forall i :: 0 <= i < |slots| ==> slots[i].path == other[i].path
  }

  lemma {:induction false} DeliverKeepsPaths(slots: seq<Slot>, events: seq<Event>)
    ensures SamePaths(slots, DeliverAll(slots, events))
    decreases |events|
  {
    if events != [] {
      var next := Deliver(slots, events[0]);
      forall i | 0 <= i < |slots| ensures next[i].path == slots[i].path {
        DeliverAt(slots, events[0], i);
      }
      DeliverKeepsPaths(next, events[1..]);
    }
  }

  lemma SameReaches(slots: seq<Slot>, other: seq<Slot>, e: Event, i: nat)
    requires SamePaths(slots, other) && i < |slots|
    ensures Reaches(slots, e, i) == Reaches(other, e, i)
  {}

  datatype Last = Nothing | By(e: Event)

  // The last event that a binding is given.
  function LastTo(slots: seq<Slot>, events: seq<Event>, i: nat): Last
    requires i < |slots|
  {
    if events == [] then Nothing
    else
      var n := |events| - 1;
      if Reaches(slots, events[n], i) then By(events[n]) else LastTo(slots, events[..n], i)
  }

  lemma DeliverLast(slots: seq<Slot>, events: seq<Event>, i: nat)
    requires i < |slots| && events != []
    ensures var n := |events| - 1;
      var before := DeliverAll(slots, events[..n]);
      && before[i].path == slots[i].path
      && DeliverAll(slots, events)[i] ==
           if Reaches(slots, events[n], i) then Assigned(before[i], events[n]) else before[i]
  {
    var n := |events| - 1;
    var before, e := DeliverAll(slots, events[..n]), events[n];
    assert events == events[..n] + [e];
    DeliverAllSplit(slots, events[..n], [e]);
    assert [e][1..] == [];
    DeliverKeepsPaths(slots, events[..n]);
    SameReaches(slots, before, e, i);
    DeliverAt(before, e, i);
  }

  predicate SameKind(t: Target, u: Target) {
    && (t.BoolTarget? <==> u.BoolTarget?) && (t.ViewTarget? <==> u.ViewTarget?)
    && (t.StringTarget? <==> u.StringTarget?) && (t.Dynamic? <==> u.Dynamic?)
    && (t.IntTarget? <==> u.IntTarget?) && (t.IntTarget? ==> t.lo == u.lo && t.hi == u.hi)
  }

  lemma AssignedForgets(s: Slot, t: Slot, e: Event)
    requires s.path == t.path && SameKind(s.target, t.target)
    ensures SameKind(Assigned(s, e).target, s.target)
    ensures !s.target.IntTarget? || s.target == t.target ==> Assigned(s, e) == Assigned(t, e)
  {}

  // What a binding ends with is what its last event makes of it; only an integer that this one does not set can
  // be left from an earlier one.
  lemma {:induction false} LastDecides(slots: seq<Slot>, events: seq<Event>, i: nat) returns (before: Slot)
    requires i < |slots|
    ensures before.path == slots[i].path && SameKind(before.target, slots[i].target)
    ensures DeliverAll(slots, events)[i] ==
      match LastTo(slots, events, i)
      case Nothing => slots[i]
      case By(e) => Assigned(before, e)
    ensures LastTo(slots, events, i).By? && !slots[i].target.IntTarget? ==>
      DeliverAll(slots, events)[i] == Assigned(slots[i], LastTo(slots, events, i).e)
    decreases |events|
  {
    before := slots[i];
    if events != [] {
      var n := |events| - 1;
      DeliverLast(slots, events, i);
      var b := LastDecides(slots, events[..n], i);
      var last := LastTo(slots, events[..n], i);
      if last.By? { AssignedForgets(b, slots[i], last.e); }
      if Reaches(slots, events[n], i) {
        before := DeliverAll(slots, events[..n])[i];
        AssignedForgets(before, slots[i], events[n]);
      } else {
        before := b;
      }
    }
  }

  // ---- integers are not touched by blocks

  lemma FromBlock(raw: string, lo: int, hi: int, n: int)
    requires raw != "" && IsOpen(raw[0])
    ensures FromChars(raw, lo, hi, n) == n
  {}

  lemma {:induction false} BlocksKeepIntegers(slots: seq<Slot>, events: seq<Event>, i: nat)
    requires i < |slots| && slots[i].target.IntTarget? && OnlyBlocks(events, slots[i].path)
    ensures DeliverAll(slots, events)[i].target == slots[i].target
    decreases |events|
  {
    if events != [] {
      var n := |events| - 1;
      assert forall e :: e in events[..n] ==> e in events;
      BlocksKeepIntegers(slots, events[..n], i);
      DeliverLast(slots, events, i);
      if Reaches(slots, events[n], i) {
        assert IsBlock(events[n]);
        FromBlock(events[n].raw, slots[i].target.lo, slots[i].target.hi, slots[i].target.n);
      }
    }
  }

  // ---- a parsed document

  predicate DistinctPaths(slots: seq<Slot>) {
    forall i, j :: 0 <= i < j < |slots| ==> slots[i].path != slots[j].path
  }

  // Every binding's path leads to a value of the document.
  predicate AllThere(l: Laid, slots: seq<Slot>) {
    forall i :: 0 <= i < |slots| ==> slots[i].path != [] && At(l, slots[i].path).There?
  }

  predicate Parsable(l: Laid) {
    l.Object? && WellLaid(l)
  }

  // Nothing in the document is mistaken for what stands along the path. Objects in arrays may be: it is enough that
  // the path's first key is not a name within them, and that the value it leads to has none or is the path's end.
  predicate Traced(l: Laid, q: Path) {
    l.Object? && q != [] && q[0] != "" && AllSteady(l.fields, q)
  }

  predicate AllTraced(l: Laid, slots: seq<Slot>) {
    forall i :: 0 <= i < |slots| ==> Traced(l, slots[i].path)
  }

  lemma KeyedIsTraced(l: Laid, q: Path)
    requires l.Object? && Keyed(l) && q != [] && At(l, q).There?
    ensures Traced(l, q)
  {
    KeyedIsSteady(l.fields, q);
    ThereHasField(l.fields, q);
  }

  function DocumentEvents(l: Laid, post: string): seq<Event> {
    Found(l, [], "", post)
  }

  lemma AlongDocument(l: Laid, post: string, q: Path) returns (a: seq<Event>, e: Event, b: seq<Event>)
    requires Traced(l, q) && At(l, q).There?
    ensures DocumentEvents(l, post) == a + [e] + b && Aside(b, q)
    ensures IsEventOf(e, At(l, q).l, q)
    ensures Unique(l) ==> OnlyBlocks(a, q)
  {
    hide IsEventOf;
    var block := OwnBlock(l, [""], post);
    OwnBlockIsBlock(l, [""], post);
    assert [] + [""] == [""];
    a, e, b := AlongMembers(l.fields, "}" + post, q);
    assert [block] + (a + [e] + b) == ([block] + a) + [e] + b;
    a := [block] + a;
  }

  lemma {:induction false} LastOfSplit(slots: seq<Slot>, a: seq<Event>, e: Event, b: seq<Event>, i: nat)
    requires i < |slots| && Reaches(slots, e, i) && Aside(b, slots[i].path)
    ensures LastTo(slots, a + [e] + b, i) == By(e)
    ensures DeliverAll(slots, a + [e] + b)[i] == Assigned(DeliverAll(slots, a)[i], e)
    decreases |b|
  {
    var all := a + [e] + b;
    var n := |all| - 1;
    DeliverLast(slots, all, i);
    if b == [] {
      assert all[..n] == a && all[n] == e;
    } else {
      var c := b[..|b| - 1];
      assert all[..n] == a + [e] + c && all[n] == b[|b| - 1];
      assert forall x :: x in c ==> x in b;
      LastOfSplit(slots, a, e, c, i);
    }
  }

  // Of distinct bindings whose values are all there, the one on a value's own path is the first to match it.
  lemma OwnReaches(l: Laid, slots: seq<Slot>, e: Event, i: nat)
    requires AllThere(l, slots) && DistinctPaths(slots) && i < |slots|
    requires IsEventOf(e, At(l, slots[i].path).l, slots[i].path)
    ensures Reaches(slots, e, i)
  {
    var q := slots[i].path;
    if !e.block {
      forall j | 0 <= j < i ensures !Matches(slots[j], e) {
        var r := slots[j].path;
        if q <= r {
          assert r == q + r[|q|..] && r[|q|..] != [];
          AtBelow(l, q, r[|q|..]);
        }
      }
    }
  }

  // Whatever the layout, the spelling and the surroundings: each binding's last event is that of the value at its
  // path, and decides it.
  lemma ParsedDocument(l: Laid, pre: string, post: string, slots: seq<Slot>, i: nat)
    returns (before: Slot, e: Event)
    requires Parsable(l) && IsFiller(pre) && IsFiller(post)
    requires AllThere(l, slots) && DistinctPaths(slots) && i < |slots| && Traced(l, slots[i].path)
    ensures IsEventOf(e, At(l, slots[i].path).l, slots[i].path)
    ensures before.path == slots[i].path && SameKind(before.target, slots[i].target)
    ensures Rest(slots, pre + LaidText(l) + post, [], "")[i] == Assigned(before, e)
    ensures Unique(l) || !slots[i].target.IntTarget? ==>
      Rest(slots, pre + LaidText(l) + post, [], "")[i] == Assigned(slots[i], e)
  {
    hide OwnBlock, At, IsEventOf, Coerce;
    RunDocument(l, pre, post);
    var a, b;
    a, e, b := AlongDocument(l, post, slots[i].path);
    OwnReaches(l, slots, e, i);
    LastOfSplit(slots, a, e, b, i);
    before := DeliverAll(slots, a)[i];
    KindKept(slots, a, i);
    AssignedForgets(before, slots[i], e);
    if Unique(l) && slots[i].target.IntTarget? { BlocksKeepIntegers(slots, a, i); }
  }

  lemma KindKept(slots: seq<Slot>, events: seq<Event>, i: nat)
    requires i < |slots|
    ensures DeliverAll(slots, events)[i].path == slots[i].path
    ensures SameKind(DeliverAll(slots, events)[i].target, slots[i].target)
  {
    var b := LastDecides(slots, events, i);
    var last := LastTo(slots, events, i);
    if last.By? { AssignedForgets(b, slots[i], last.e); }
  }

  // ---- what the binding then says

  // The text of a value as a binding is given it.
  function RawOf(l: Laid): string {
    match l
    case Primitive(t) => t
    case Str(b) => b
    case _ => LaidText(l)
  }

  predicate IsNull(l: Laid) {
    l == Primitive("null")
  }

  // The text gives a number of the range whatever was there before.
  predicate GivesNumber(raw: string, lo: int, hi: int) {
    FromChars(raw, lo, hi, 0) == FromChars(raw, lo, hi, 1)
  }

  lemma NumberGiven(raw: string, lo: int, hi: int, n: int)
    requires GivesNumber(raw, lo, hi)
    ensures FromChars(raw, lo, hi, n) == FromChars(raw, lo, hi, 0)
  {}

  // A binding that holds the value `l`: strings decoded or as written, numbers in range, anything as text, but an
  // object or array exactly if it is captured.
  predicate Carries(s: Slot, l: Laid) {
    && s.isSet && (s.isNull <==> IsNull(l))
    && match s.target
       case BoolTarget(b) => b <==> !IsContainer(l) && (RawOf(l) == "true" || RawOf(l) == "1")
       case IntTarget(lo, hi, n) =>
         && (IsNull(l) ==> n == 0)
         && (!IsContainer(l) && GivesNumber(RawOf(l), lo, hi) ==> n == FromChars(RawOf(l), lo, hi, 0))
       case StringTarget(t) => Captured(l) ==> t == if IsNull(l) then "" else Decode(RawOf(l))
       case ViewTarget(t) => (t == if IsNull(l) then "" else RawOf(l)) <==> Captured(l)
       case Dynamic(raw, isString, iter, started) =>
         && iter == raw && !started && (isString <==> l.Str?)
         && (raw == RawOf(l) <==> Captured(l))
  }

  lemma NullIsNoNumber(lo: int, hi: int)
    ensures !GivesNumber("null", lo, hi)
  {}

  lemma AssignedCarries(s: Slot, e: Event, l: Laid, q: Path)
    requires IsEventOf(e, l, q)
    ensures Carries(Assigned(s, e), l)
  {
    hide LaidText, FromChars, Decode, Inner;
    if s.target.IntTarget? {
      NullIsNoNumber(s.target.lo, s.target.hi);
      if !IsContainer(l) && GivesNumber(RawOf(l), s.target.lo, s.target.hi) {
        NumberGiven(RawOf(l), s.target.lo, s.target.hi, s.target.n);
      }
    }
  }

  // `r` is the binding `s` with the value at its path.
  predicate Bound(l: Laid, s: Slot, r: Slot) {
    r.path == s.path && SameKind(r.target, s.target) && At(l, s.path).There? && Carries(r, At(l, s.path).l)
  }

  // Parsing leaves in every binding the value at its path.
  lemma {:induction false} ParsedBindings(l: Laid, pre: string, post: string, slots: seq<Slot>)
    requires Parsable(l) && IsFiller(pre) && IsFiller(post)
    requires AllThere(l, slots) && AllTraced(l, slots) && DistinctPaths(slots)
    ensures forall i :: 0 <= i < |slots| ==>
      Bound(l, slots[i], Rest(Cleared(slots), pre + LaidText(l) + post, [], "")[i])
  {
    hide Bound, Rest, Parsable, IsFiller;
    forall i | 0 <= i < |slots| ensures Bound(l, slots[i], Rest(Cleared(slots), pre + LaidText(l) + post, [], "")[i]) {
      ParsedBinding(l, pre, post, slots, i);
    }
  }

  lemma ParsedBinding(l: Laid, pre: string, post: string, slots: seq<Slot>, i: nat)
    requires Parsable(l) && IsFiller(pre) && IsFiller(post)
    requires AllThere(l, slots) && DistinctPaths(slots) && i < |slots| && Traced(l, slots[i].path)
    ensures Bound(l, slots[i], Rest(Cleared(slots), pre + LaidText(l) + post, [], "")[i])
  {
    hide Carries, Rest, IsEventOf, Coerce, IsFiller;
    var before, e := ParsedDocument(l, pre, post, Cleared(slots), i);
    AssignedForgets(before, slots[i], e);
    AssignedCarries(before, e, At(l, slots[i].path).l, slots[i].path);
  }

  // ---- the layout does not matter

  // Both texts find the same, up to the text of blocks.
  predicate Alike(e: Event, f: Event) {
    e.path == f.path && e.block == f.block && (if e.block then IsBlock(e) && IsBlock(f) else e == f)
  }

  predicate AllAlike(events: seq<Event>, other: seq<Event>) {
    |events| == |other| && forall i :: 0 <= i < |events| ==> Alike(events[i], other[i])
  }

  lemma AlikeJoin(a: seq<Event>, a': seq<Event>, b: seq<Event>, b': seq<Event>)
    requires AllAlike(a, a') && AllAlike(b, b')
    ensures AllAlike(a + b, a' + b')
  {}

  lemma OwnBlocksAlike(l: Laid, m: Laid, q: Path, rest: string, rest': string)
    requires IsContainer(l) && IsContainer(m)
    ensures AllAlike([OwnBlock(l, q, rest)], [OwnBlock(m, q, rest')])
  {
    OwnBlockIsBlock(l, q, rest);
    OwnBlockIsBlock(m, q, rest');
    hide OwnBlock;
  }

  lemma {:induction false} FoundAlike(l: Laid, m: Laid, p: Path, key: string, rest: string, rest': string)
    requires Bare(l) == Bare(m)
    ensures AllAlike(Found(l, p, key, rest), Found(m, p, key, rest'))
    decreases l, 1
  {
    if IsContainer(l) {
      OwnBlocksAlike(l, m, p + [key], rest, rest');
      if l.Array? {
        ItemsAlike(l.items, m.items, p, "]" + rest, "]" + rest');
        AlikeJoin([OwnBlock(l, p + [key], rest)], [OwnBlock(m, p + [key], rest')],
                  FoundItems(l.items, p, "]" + rest), FoundItems(m.items, p, "]" + rest'));
      } else {
        FieldsAlike(l.fields, m.fields, Held(p, key), "}" + rest, "}" + rest');
        AlikeJoin([OwnBlock(l, p + [key], rest)], [OwnBlock(m, p + [key], rest')],
                  FoundFields(l.fields, Held(p, key), "}" + rest), FoundFields(m.fields, Held(p, key), "}" + rest'));
      }
    }
  }

  lemma {:induction false} ItemsAlike(items: seq<LaidItem>, other: seq<LaidItem>, p: Path, rest: string, rest': string)
    requires BareItems(items) == BareItems(other)
    ensures AllAlike(FoundItems(items, p, rest), FoundItems(other, p, rest'))
    decreases items, 0
  {
    if items != [] {
      var first := items[0].tail + (ItemsText(items[1..]) + rest);
      var first' := other[0].tail + (ItemsText(other[1..]) + rest');
      assert BareItems(items)[1..] == BareItems(items[1..]) && BareItems(other)[1..] == BareItems(other[1..]);
      FoundAlike(items[0].value, other[0].value, p, "", first, first');
      var behind := Behind(items[0].value, p, "");
      SameBehind(items[0].value, other[0].value, p, "");
      ItemsAlike(items[1..], other[1..], behind, rest, rest');
      AlikeJoin(Found(items[0].value, p, "", first), Found(other[0].value, p, "", first'),
                FoundItems(items[1..], behind, rest), FoundItems(other[1..], behind, rest'));
    }
  }

  lemma {:induction false} FieldsAlike(fields: seq<LaidField>, other: seq<LaidField>, p: Path, rest: string,
                                       rest': string)
    requires BareFields(fields) == BareFields(other)
    ensures AllAlike(FoundFields(fields, p, rest), FoundFields(other, p, rest'))
    decreases fields, 0
  {
    if fields != [] {
      var f, g := fields[0], other[0];
      var first, first' := f.tail + (LaidFieldsText(fields[1..]) + rest), g.tail + (LaidFieldsText(other[1..]) + rest');
      assert BareFields(fields)[1..] == BareFields(fields[1..]) && BareFields(other)[1..] == BareFields(other[1..]);
      FoundAlike(f.value, g.value, p, f.key, first, first');
      var behind := Behind(f.value, p, f.key);
      SameBehind(f.value, g.value, p, f.key);
      FieldsAlike(fields[1..], other[1..], behind, rest, rest');
      AlikeJoin(Found(f.value, p, f.key, first), Found(g.value, p, g.key, first'),
                FoundFields(fields[1..], behind, rest), FoundFields(other[1..], behind, rest'));
    }
  }

  // Text of a block shows in a binding only if it is the last thing the binding is given, and the binding holds
  // text.
  predicate HoldsText(t: Target) {
    t.ViewTarget? || t.StringTarget? || t.Dynamic?
  }

  predicate EndsInBlock(last: Last, t: Target) {
    last.By? && last.e.block && HoldsText(t)
  }

  predicate LastAlike(a: Last, b: Last) {
    (a.By? <==> b.By?) && (a.By? ==> Alike(a.e, b.e))
  }

  lemma {:induction false} AlikeLast(slots: seq<Slot>, events: seq<Event>, other: seq<Event>, i: nat)
    requires i < |slots| && AllAlike(events, other)
    ensures LastAlike(LastTo(slots, events, i), LastTo(slots, other, i))
    decreases |events|
  {
    if events != [] {
      var n := |events| - 1;
      assert Reaches(slots, events[n], i) == Reaches(slots, other[n], i);
      AlikeLast(slots, events[..n], other[..n], i);
    }
  }

  lemma AssignedAlike(s: Slot, e: Event, f: Event)
    requires Alike(e, f)
    ensures !(e.block && HoldsText(s.target)) ==> Assigned(s, e) == Assigned(s, f)
  {
    if e.block && s.target.IntTarget? {
      FromBlock(e.raw, s.target.lo, s.target.hi, s.target.n);
      FromBlock(f.raw, s.target.lo, s.target.hi, s.target.n);
    }
  }

  lemma {:induction false} IntegersAlike(slots: seq<Slot>, events: seq<Event>, other: seq<Event>, i: nat)
    requires i < |slots| && AllAlike(events, other) && slots[i].target.IntTarget?
    ensures DeliverAll(slots, events)[i] == DeliverAll(slots, other)[i]
    ensures DeliverAll(slots, events)[i].target.IntTarget?
    decreases |events|
  {
    if events != [] {
      var n := |events| - 1;
      assert AllAlike(events[..n], other[..n]);
      IntegersAlike(slots, events[..n], other[..n], i);
      DeliverLast(slots, events, i);
      DeliverLast(slots, other, i);
      assert Reaches(slots, events[n], i) == Reaches(slots, other[n], i);
      AssignedAlike(DeliverAll(slots, events[..n])[i], events[n], other[n]);
    }
  }

  lemma DeliveredAlike(slots: seq<Slot>, events: seq<Event>, other: seq<Event>, i: nat)
    requires i < |slots| && AllAlike(events, other)
    requires !EndsInBlock(LastTo(slots, events, i), slots[i].target)
    ensures DeliverAll(slots, events)[i] == DeliverAll(slots, other)[i]
  {
    if slots[i].target.IntTarget? {
      IntegersAlike(slots, events, other, i);
    } else {
      AlikeLast(slots, events, other, i);
      var b := LastDecides(slots, events, i);
      var c := LastDecides(slots, other, i);
      var last := LastTo(slots, events, i);
      if last.By? { AssignedAlike(slots[i], last.e, LastTo(slots, other, i).e); }
    }
  }

  lemma {:induction false} SameKeyed(l: Laid, m: Laid)
    requires Bare(l) == Bare(m)
    ensures Keyed(l) == Keyed(m) && Unique(l) == Unique(m) && forall key :: Lost(l, key) == Lost(m, key)
    decreases l, 1
  {
    if l.Array? {
      SameItems(l.items, m.items);
    } else if l.Object? {
      SameFields(l.fields, m.fields);
    }
  }

  lemma {:induction false} SameItems(items: seq<LaidItem>, other: seq<LaidItem>)
    requires BareItems(items) == BareItems(other)
    ensures NoObjects(items) == NoObjects(other) && LostItems(items) == LostItems(other)
    decreases items, 0
  {
    if items != [] {
      assert BareItems(items)[1..] == BareItems(items[1..]) && BareItems(other)[1..] == BareItems(other[1..]);
      SameKeyed(items[0].value, other[0].value);
      SameItems(items[1..], other[1..]);
    }
  }

  lemma {:induction false} SameFields(fields: seq<LaidField>, other: seq<LaidField>)
    requires BareFields(fields) == BareFields(other)
    ensures KeyedFields(fields) == KeyedFields(other) && UniqueFields(fields) == UniqueFields(other)
    ensures LostFields(fields) == LostFields(other)
    ensures forall k :: HasField(fields, k) == HasField(other, k)
    decreases fields, 0
  {
    if fields != [] {
      assert BareFields(fields)[1..] == BareFields(fields[1..]) && BareFields(other)[1..] == BareFields(other[1..]);
      SameKeyed(fields[0].value, other[0].value);
      SameFields(fields[1..], other[1..]);
    }
  }

  lemma {:induction false} SameNamed(l: Laid, m: Laid, k: string)
    requires Bare(l) == Bare(m)
    ensures Named(l, k) == Named(m, k)
    decreases l, 1
  {
    if l.Array? {
      SameNamedItems(l.items, m.items, k);
    } else if l.Object? {
      SameNamedFields(l.fields, m.fields, k);
    }
  }

  lemma {:induction false} SameNamedItems(items: seq<LaidItem>, other: seq<LaidItem>, k: string)
    requires BareItems(items) == BareItems(other)
    ensures NamedItems(items, k) == NamedItems(other, k)
    decreases items, 0
  {
    if items != [] {
      assert BareItems(items)[1..] == BareItems(items[1..]) && BareItems(other)[1..] == BareItems(other[1..]);
      SameNamed(items[0].value, other[0].value, k);
      SameNamedItems(items[1..], other[1..], k);
    }
  }

  lemma {:induction false} SameNamedFields(fields: seq<LaidField>, other: seq<LaidField>, k: string)
    requires BareFields(fields) == BareFields(other)
    ensures NamedFields(fields, k) == NamedFields(other, k)
    decreases fields, 0
  {
    if fields != [] {
      assert BareFields(fields)[1..] == BareFields(fields[1..]) && BareFields(other)[1..] == BareFields(other[1..]);
      SameNamed(fields[0].value, other[0].value, k);
      SameNamedFields(fields[1..], other[1..], k);
    }
  }

  lemma {:induction false} SameSteady(fields: seq<LaidField>, other: seq<LaidField>, q: Path)
    requires BareFields(fields) == BareFields(other) && q != []
    ensures AllSteady(fields, q) == AllSteady(other, q)
    decreases |fields|
  {
    if fields != [] {
      assert BareFields(fields)[1..] == BareFields(fields[1..]) && BareFields(other)[1..] == BareFields(other[1..]);
      SameKeyed(fields[0].value, other[0].value);
      SameNamed(fields[0].value, other[0].value, q[0]);
      SameSteady(fields[1..], other[1..], q);
    }
  }

  lemma SameTraced(l: Laid, m: Laid, q: Path)
    requires Bare(l) == Bare(m)
    ensures Traced(l, q) == Traced(m, q)
  {
    if l.Object? && q != [] { SameSteady(l.fields, m.fields, q); }
  }

  lemma SameBehind(l: Laid, m: Laid, p: Path, key: string)
    requires Bare(l) == Bare(m)
    ensures Behind(l, p, key) == Behind(m, p, key)
  {
    SameKeyed(l, m);
    BehindIs(l, p, key);
    BehindIs(m, p, key);
  }

  lemma {:induction false} SamePlace(l: Laid, m: Laid, q: Path)
    requires Bare(l) == Bare(m)
    ensures At(l, q).There? == At(m, q).There?
    ensures At(l, q).There? ==> Bare(At(l, q).l) == Bare(At(m, q).l)
    decreases l, 1
  {
    if q != [] && l.Object? {
      SameField(l.fields, m.fields, q);
    }
  }

  lemma {:induction false} SameField(fields: seq<LaidField>, other: seq<LaidField>, q: Path)
    requires BareFields(fields) == BareFields(other) && q != []
    ensures AtField(fields, q).There? == AtField(other, q).There?
    ensures AtField(fields, q).There? ==> Bare(AtField(fields, q).l) == Bare(AtField(other, q).l)
    decreases fields, 0
  {
    if fields != [] {
      assert BareFields(fields)[1..] == BareFields(fields[1..]) && BareFields(other)[1..] == BareFields(other[1..]);
      SameFields(fields[1..], other[1..]);
      if HasField(fields[1..], q[0]) {
        SameField(fields[1..], other[1..], q);
      } else {
        SamePlace(fields[0].value, other[0].value, q[1..]);
      }
    }
  }

  // Two texts of one document, however laid out and surrounded: every binding ends up the same, except one that
  // holds text and is given a block last, which has that block's text. Objects may lack keys, keys may repeat,
  // bindings may overlap, and their paths need not be there.
  lemma LayoutsAgree(l: Laid, pre: string, post: string, m: Laid, pre': string, post': string, slots: seq<Slot>, i: nat)
    requires IsContainer(l) && WellLaid(l) && WellLaid(m) && Bare(l) == Bare(m)
    requires IsFiller(pre) && IsFiller(post) && IsFiller(pre') && IsFiller(post')
    requires i < |slots| && !EndsInBlock(LastTo(slots, DocumentEvents(l, post), i), slots[i].target)
    ensures Rest(slots, pre + LaidText(l) + post, [], "")[i] == Rest(slots, pre' + LaidText(m) + post', [], "")[i]
  {
    hide IsFiller, Coerce, Found, EndsInBlock;
    RunDocument(l, pre, post);
    RunDocument(m, pre', post');
    FoundAlike(l, m, [], "", post, post');
    DeliveredAlike(slots, DocumentEvents(l, post), DocumentEvents(m, post'), i);
  }

  // In particular bindings on paths that lead to scalars.
  lemma ScalarsAgree(l: Laid, pre: string, post: string, m: Laid, pre': string, post': string, slots: seq<Slot>, i: nat)
    requires Parsable(l) && WellLaid(m) && Bare(l) == Bare(m)
    requires IsFiller(pre) && IsFiller(post) && IsFiller(pre') && IsFiller(post')
    requires AllThere(l, slots) && DistinctPaths(slots) && i < |slots| && Traced(l, slots[i].path)
    requires !IsContainer(At(l, slots[i].path).l)
    ensures Rest(slots, pre + LaidText(l) + post, [], "")[i] == Rest(slots, pre' + LaidText(m) + post', [], "")[i]
  {
    hide Rest, IsFiller, OwnBlock;
    var a, e, b := AlongDocument(l, post, slots[i].path);
    OwnReaches(l, slots, e, i);
    LastOfSplit(slots, a, e, b, i);
    LayoutsAgree(l, pre, post, m, pre', post', slots, i);
  }
}

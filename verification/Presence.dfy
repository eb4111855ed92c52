/** What `is_set` says after a parse (parser.hpp:36, README.md:293): which documents set which bindings. */
module Presence {
  import opened Escaping
  import opened Paths
  import opened Layouts
  import opened ParserSpec
  import opened RoundTrip
  import opened Bindings
  import opened Delivery

  // Some of the events come to the binding.
  predicate Given(slots: seq<Slot>, events: seq<Event>, i: nat)
    requires i < |slots|
  {
    exists e :: e in events && Reaches(slots, e, i)
  }

  lemma GivenJoin(slots: seq<Slot>, a: seq<Event>, b: seq<Event>, i: nat)
    requires i < |slots|
    ensures Given(slots, a + b, i) <==> Given(slots, a, i) || Given(slots, b, i)
  {
    if Given(slots, a, i) {
      var e :| e in a && Reaches(slots, e, i);
      assert e in a + b;
    }
    if Given(slots, b, i) {
      var e :| e in b && Reaches(slots, e, i);
      assert e in a + b;
    }
  }

  lemma {:induction false} LastIsGiven(slots: seq<Slot>, events: seq<Event>, i: nat)
    requires i < |slots|
    ensures LastTo(slots, events, i).By? <==> Given(slots, events, i)
    decreases |events|
  {
    if events != [] {
      var n := |events| - 1;
      LastIsGiven(slots, events[..n], i);
      assert events == events[..n] + [events[n]];
      GivenJoin(slots, events[..n], [events[n]], i);
      assert Reaches(slots, events[n], i) ==> events[n] in [events[n]];
    }
  }

  lemma SetIsGiven(slots: seq<Slot>, events: seq<Event>, i: nat)
    requires i < |slots|
    ensures DeliverAll(slots, events)[i].isSet <==> slots[i].isSet || Given(slots, events, i)
  {
    LastIsGiven(slots, events, i);
    var before := LastDecides(slots, events, i);
  }

  // No binding listed before this one begins with the same key.
  predicate ComesFirst(slots: seq<Slot>, i: nat)
    requires i < |slots| && slots[i].path != []
  {
    forall j :: 0 <= j < i ==> !(slots[i].path[..1] <= slots[j].path)
  }

  // ---- what stands where no key is open

  function Less(d: nat, n: nat): nat {
    if n <= d then d - n else 0
  }

  // With `d` keys open at `l` and `key` before it: a value in it, or it itself, stands under `k` where none is open.
  // With `block`, an object or array does.
  predicate AtTop(l: Laid, d: nat, key: string, k: string, block: bool)
    decreases l, 1
  {
    || (d == 0 && key == k && (block ==> IsContainer(l)))
    || match l
       case Array(_, items) => ItemsAtTop(items, d, k, block)
       case Object(_, fields) => FieldsAtTop(fields, if key != "" then d + 1 else d, k, block)
       case _ => false
  }

  predicate ItemsAtTop(items: seq<LaidItem>, d: nat, k: string, block: bool)
    decreases items, 0
  {
    items != [] &&
    (AtTop(items[0].value, d, "", k, block) || ItemsAtTop(items[1..], Less(d, Lost(items[0].value, "")), k, block))
  }

  predicate FieldsAtTop(fields: seq<LaidField>, d: nat, k: string, block: bool)
    decreases fields, 0
  {
    fields != [] &&
    (var f := fields[0];
     AtTop(f.value, d, f.key, k, block) || FieldsAtTop(fields[1..], Less(d, Lost(f.value, f.key)), k, block))
  }

  // An event at `[k]`, of a block if so asked.
  predicate Shows(events: seq<Event>, k: string, block: bool) {
    exists e :: e in events && e.path == [k] && (block ==> e.block)
  }

  lemma ShowsJoin(a: seq<Event>, b: seq<Event>, k: string, block: bool)
    ensures Shows(a + b, k, block) <==> Shows(a, k, block) || Shows(b, k, block)
  {
    if Shows(a, k, block) {
      var e :| e in a && e.path == [k] && (block ==> e.block);
      assert e in a + b;
    }
    if Shows(b, k, block) {
      var e :| e in b && e.path == [k] && (block ==> e.block);
      assert e in a + b;
    }
  }

  lemma ShowsOne(e: Event, k: string, block: bool)
    ensures Shows([e], k, block) <==> e.path == [k] && (block ==> e.block)
  {
    assert e in [e];
  }

  lemma OwnShows(l: Laid, p: Path, key: string, rest: string, k: string, block: bool)
    ensures var e := if IsContainer(l) then OwnBlock(l, p + [key], rest) else ScalarEvent(p + [key], l);
      Shows([e], k, block) <==> |p| == 0 && key == k && (block ==> IsContainer(l))
  {
    if IsContainer(l) { OwnBlockIsBlock(l, p + [key], rest); }
    hide OwnBlock;
    var e := if IsContainer(l) then OwnBlock(l, p + [key], rest) else ScalarEvent(p + [key], l);
    ShowsOne(e, k, block);
    assert p + [key] == [k] <==> p == [] && key == k by { assert (p + [key])[|p|] == key; }
  }

  lemma BehindLess(l: Laid, p: Path, key: string)
    ensures |Behind(l, p, key)| == Less(|p|, Lost(l, key))
  {
    BehindIs(l, p, key);
  }

  // What is found at `[k]`.
  lemma {:induction false} FoundAtTop(l: Laid, p: Path, key: string, rest: string, k: string, block: bool)
    ensures Shows(Found(l, p, key, rest), k, block) <==> AtTop(l, |p|, key, k, block)
    decreases l, 1
  {
    hide OwnBlock, Shows;
    OwnShows(l, p, key, rest, k, block);
    if l.Array? {
      ItemsFoundAtTop(l.items, p, "]" + rest, k, block);
      ShowsJoin([OwnBlock(l, p + [key], rest)], FoundItems(l.items, p, "]" + rest), k, block);
    } else if l.Object? {
      FieldsFoundAtTop(l.fields, Held(p, key), "}" + rest, k, block);
      ShowsJoin([OwnBlock(l, p + [key], rest)], FoundFields(l.fields, Held(p, key), "}" + rest), k, block);
    }
  }

  lemma NothingShows(k: string, block: bool)
    ensures !Shows([], k, block)
  {}

  lemma {:induction false} ItemsFoundAtTop(items: seq<LaidItem>, p: Path, rest: string, k: string, block: bool)
    ensures Shows(FoundItems(items, p, rest), k, block) <==> ItemsAtTop(items, |p|, k, block)
    decreases items, 0
  {
    hide Shows;
    if items == [] {
      NothingShows(k, block);
    } else {
      var v, first := items[0].value, items[0].tail + (ItemsText(items[1..]) + rest);
      FoundAtTop(v, p, "", first, k, block);
      BehindLess(v, p, "");
      ItemsFoundAtTop(items[1..], Behind(v, p, ""), rest, k, block);
      ShowsJoin(Found(v, p, "", first), FoundItems(items[1..], Behind(v, p, ""), rest), k, block);
    }
  }

  lemma {:induction false} FieldsFoundAtTop(fields: seq<LaidField>, p: Path, rest: string, k: string, block: bool)
    ensures Shows(FoundFields(fields, p, rest), k, block) <==> FieldsAtTop(fields, |p|, k, block)
    decreases fields, 0
  {
    hide Shows;
    if fields == [] {
      NothingShows(k, block);
    } else {
      var f, first := fields[0], fields[0].tail + (LaidFieldsText(fields[1..]) + rest);
      FoundAtTop(f.value, p, f.key, first, k, block);
      BehindLess(f.value, p, f.key);
      FieldsFoundAtTop(fields[1..], Behind(f.value, p, f.key), rest, k, block);
      ShowsJoin(Found(f.value, p, f.key, first), FoundFields(fields[1..], Behind(f.value, p, f.key), rest), k, block);
    }
  }

  // ---- what is found below `[k]` has an object at `[k]` before it

  predicate Off(p: Path, k: string) {
    p == [] || p[0] != k
  }

  lemma {:induction false} FoundBelow(l: Laid, p: Path, key: string, rest: string, k: string, e: Event)
    requires Off(p, k) && e in Found(l, p, key, rest)
    ensures |e.path| > 1 && e.path[0] == k ==> AtTop(l, |p|, key, k, true)
    decreases l, 1
  {
    hide OwnBlock;
    var own := p + [key];
    assert own[0] == if p == [] then key else p[0];
    if !IsContainer(l) {
      assert Found(l, p, key, rest) == [ScalarEvent(own, l)];
      assert e.path == own;
    } else if e == OwnBlock(l, own, rest) {
      OwnBlockIsBlock(l, own, rest);
      assert e.path == own;
    } else if l.Array? {
      ItemsFoundBelow(l.items, p, "]" + rest, k, e);
    } else if p != [] || key != k {
      FieldsFoundBelow(l.fields, Held(p, key), "}" + rest, k, e);
    }
  }

  lemma {:induction false} ItemsFoundBelow(items: seq<LaidItem>, p: Path, rest: string, k: string, e: Event)
    requires Off(p, k) && e in FoundItems(items, p, rest)
    ensures |e.path| > 1 && e.path[0] == k ==> ItemsAtTop(items, |p|, k, true)
    decreases items, 0
  {
    hide Found, AtTop, Lost;
    var first := items[0].tail + (ItemsText(items[1..]) + rest);
    if e in Found(items[0].value, p, "", first) {
      FoundBelow(items[0].value, p, "", first, k, e);
    } else {
      BehindIs(items[0].value, p, "");
      ItemsFoundBelow(items[1..], Behind(items[0].value, p, ""), rest, k, e);
    }
  }

  lemma {:induction false} FieldsFoundBelow(fields: seq<LaidField>, p: Path, rest: string, k: string, e: Event)
    requires Off(p, k) && e in FoundFields(fields, p, rest)
    ensures |e.path| > 1 && e.path[0] == k ==> FieldsAtTop(fields, |p|, k, true)
    decreases fields, 0
  {
    hide Found, AtTop, Lost;
    var first := fields[0].tail + (LaidFieldsText(fields[1..]) + rest);
    if e in Found(fields[0].value, p, fields[0].key, first) {
      FoundBelow(fields[0].value, p, fields[0].key, first, k, e);
    } else {
      BehindIs(fields[0].value, p, fields[0].key);
      FieldsFoundBelow(fields[1..], Behind(fields[0].value, p, fields[0].key), rest, k, e);
    }
  }

  lemma {:induction false} FoundUnderKeys(l: Laid, p: Path, key: string, rest: string, e: Event)
    requires e in Found(l, p, key, rest)
    ensures e.path != []
    decreases l, 1
  {
    hide OwnBlock;
    if !IsContainer(l) {
      assert Found(l, p, key, rest) == [ScalarEvent(p + [key], l)];
    } else if e == OwnBlock(l, p + [key], rest) {
      OwnBlockIsBlock(l, p + [key], rest);
    } else if l.Array? {
      ItemsUnderKeys(l.items, p, "]" + rest, e);
    } else {
      FieldsUnderKeys(l.fields, Held(p, key), "}" + rest, e);
    }
  }

  lemma {:induction false} ItemsUnderKeys(items: seq<LaidItem>, p: Path, rest: string, e: Event)
    requires e in FoundItems(items, p, rest)
    ensures e.path != []
    decreases items, 0
  {
    var first := items[0].tail + (ItemsText(items[1..]) + rest);
    if e in Found(items[0].value, p, "", first) {
      FoundUnderKeys(items[0].value, p, "", first, e);
    } else {
      ItemsUnderKeys(items[1..], Behind(items[0].value, p, ""), rest, e);
    }
  }

  lemma {:induction false} FieldsUnderKeys(fields: seq<LaidField>, p: Path, rest: string, e: Event)
    requires e in FoundFields(fields, p, rest)
    ensures e.path != []
    decreases fields, 0
  {
    var first := fields[0].tail + (LaidFieldsText(fields[1..]) + rest);
    if e in Found(fields[0].value, p, fields[0].key, first) {
      FoundUnderKeys(fields[0].value, p, fields[0].key, first, e);
    } else {
      FieldsUnderKeys(fields[1..], Behind(fields[0].value, p, fields[0].key), rest, e);
    }
  }

  // ---- which bindings are set

  // The first key of the path stands where no key is open: with a block, which goes to all bindings, or with a
  // scalar that goes to this one.
  predicate Sets(l: Laid, slots: seq<Slot>, i: nat)
    requires i < |slots|
  {
    slots[i].path != [] &&
    (var k := slots[i].path[0]; AtTop(l, 0, "", k, true) || (AtTop(l, 0, "", k, false) && ComesFirst(slots, i)))
  }

  lemma GivenIsShown(slots: seq<Slot>, events: seq<Event>, i: nat)
    requires i < |slots| && forall e :: e in events ==> e.path != []
    requires slots[i].path != [] ==>
      forall e :: e in events && |e.path| > 1 && e.path[0] == slots[i].path[0] ==> Shows(events, slots[i].path[0], true)
    ensures Given(slots, events, i) <==>
      slots[i].path != []
      && (Shows(events, slots[i].path[0], true) || (Shows(events, slots[i].path[0], false) && ComesFirst(slots, i)))
  {
    var q := slots[i].path;
    if q != [] {
      assert q[..1] == [q[0]] <= q;
      if Shows(events, q[0], true) {
        var e :| e in events && e.path == [q[0]] && e.block;
        assert Reaches(slots, e, i);
      } else if Shows(events, q[0], false) && ComesFirst(slots, i) {
        var e :| e in events && e.path == [q[0]];
        assert Reaches(slots, e, i);
      }
    }
    if Given(slots, events, i) {
      var e :| e in events && Reaches(slots, e, i);
      assert e.path <= q && q != [] && e.path[0] == q[0];
      if |e.path| == 1 { assert e.path == [q[0]] == q[..1]; }
    }
  }

  lemma GivenByDocument(l: Laid, post: string, slots: seq<Slot>, i: nat)
    requires i < |slots|
    ensures Given(slots, DocumentEvents(l, post), i) <==> Sets(l, slots, i)
  {
    hide Shows, Given, ComesFirst, AtTop, Found;
    var events, q := DocumentEvents(l, post), slots[i].path;
    forall e | e in events ensures e.path != [] {
      FoundUnderKeys(l, [], "", post, e);
    }
    if q != [] {
      FoundAtTop(l, [], "", post, q[0], false);
      FoundAtTop(l, [], "", post, q[0], true);
      forall e | e in events && |e.path| > 1 && e.path[0] == q[0] ensures Shows(events, q[0], true) {
        FoundBelow(l, [], "", post, q[0], e);
      }
    }
    GivenIsShown(slots, events, i);
  }

  lemma SetsWhenCleared(l: Laid, slots: seq<Slot>, i: nat)
    requires i < |slots|
    ensures Sets(l, Cleared(slots), i) <==> Sets(l, slots, i)
  {}

  // For every document and all bindings: one is set exactly if the first key of its path stands where no key is
  // open, whatever becomes of the other keys.
  lemma SetExactly(l: Laid, pre: string, post: string, slots: seq<Slot>, i: nat)
    requires IsContainer(l) && WellLaid(l) && IsFiller(pre) && IsFiller(post) && i < |slots|
    ensures Rest(Cleared(slots), pre + LaidText(l) + post, [], "")[i].isSet <==> Sets(l, slots, i)
  {
    hide OwnBlock, IsFiller, Found, Given, Sets, Deliver;
    RunDocument(l, pre, post);
    SetIsGiven(Cleared(slots), DocumentEvents(l, post), i);
    GivenByDocument(l, post, Cleared(slots), i);
    SetsWhenCleared(l, slots, i);
  }

  // ---- is the value there if the binding is set?

  // A single key that no binding listed before begins with.
  predicate Tells(slots: seq<Slot>, i: nat)
    requires i < |slots|
  {
    |slots[i].path| == 1 && ComesFirst(slots, i)
  }

  lemma {:induction false} OneKey(fields: seq<LaidField>, q: Path)
    requires |q| == 1
    ensures AtField(fields, q).There? <==> HasField(fields, q[0])
  {
    if fields != [] && HasField(fields[1..], q[0]) { OneKey(fields[1..], q); }
  }

  // Inside a member of the document, `k` is a name where no key is open: objects in arrays have closed them all.
  predicate Stray(fields: seq<LaidField>, k: string) {
    fields != [] && (StraysIn(fields[0], k) || Stray(fields[1..], k))
  }

  predicate StraysIn(f: LaidField, k: string) {
    match f.value
    case Array(_, items) => ItemsAtTop(items, 0, k, false)
    case Object(_, fields) => FieldsAtTop(fields, if f.key != "" then 1 else 0, k, false)
    case _ => false
  }

  lemma {:induction false} MembersAtTop(fields: seq<LaidField>, k: string)
    ensures FieldsAtTop(fields, 0, k, false) <==> HasField(fields, k) || Stray(fields, k)
  {
    if fields != [] { MembersAtTop(fields[1..], k); }
  }

  // For a single key that comes first, `is_set` says that the value is there exactly for the documents that have the
  // key, or do not have it astray.
  lemma SetIsPresent(l: Laid, pre: string, post: string, slots: seq<Slot>, i: nat)
    requires Parsable(l) && IsFiller(pre) && IsFiller(post)
    requires i < |slots| && Tells(slots, i) && slots[i].path[0] != ""
    ensures var k := slots[i].path[0];
      (Rest(Cleared(slots), pre + LaidText(l) + post, [], "")[i].isSet <==> At(l, slots[i].path).There?)
      <==> HasField(l.fields, k) || !Stray(l.fields, k)
  {
    var k := slots[i].path[0];
    SetExactly(l, pre, post, slots, i);
    hide Rest, IsFiller, WellLaid, ComesFirst, FieldsAtTop, Stray;
    OneKey(l.fields, slots[i].path);
    MembersAtTop(l.fields, k);
    assert AtTop(l, 0, "", k, false) <==> FieldsAtTop(l.fields, 0, k, false);
    BlockAtTop(l, 0, "", k);
  }

  lemma {:induction false} BlockAtTop(l: Laid, d: nat, key: string, k: string)
    ensures AtTop(l, d, key, k, true) ==> AtTop(l, d, key, k, false)
    decreases l, 1
  {
    if l.Array? {
      ItemsBlockAtTop(l.items, d, k);
    } else if l.Object? {
      FieldsBlockAtTop(l.fields, if key != "" then d + 1 else d, k);
    }
  }

  lemma {:induction false} ItemsBlockAtTop(items: seq<LaidItem>, d: nat, k: string)
    ensures ItemsAtTop(items, d, k, true) ==> ItemsAtTop(items, d, k, false)
    decreases items, 0
  {
    if items != [] {
      BlockAtTop(items[0].value, d, "", k);
      ItemsBlockAtTop(items[1..], Less(d, Lost(items[0].value, "")), k);
    }
  }

  lemma {:induction false} FieldsBlockAtTop(fields: seq<LaidField>, d: nat, k: string)
    ensures FieldsAtTop(fields, d, k, true) ==> FieldsAtTop(fields, d, k, false)
    decreases fields, 0
  {
    if fields != [] {
      BlockAtTop(fields[0].value, d, fields[0].key, k);
      FieldsBlockAtTop(fields[1..], Less(d, Lost(fields[0].value, fields[0].key)), k);
    }
  }

  // Nothing strays that is not a name further in.
  lemma {:induction false} UnnamedIsNotStray(fields: seq<LaidField>, k: string)
    requires k != "" && forall i :: 0 <= i < |fields| ==> !Named(fields[i].value, k)
    ensures !Stray(fields, k)
  {
    if fields != [] {
      UnnamedNotIn(fields[0], k);
      assert forall i :: 0 <= i < |fields[1..]| ==> fields[1..][i] == fields[i + 1];
      UnnamedIsNotStray(fields[1..], k);
    }
  }

  lemma UnnamedNotIn(f: LaidField, k: string)
    requires k != "" && !Named(f.value, k)
    ensures !StraysIn(f, k)
  {
    if f.value.Array? {
      UnnamedItems(f.value.items, 0, k);
    } else if f.value.Object? {
      UnnamedFields(f.value.fields, if f.key != "" then 1 else 0, k);
    }
  }

  lemma {:induction false} UnnamedItems(items: seq<LaidItem>, d: nat, k: string)
    requires k != "" && !NamedItems(items, k)
    ensures !ItemsAtTop(items, d, k, false)
    decreases items, 0
  {
    if items != [] {
      UnnamedValue(items[0].value, d, "", k);
      UnnamedItems(items[1..], Less(d, Lost(items[0].value, "")), k);
    }
  }

  lemma {:induction false} UnnamedFields(fields: seq<LaidField>, d: nat, k: string)
    requires k != "" && !NamedFields(fields, k)
    ensures !FieldsAtTop(fields, d, k, false)
    decreases fields, 0
  {
    if fields != [] {
      UnnamedValue(fields[0].value, d, fields[0].key, k);
      UnnamedFields(fields[1..], Less(d, Lost(fields[0].value, fields[0].key)), k);
    }
  }

  lemma {:induction false} UnnamedValue(l: Laid, d: nat, key: string, k: string)
    requires k != key && k != "" && !Named(l, k)
    ensures !AtTop(l, d, key, k, false)
    decreases l, 1
  {
    if l.Array? {
      UnnamedItems(l.items, d, k);
    } else if l.Object? {
      UnnamedFields(l.fields, if key != "" then d + 1 else d, k);
    }
  }

  lemma OneField(f: LaidField)
    requires WellField(f, true) && f.key != "" && Keyed(f.value)
    ensures var l := Object("", [f]); Parsable(l) && Keyed(l) && HasField([f], f.key) && !HasField([f][1..], f.key)
  {
    assert [f] == [f] + [] && [f][1..] == [];
    FieldsCons(f, []);
    assert KeyedFields([f]);
  }

  lemma OnlyMemberAtTop(f: LaidField)
    requires f.key != "" && (f.value.Object? ==> f.value.fields == []) && !f.value.Array?
    ensures AtTop(Object("", [f]), 0, "", f.key, false)
    ensures AtTop(Object("", [f]), 0, "", f.key, true) <==> IsContainer(f.value)
  {
    var l, fields := Object("", [f]), [f];
    assert fields[1..] == [];
    assert FieldsAtTop(fields, 0, f.key, false);
    assert FieldsAtTop(fields, 0, f.key, true) <==> AtTop(f.value, 0, f.key, f.key, true);
    assert AtTop(l, 0, "", f.key, false) <==> FieldsAtTop(l.fields, 0, f.key, false);
    assert AtTop(l, 0, "", f.key, true) <==> FieldsAtTop(l.fields, 0, f.key, true);
  }

  // Any other binding has some document against it, without objects in arrays even: a longer path is set by the first
  // key alone, and one behind a binding that begins with its key goes without a scalar.
  lemma SetIsNotPresent(slots: seq<Slot>, i: nat) returns (l: Laid)
    requires i < |slots| && slots[i].path != [] && slots[i].path[0] != "" && !Tells(slots, i)
    requires IsBody(slots[i].path[0])
    ensures Parsable(l) && Keyed(l)
    ensures Rest(Cleared(slots), LaidText(l), [], "")[i].isSet != At(l, slots[i].path).There?
  {
    var q := slots[i].path;
    var v := if |q| > 1 then Object("", []) else Primitive("0");
    var f := LaidField(q[0], "", "", v, "");
    l := Object("", [f]);
    OneField(f);
    SetExactly(l, "", "", slots, i);
    assert "" + LaidText(l) + "" == LaidText(l);
    hide Rest, Parsable, IsFiller, AtTop;
    OnlyMemberAtTop(f);
    assert [f][1..] == [];
    assert At(l, q) == AtField([f], q) == At(v, q[1..]);
  }
}

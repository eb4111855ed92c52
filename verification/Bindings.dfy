/** Where the values that a parse finds lie, and which one reaches a path last. */
module Bindings {
  import opened PrettyText
  import opened Paths
  import opened Layouts
  import opened ParserSpec
  import opened RoundTrip

  // ---- the part of a layout at a path of keys, as they are written

  datatype Place = Nowhere | There(l: Laid)

  // Where a key is repeated the last one counts.
  function At(l: Laid, q: Path): Place
    decreases l, 1
  {
    if q == [] then There(l) else if l.Object? then AtField(l.fields, q) else Nowhere
  }

  function AtField(fields: seq<LaidField>, q: Path): Place
    requires q != []
    decreases fields, 0
  {
    if fields == [] then Nowhere
    else if HasField(fields[1..], q[0]) then AtField(fields[1..], q)
    else if fields[0].key == q[0] then At(fields[0].value, q[1..])
    else Nowhere
  }

  predicate HasField(fields: seq<LaidField>, k: string) {
    fields != [] && (fields[0].key == k || HasField(fields[1..], k))
  }

  predicate Unique(l: Laid)
    decreases l, 1
  {
    l.Object? ==> UniqueFields(l.fields)
  }

  predicate UniqueFields(fields: seq<LaidField>)
    decreases fields, 0
  {
    fields == [] ||
    (!HasField(fields[1..], fields[0].key) && Unique(fields[0].value) && UniqueFields(fields[1..]))
  }

  lemma {:induction false} ThereHasField(fields: seq<LaidField>, q: Path)
    requires q != [] && AtField(fields, q).There?
    ensures HasField(fields, q[0])
  {
    if HasField(fields[1..], q[0]) { ThereHasField(fields[1..], q); }
  }

  // A place below a place.
  lemma {:induction false} AtBelow(l: Laid, q: Path, r: Path)
    requires At(l, q).There?
    ensures At(l, q + r) == At(At(l, q).l, r)
    decreases l, 1
  {
    if q == [] {
      assert q + r == r;
    } else {
      assert q + r != [];
      AtFieldBelow(l.fields, q, r);
    }
  }

  lemma {:induction false} AtFieldBelow(fields: seq<LaidField>, q: Path, r: Path)
    requires q != [] && AtField(fields, q).There?
    ensures AtField(fields, q + r) == At(AtField(fields, q).l, r)
    decreases fields, 0
  {
    assert (q + r)[0] == q[0] && (q + r)[1..] == q[1..] + r;
    if HasField(fields[1..], q[0]) {
      AtFieldBelow(fields[1..], q, r);
    } else {
      AtBelow(fields[0].value, q[1..], r);
    }
  }

  // ---- where the found values lie

  predicate Begins(q: Path, p: Path, key: string) {
    |p| < |q| && p <= q && q[|p|] == key
  }

  lemma {:induction false} FoundBegins(l: Laid, p: Path, key: string, rest: string, e: Event)
    requires Keyed(l) && (l.Object? ==> key != "") && e in Found(l, p, key, rest)
    ensures Begins(e.path, p, key) || Begins(e.path, p, "")
    ensures l.Object? && e != OwnBlock(l, p + [key], rest) ==> |e.path| > |p| + 1 && p + [key] <= e.path
    ensures l.Array? && e != OwnBlock(l, p + [key], rest) ==> Begins(e.path, p, "")
    ensures !IsContainer(l) ==> e == ScalarEvent(p + [key], l)
    decreases l, 1
  {
    match l
    case Array(_, items) =>
      if e != OwnBlock(l, p + [key], rest) { ItemsBeginAt(items, p, "]" + rest, e); }
    case Object(_, fields) =>
      if e != OwnBlock(l, p + [key], rest) {
        FieldsBeginAt(fields, p + [key], "}" + rest, e);
        assert p + [key] <= e.path;
      }
    case _ =>
  }

  lemma {:induction false} ItemsBeginAt(items: seq<LaidItem>, p: Path, rest: string, e: Event)
    requires NoObjects(items) && e in FoundItems(items, p, rest)
    ensures Begins(e.path, p, "")
    decreases items, 0
  {
    var first := items[0].tail + (ItemsText(items[1..]) + rest);
    if e in Found(items[0].value, p, "", first) {
      FoundBegins(items[0].value, p, "", first, e);
    } else {
      KeyedStays(items[0].value, p, "");
      ItemsBeginAt(items[1..], p, rest, e);
    }
  }

  lemma {:induction false} FieldsBeginAt(fields: seq<LaidField>, p: Path, rest: string, e: Event)
    requires KeyedFields(fields) && e in FoundFields(fields, p, rest)
    ensures |p| < |e.path| && p <= e.path
    decreases fields, 0
  {
    var first := fields[0].tail + (LaidFieldsText(fields[1..]) + rest);
    if e in Found(fields[0].value, p, fields[0].key, first) {
      FoundBegins(fields[0].value, p, fields[0].key, first, e);
    } else {
      KeyedStays(fields[0].value, p, fields[0].key);
      FieldsBeginAt(fields[1..], p, rest, e);
    }
  }

  // None of the events is at or above `q`.
  predicate Aside(events: seq<Event>, q: Path) {
    forall e :: e in events ==> !(e.path <= q)
  }

  lemma AsideOther(l: Laid, p: Path, key: string, rest: string, q: Path)
    requires Keyed(l) && (l.Object? ==> key != "") && |p| < |q| && q[|p|] != "" && q[|p|] != key
    ensures Aside(Found(l, p, key, rest), q)
  {
    forall e | e in Found(l, p, key, rest) ensures !(e.path <= q) {
      FoundBegins(l, p, key, rest, e);
    }
  }

  // Fields under other keys leave a binding alone.
  lemma {:induction false} OtherFields(fields: seq<LaidField>, p: Path, rest: string, q: Path)
    requires KeyedFields(fields) && |p| < |q| && q[|p|] != "" && !HasField(fields, q[|p|])
    ensures Aside(FoundFields(fields, p, rest), q)
    decreases fields
  {
    if fields != [] {
      AsideOther(fields[0].value, p, fields[0].key, fields[0].tail + (LaidFieldsText(fields[1..]) + rest), q);
      KeyedStays(fields[0].value, p, fields[0].key);
      OtherFields(fields[1..], p, rest, q);
    }
  }

  // ---- what reaches a path, and what reaches it last

  predicate IsBlock(e: Event) {
    e.block && !e.isString && !e.isNull && e.raw != "" && IsOpen(e.raw[0])
  }

  // What comes to `q` out of these events is enclosing blocks only.
  predicate OnlyBlocks(events: seq<Event>, q: Path) {
    forall e :: e in events && e.path <= q ==> IsBlock(e)
  }

  // The event of the value `l` at path `q`; the text of a block is the value's own exactly if that is captured.
  predicate IsEventOf(e: Event, l: Laid, q: Path) {
    e.path == q &&
    (if IsContainer(l) then IsBlock(e) && (e.raw == LaidText(l) <==> Captured(l))
     else e == ScalarEvent(q, l))
  }

  lemma OwnBlockIsBlock(l: Laid, q: Path, rest: string)
    requires IsContainer(l)
    ensures IsBlock(OwnBlock(l, q, rest)) && OwnBlock(l, q, rest).path == q
  {
    Bracketed(l);
  }

  lemma OwnBlockIs(l: Laid, q: Path, rest: string)
    requires IsContainer(l) && rest != ""
    ensures IsEventOf(OwnBlock(l, q, rest), l, q)
  {
    OwnBlockIsBlock(l, q, rest);
    BlockIsText(l, rest);
    assert (LaidText(l) + rest)[..|LaidText(l)|] == LaidText(l);
  }

  // The value at `q` is found, and nothing found after it gets to `q`; what gets there before it is enclosing
  // blocks, unless keys are repeated.
  lemma {:induction false} AlongFound(l: Laid, p: Path, key: string, rest: string, q: Path)
    returns (a: seq<Event>, e: Event, b: seq<Event>)
    requires Begins(q, p, key) && key != "" && rest != "" && Keyed(l) && At(l, q[|p| + 1..]).There?
    ensures Found(l, p, key, rest) == a + [e] + b && Aside(b, q)
    ensures IsEventOf(e, At(l, q[|p| + 1..]).l, q)
    ensures Unique(l) ==> OnlyBlocks(a, q)
    decreases l, 1
  {
    var own, below := p + [key], q[|p| + 1..];
    assert own <= q;
    if below == [] {
      assert own == q;
      a := [];
      if !IsContainer(l) {
        e, b := ScalarEvent(q, l), [];
      } else {
        e := OwnBlock(l, q, rest);
        OwnBlockIs(l, q, rest);
        b := if l.Array? then FoundItems(l.items, p, "]" + rest) else FoundFields(l.fields, own, "}" + rest);
        forall x | x in b ensures !(x.path <= q) {
          if l.Array? { ItemsBeginAt(l.items, p, "]" + rest, x); } else { FieldsBeginAt(l.fields, own, "}" + rest, x); }
        }
      }
      assert a + [e] + b == [e] + b;
    } else {
      var block := OwnBlock(l, own, rest);
      OwnBlockIsBlock(l, own, rest);
      assert q[|own|..] == below;
      a, e, b := AlongFields(l.fields, own, "}" + rest, q);
      EventsBefore([block], a, e, b);
      a := [block] + a;
    }
  }

  lemma {:induction false} AlongFields(fields: seq<LaidField>, p: Path, rest: string, q: Path)
    returns (a: seq<Event>, e: Event, b: seq<Event>)
    requires |p| < |q| && p <= q && rest != "" && KeyedFields(fields) && AtField(fields, q[|p|..]).There?
    ensures FoundFields(fields, p, rest) == a + [e] + b && Aside(b, q)
    ensures IsEventOf(e, AtField(fields, q[|p|..]).l, q)
    ensures UniqueFields(fields) ==> OnlyBlocks(a, q)
    ensures q[|p|] != ""
    decreases fields, 0
  {
    hide IsEventOf;
    var f, more := fields[0], fields[1..];
    var first := f.tail + (LaidFieldsText(more) + rest);
    var here, there := Found(f.value, p, f.key, first), FoundFields(more, p, rest);
    KeyedStays(f.value, p, f.key);
    assert q[|p|..][0] == q[|p|] && q[|p|..][1..] == q[|p| + 1..];
    if HasField(more, q[|p|]) {
      a, e, b := AlongFields(more, p, rest, q);
      EventsBefore(here, a, e, b);
      if UniqueFields(fields) {
        SameFieldOnce(more, f.key, q[|p|]);
        AsideOther(f.value, p, f.key, first, q);
      }
      a := here + a;
    } else {
      a, e, b := AlongFound(f.value, p, f.key, first, q);
      OtherFields(more, p, rest, q);
      EventsBehind(a, e, b, there);
      b := b + there;
    }
  }

  lemma EventsBefore(here: seq<Event>, a: seq<Event>, e: Event, b: seq<Event>)
    ensures here + (a + [e] + b) == (here + a) + [e] + b
  {}

  lemma EventsBehind(a: seq<Event>, e: Event, b: seq<Event>, there: seq<Event>)
    ensures (a + [e] + b) + there == a + [e] + (b + there)
  {}

  lemma SameFieldOnce(fields: seq<LaidField>, k: string, other: string)
    requires !HasField(fields, k) && HasField(fields, other)
    ensures k != other
  {}

  // ---- documents with objects that have no key

  // Some object in the value has a member of this name.
  predicate Named(l: Laid, k: string)
    decreases l, 1
  {
    match l
    case Array(_, items) => NamedItems(items, k)
    case Object(_, fields) => NamedFields(fields, k)
    case _ => false
  }

  predicate NamedItems(items: seq<LaidItem>, k: string)
    decreases items, 0
  {
    items != [] && (Named(items[0].value, k) || NamedItems(items[1..], k))
  }

  predicate NamedFields(fields: seq<LaidField>, k: string)
    decreases fields, 0
  {
    fields != [] && (fields[0].key == k || Named(fields[0].value, k) || NamedFields(fields[1..], k))
  }

  // What a member of the document finds is not mistaken for something along `q`.
  predicate Steady(f: LaidField, q: Path)
    requires q != []
  {
    || (f.key != "" && Keyed(f.value))
    || (!Named(f.value, q[0]) && (f.key == q[0] ==> |q| == 1))
  }

  predicate AllSteady(fields: seq<LaidField>, q: Path)
    requires q != []
  {
    fields == [] || (Steady(fields[0], q) && AllSteady(fields[1..], q))
  }

  // In a document without such objects all members are steady.
  lemma {:induction false} KeyedIsSteady(fields: seq<LaidField>, q: Path)
    requires q != [] && KeyedFields(fields)
    ensures AllSteady(fields, q) && (HasField(fields, q[0]) ==> q[0] != "")
  {
    if fields != [] { KeyedIsSteady(fields[1..], q); }
  }

  // Neither at `[k]` nor, where the open keys do not begin with `k`, below it.
  predicate Elsewhere(e: Event, p: Path, k: string) {
    e.path != [] && e.path != [k] && (p == [] || p[0] != k ==> e.path[0] != k)
  }

  lemma {:induction false} NotNamed(l: Laid, p: Path, key: string, rest: string, k: string, e: Event)
    requires !Named(l, k) && k != "" && (p == [] ==> key != k) && e in Found(l, p, key, rest)
    ensures Elsewhere(e, p, k)
    decreases l, 1
  {
    hide OwnBlock;
    var own := p + [key];
    assert own[0] == if p == [] then key else p[0];
    if !IsContainer(l) {
      assert Found(l, p, key, rest) == [ScalarEvent(own, l)];
    } else if e == OwnBlock(l, own, rest) {
      OwnBlockIsBlock(l, own, rest);
      assert e.path == own;
    } else if l.Array? {
      NotNamedItems(l.items, p, "]" + rest, k, e);
    } else {
      NotNamedFields(l.fields, Held(p, key), "}" + rest, k, e);
    }
  }

  lemma {:induction false} NotNamedItems(items: seq<LaidItem>, p: Path, rest: string, k: string, e: Event)
    requires !NamedItems(items, k) && k != "" && e in FoundItems(items, p, rest)
    ensures Elsewhere(e, p, k)
    decreases items, 0
  {
    var first := items[0].tail + (ItemsText(items[1..]) + rest);
    if e in Found(items[0].value, p, "", first) {
      NotNamed(items[0].value, p, "", first, k, e);
    } else {
      BehindIs(items[0].value, p, "");
      NotNamedItems(items[1..], Behind(items[0].value, p, ""), rest, k, e);
    }
  }

  lemma {:induction false} NotNamedFields(fields: seq<LaidField>, p: Path, rest: string, k: string, e: Event)
    requires !NamedFields(fields, k) && k != "" && e in FoundFields(fields, p, rest)
    ensures Elsewhere(e, p, k)
    decreases fields, 0
  {
    var first := fields[0].tail + (LaidFieldsText(fields[1..]) + rest);
    if e in Found(fields[0].value, p, fields[0].key, first) {
      NotNamed(fields[0].value, p, fields[0].key, first, k, e);
    } else {
      BehindIs(fields[0].value, p, fields[0].key);
      NotNamedFields(fields[1..], Behind(fields[0].value, p, fields[0].key), rest, k, e);
    }
  }

  // At the top the parser is always back: there are no keys to lose.
  lemma TopStays(l: Laid, key: string)
    ensures Behind(l, [], key) == []
  {
    BehindIs(l, [], key);
  }

  // A steady member under another key leaves a binding alone.
  lemma SteadyOther(f: LaidField, rest: string, q: Path)
    requires q != [] && q[0] != "" && Steady(f, q) && f.key != q[0]
    ensures Aside(Found(f.value, [], f.key, rest), q)
  {
    if f.key != "" && Keyed(f.value) {
      AsideOther(f.value, [], f.key, rest, q);
    } else {
      forall e | e in Found(f.value, [], f.key, rest) ensures !(e.path <= q) {
        NotNamed(f.value, [], f.key, rest, q[0], e);
      }
    }
  }

  lemma {:induction false} SteadyOthers(fields: seq<LaidField>, rest: string, q: Path)
    requires q != [] && q[0] != "" && AllSteady(fields, q) && !HasField(fields, q[0])
    ensures Aside(FoundFields(fields, [], rest), q)
    decreases |fields|
  {
    if fields != [] {
      SteadyOther(fields[0], fields[0].tail + (LaidFieldsText(fields[1..]) + rest), q);
      TopStays(fields[0].value, fields[0].key);
      SteadyOthers(fields[1..], rest, q);
    }
  }

  // A steady member's own value is found, and nothing found in it is mistaken for it.
  lemma SteadyOwn(f: LaidField, rest: string, q: Path) returns (a: seq<Event>, e: Event, b: seq<Event>)
    requires q != [] && q[0] == f.key != "" && rest != "" && Steady(f, q) && At(f.value, q[1..]).There?
    ensures Found(f.value, [], f.key, rest) == a + [e] + b && Aside(b, q)
    ensures IsEventOf(e, At(f.value, q[1..]).l, q)
    ensures Unique(f.value) ==> OnlyBlocks(a, q)
  {
    hide OwnBlock, IsEventOf, Elsewhere;
    if Keyed(f.value) {
      a, e, b := AlongFound(f.value, [], f.key, rest, q);
    } else {
      var l, found := f.value, Found(f.value, [], f.key, rest);
      assert q == [f.key] == [] + [f.key];
      OwnBlockIs(l, q, rest);
      a, e, b := [], OwnBlock(l, q, rest), found[1..];
      forall x | x in b ensures !(x.path <= q) {
        if l.Array? {
          NotNamedItems(l.items, [], "]" + rest, f.key, x);
        } else {
          NotNamedFields(l.fields, Held([], f.key), "}" + rest, f.key, x);
        }
      }
    }
  }

  lemma {:induction false} AlongMembers(fields: seq<LaidField>, rest: string, q: Path)
    returns (a: seq<Event>, e: Event, b: seq<Event>)
    requires q != [] && q[0] != "" && rest != "" && AllSteady(fields, q) && AtField(fields, q).There?
    ensures FoundFields(fields, [], rest) == a + [e] + b && Aside(b, q)
    ensures IsEventOf(e, AtField(fields, q).l, q)
    ensures UniqueFields(fields) ==> OnlyBlocks(a, q)
    decreases |fields|
  {
    hide IsEventOf, Steady;
    var f, more := fields[0], fields[1..];
    var first := f.tail + (LaidFieldsText(more) + rest);
    var here, there := Found(f.value, [], f.key, first), FoundFields(more, [], rest);
    TopStays(f.value, f.key);
    if HasField(more, q[0]) {
      a, e, b := AlongMembers(more, rest, q);
      EventsBefore(here, a, e, b);
      if UniqueFields(fields) {
        SameFieldOnce(more, f.key, q[0]);
        SteadyOther(f, first, q);
      }
      a := here + a;
    } else {
      a, e, b := SteadyOwn(f, first, q);
      SteadyOthers(more, rest, q);
      EventsBehind(a, e, b, there);
      b := b + there;
    }
  }
}

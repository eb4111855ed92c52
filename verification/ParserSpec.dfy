/** What one parse does (parser.cpp:286-475), as a function of the text: the values it finds with their paths,
    and what each binding makes of them. */
module ParserSpec {
  import opened Escaping
  import opened Decoding
  import opened Integers
  import opened PrettyText
  import opened Paths
  import opened Scanning

  // A value found at a path: a scalar, or the whole text of an object or array that opens there.
  datatype Event = Event(path: Path, raw: string, isString: bool, isNull: bool, block: bool)

  function BlockEvent(path: Path, t: string): Event
    requires t != "" && IsOpen(t[0])
  {
    Event(path, t[..BlockLength(t)], false, false, true)
  }

  function StringEvent(path: Path, body: string): Event {
    Event(path, body, true, false, false)
  }

  function PrimitiveEvent(path: Path, raw: string): Event {
    Event(path, raw, false, raw == "null", false)
  }

  function Pop(path: Path): Path {
    if path == [] then [] else path[..|path| - 1]
  }

  function AtColon(s: string): bool {
    s != "" && s[0] == ':'
  }

  // The body of the string token at the head of `t`, and what follows the token and the gap behind it.
  function StringBody(t: string): string
    requires t != ""
  {
    t[1..][..BodyLength(t[1..])]
  }

  function AfterString(t: string): (u: string)
    requires t != ""
    ensures |u| < |t|
  {
    Skipped(t[QuoteLength(t)..])
  }

  // The parser's loop: `path` is the stack of open keys, `key` the key read last, empty for none. The stack is
  // unbounded here; the original keeps only as many entries as its deepest binding needs.
  function Run(s: string, path: Path, key: string): seq<Event>
    decreases |s|
  {
    var t := Skipped(s);
    if t == "" then []
    else RunToken(t, path, key)
  }

  function RunToken(t: string, path: Path, key: string): seq<Event>
    requires t != ""
    decreases |t|, 0
  {
    var c, next := t[0], t[1..];
    if c == '{' then
      [BlockEvent(path + [key], t)] + (if key != "" then Run(next, path + [key], "") else Run(next, path, ""))
    else if c == '[' then [BlockEvent(path + [key], t)] + Run(next, path, "")
    else if c == '}' then Run(next, Pop(path), key)
    else if c == ',' || c == ':' || c == ']' then Run(next, path, key)
    else if c == '"' then
      var body, rest := StringBody(t), AfterString(t);
      if AtColon(rest) then Run(rest[1..], path, body)
      else [StringEvent(path + [key], body)] + Run(rest, path, "")
    else
      var n := PrimitiveLength(t);
      if n == 0 then Run(next, path, key)  // whitespace, which does not begin a token
      else [PrimitiveEvent(path + [key], t[..n])] + Run(t[n..], path, "")
  }

  // ---- bindings

  datatype Target =
    | BoolTarget(b: bool)
    | IntTarget(lo: int, hi: int, n: int)
    | ViewTarget(view: string)
    | StringTarget(s: string)
    | Dynamic(raw: string, isString: bool, iter: string, started: bool)

  function Coerce(t: Target, raw: string, isString: bool, isNull: bool): Target {
    match t
    case BoolTarget(_) => BoolTarget(!isNull && (raw == "true" || raw == "1"))
    case IntTarget(lo, hi, n) => IntTarget(lo, hi, if isNull then 0 else FromChars(raw, lo, hi, n))
    case ViewTarget(_) => ViewTarget(if isNull then "" else raw)
    case StringTarget(_) => StringTarget(if isNull then "" else Decode(raw))
    case Dynamic(_, _, _, _) => Dynamic(raw, isString, raw, false)
  }

  // What a binding of each kind makes of a value: null zeroes it.
  lemma CoercedKinds(t: Target, raw: string, isString: bool)
    ensures t.BoolTarget? ==>
      && Coerce(t, raw, isString, true) == BoolTarget(false)
      && Coerce(t, raw, isString, false) == BoolTarget(raw == ['t', 'r', 'u', 'e'] || raw == ['1'])
    ensures t.IntTarget? ==> Coerce(t, raw, isString, true) == t.(n := 0)
    ensures t.ViewTarget? ==>
      Coerce(t, raw, isString, true) == ViewTarget("") && Coerce(t, raw, isString, false) == ViewTarget(raw)
    ensures t.StringTarget? ==>
      Coerce(t, raw, isString, true) == StringTarget("") && Coerce(t, raw, isString, false) == StringTarget(Decode(raw))
    ensures t.Dynamic? ==> forall isNull :: Coerce(t, raw, isString, isNull) == Dynamic(raw, isString, raw, false)
  {}

  // An integer binding given text that begins with a number, zeros and all, and does not go on with a digit: the number
  // if it is in range, whatever follows; if not, it keeps what it had. So it does for text that begins otherwise.
  lemma IntegerRead(lo: int, hi: int, was: int, n: int, z: nat, rest: string)
    requires rest == "" || !IsDigit(rest[0])
    ensures Coerce(IntTarget(lo, hi, was), NumberText(n, z) + rest, false, false)
      == IntTarget(lo, hi, if lo <= n <= hi then n else was)
  {
    hide FromChars;
    FromCharsReadsPrefix(n, z, rest, lo, hi, was);
  }

  lemma IntegerKept(lo: int, hi: int, was: int, raw: string)
    requires raw == "" || (!IsDigit(raw[0]) && (raw[0] == '-' ==> |raw| == 1 || !IsDigit(raw[1])))
    ensures Coerce(IntTarget(lo, hi, was), raw, false, false) == IntTarget(lo, hi, was)
  {
    hide FromChars;
    FromCharsNoNumber(raw, lo, hi, was);
  }

  datatype Slot = Slot(path: Path, isSet: bool, isNull: bool, target: Target)

  function Assigned(s: Slot, e: Event): Slot {
    Slot(s.path, true, e.isNull, Coerce(s.target, e.raw, e.isString, e.isNull))
  }

  predicate Matches(s: Slot, e: Event) {
    MatchesParent(s.path, e.path)
  }

  // A block goes to every binding at or below its path, a scalar to the first such binding only.
  function Deliver(slots: seq<Slot>, e: Event): (r: seq<Slot>)
    ensures |r| == |slots|
  {
    if slots == [] then []
    else if !Matches(slots[0], e) then [slots[0]] + Deliver(slots[1..], e)
    else [Assigned(slots[0], e)] + (if e.block then Deliver(slots[1..], e) else slots[1..])
  }

  function DeliverAll(slots: seq<Slot>, events: seq<Event>): (r: seq<Slot>)
    ensures |r| == |slots|
    decreases |events|
  {
    if events == [] then slots else DeliverAll(Deliver(slots, events[0]), events[1..])
  }

  function Cleared(slots: seq<Slot>): (r: seq<Slot>)
    ensures |r| == |slots|
    ensures forall i :: 0 <= i < |r| ==> r[i] == slots[i].(isSet := false, isNull := false)
  {
    if slots == [] then [] else [slots[0].(isSet := false, isNull := false)] + Cleared(slots[1..])
  }

  lemma {:induction false} DeliverNone(slots: seq<Slot>, e: Event)
    requires forall i :: 0 <= i < |slots| ==> !Matches(slots[i], e)
    ensures Deliver(slots, e) == slots
  {
    if slots != [] { DeliverNone(slots[1..], e); }
  }

  lemma {:induction false} DeliverBlock(slots: seq<Slot>, e: Event)
    requires e.block
    ensures forall i :: 0 <= i < |slots| ==>
      Deliver(slots, e)[i] == if Matches(slots[i], e) then Assigned(slots[i], e) else slots[i]
  {
    if slots != [] { DeliverBlock(slots[1..], e); }
  }

  // The first match is at `k`.
  lemma {:induction false} DeliverScalar(slots: seq<Slot>, e: Event, k: nat)
    requires !e.block && k < |slots| && Matches(slots[k], e) && forall i :: 0 <= i < k ==> !Matches(slots[i], e)
    ensures Deliver(slots, e) == slots[k := Assigned(slots[k], e)]
  {
    if k > 0 { DeliverScalar(slots[1..], e, k - 1); }
  }

  lemma {:induction false} DeliverAllSplit(slots: seq<Slot>, a: seq<Event>, b: seq<Event>)
    ensures DeliverAll(slots, a + b) == DeliverAll(DeliverAll(slots, a), b)
    decreases |a|
  {
    if a == [] {
      assert a + b == b;
    } else {
      assert (a + b)[0] == a[0] && (a + b)[1..] == a[1..] + b;
      DeliverAllSplit(Deliver(slots, a[0]), a[1..], b);
    }
  }

  // ---- what is still to come, token by token

  function Rest(slots: seq<Slot>, s: string, path: Path, key: string): (r: seq<Slot>)
    ensures |r| == |slots|
  {
    DeliverAll(slots, Run(s, path, key))
  }

  lemma DeliverFirst(slots: seq<Slot>, e: Event, events: seq<Event>)
    ensures DeliverAll(slots, [e] + events) == DeliverAll(Deliver(slots, e), events)
  {
    assert ([e] + events)[1..] == events;
  }

  lemma RestSkips(slots: seq<Slot>, s: string, path: Path, key: string)
    ensures Rest(slots, s, path, key) == Rest(slots, Skipped(s), path, key)
  {
    SkippedTwice(s);
  }

  lemma RestEnds(slots: seq<Slot>, path: Path, key: string)
    ensures Rest(slots, "", path, key) == slots
  {}

  // The open keys behind an opening bracket.
  function Inside(t: string, path: Path, key: string): Path
    requires t != ""
  {
    if t[0] == '{' && key != "" then path + [key] else path
  }

  lemma RunBlock(t: string, path: Path, key: string)
    requires t != "" && IsOpen(t[0])
    ensures Run(t, path, key) == [BlockEvent(path + [key], t)] + Run(t[1..], Inside(t, path, key), "")
  {
    hide Skipped, BlockEvent, Run;
    RunIsToken(t, path, key);
    assert RunToken(t, path, key) == [BlockEvent(path + [key], t)] + Run(t[1..], Inside(t, path, key), "");
  }

  lemma RunSkipped(t: string, path: Path, key: string)
    requires t != "" && t[0] in {'}', ']', ',', ':'}
    ensures Run(t, path, key) == Run(t[1..], if t[0] == '}' then Pop(path) else path, key)
  {
    hide Skipped, Run;
    RunIsToken(t, path, key);
    assert RunToken(t, path, key) == Run(t[1..], if t[0] == '}' then Pop(path) else path, key);
  }

  lemma RunPrimitive(t: string, path: Path, key: string)
    requires BeginsPrimitive(t) && Skipped(t) == t
    ensures PrimitiveLength(t) > 0
    ensures Run(t, path, key)
      == [PrimitiveEvent(path + [key], t[..PrimitiveLength(t)])] + Run(t[PrimitiveLength(t)..], path, "")
  {
    hide Skipped, PrimitiveEvent, Run;
    RunIsToken(t, path, key);
    assert RunToken(t, path, key)
      == [PrimitiveEvent(path + [key], t[..PrimitiveLength(t)])] + Run(t[PrimitiveLength(t)..], path, "");
  }

  lemma RestBlock(slots: seq<Slot>, t: string, path: Path, key: string)
    requires t != "" && IsOpen(t[0])
    ensures Rest(slots, t, path, key)
      == Rest(Deliver(slots, BlockEvent(path + [key], t)), t[1..], Inside(t, path, key), "")
  {
    hide Run, BlockEvent, Inside;
    RunBlock(t, path, key);
    DeliverFirst(slots, BlockEvent(path + [key], t), Run(t[1..], Inside(t, path, key), ""));
  }

  lemma RestSkipped(slots: seq<Slot>, t: string, path: Path, key: string)
    requires t != "" && t[0] in {'}', ']', ',', ':'}
    ensures Rest(slots, t, path, key) == Rest(slots, t[1..], if t[0] == '}' then Pop(path) else path, key)
  {
    hide Run;
    RunSkipped(t, path, key);
  }

  lemma RestString(slots: seq<Slot>, t: string, path: Path, key: string)
    requires t != "" && t[0] == '"'
    ensures var body, rest := StringBody(t), AfterString(t);
      Rest(slots, t, path, key) ==
        if AtColon(rest) then Rest(slots, rest[1..], path, body)
        else Rest(Deliver(slots, StringEvent(path + [key], body)), rest, path, "")
  {
    RunString(t, path, key);
    DeliverFirst(slots, StringEvent(path + [key], StringBody(t)), Run(AfterString(t), path, ""));
  }

  lemma RunString(t: string, path: Path, key: string)
    requires t != "" && t[0] == '"'
    ensures Run(t, path, key) ==
      if AtColon(AfterString(t)) then Run(AfterString(t)[1..], path, StringBody(t))
      else [StringEvent(path + [key], StringBody(t))] + Run(AfterString(t), path, "")
  {
    hide StringBody, AfterString, Skipped, BlockEvent, StringEvent, PrimitiveEvent;
    RunIsToken(t, path, key);
  }

  // A token that is none of the structural characters nor a string: at least one character of a primitive.
  predicate BeginsPrimitive(t: string) {
    t != "" && !IsPrimitiveDelim(t[0]) && t[0] != ':' && t[0] != '"'
  }

  lemma RestPrimitive(slots: seq<Slot>, t: string, path: Path, key: string)
    requires BeginsPrimitive(t) && Skipped(t) == t
    ensures PrimitiveLength(t) > 0
    ensures Rest(slots, t, path, key)
      == Rest(Deliver(slots, PrimitiveEvent(path + [key], t[..PrimitiveLength(t)])), t[PrimitiveLength(t)..], path, "")
  {
    hide Run, PrimitiveEvent;
    RunPrimitive(t, path, key);
    DeliverFirst(slots, PrimitiveEvent(path + [key], t[..PrimitiveLength(t)]), Run(t[PrimitiveLength(t)..], path, ""));
  }

  lemma RunIsToken(t: string, path: Path, key: string)
    requires t != "" && (Skipped(t) == t || (!IsSpace(t[0]) && t[0] != '/'))
    ensures Run(t, path, key) == RunToken(t, path, key)
  {
    if t[0] != '/' && !IsSpace(t[0]) { SkippedToken(t); }
  }

  lemma SkippedToken(t: string)
    requires t != "" && !IsSpace(t[0]) && t[0] != '/'
    ensures Skipped(t) == t
  {}

  lemma {:induction false} SkippedTwice(s: string)
    ensures Skipped(Skipped(s)) == Skipped(s) && (Skipped(s) != "" ==> !IsSpace(Skipped(s)[0]))
    decreases |s|
  {
    SkippedTurn(s);
    if SkipOne(s) > 0 { SkippedTwice(s[SkipOne(s)..]); }
  }
}

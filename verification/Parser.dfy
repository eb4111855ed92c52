/** `parse_json_nodes` (parser.cpp:286-475), its bindings (parser.hpp) and the type coercions. */
module Parsers {
  import opened Escaping
  import opened Decoding
  import opened PrettyText
  import opened Paths
  import opened Scanning
  import opened ParserSpec

  class ParseNode {
    const path: Path
    var isSet: bool
    var isNull: bool
    var target: Target

    constructor (path: Path, target: Target)
      ensures State() == Slot(path, false, false, target)
    {
      this.path, this.target, isSet, isNull := path, target, false, false;
    }

    ghost function State(): Slot
      reads this
    {
      Slot(path, isSet, isNull, target)
    }

    method Reset()
      modifies this
      ensures State() == old(State()).(isSet := false, isNull := false)
    {
      isSet, isNull := false, false;
    }

    method Assign(raw: string, isString: bool, isNull: bool)
      modifies this
      ensures State() == Slot(path, true, isNull, Coerce(old(target), raw, isString, isNull))
    {
      isSet, this.isNull := true, isNull;
      if target.StringTarget? && !isNull {
        var s := CoerceString(raw);
        target := StringTarget(s);
      } else {
        target := Coerce(target, raw, isString, isNull);
      }
    }
  }

  // `coerce_value` into a std::string: resized to the raw length, decoded in place, cut to what was decoded.
  method CoerceString(raw: string) returns (s: string)
    ensures s == Decode(raw)
  {
    var out := new char[|raw|](i => '\0');
    var n := DecodeJsonString(raw, out);
    DecodeNeverGrows(raw);
    DecodeIntoEnough(raw, |raw|);
    s := out[..n];
  }

  ghost function States(nodes: seq<ParseNode>): (slots: seq<Slot>)
    reads nodes
    ensures |slots| == |nodes| && forall i :: 0 <= i < |nodes| ==> slots[i] == nodes[i].State()
  {
    seq(|nodes|, i requires 0 <= i < |nodes| reads nodes => nodes[i].State())
  }

  ghost predicate Distinct(nodes: seq<ParseNode>) {
    forall i, j :: 0 <= i < j < |nodes| ==> nodes[i] != nodes[j]
  }

  // The text from a position that may have run past the end.
  function From(json: string, i: nat): string {
    if i <= |json| then json[i..] else ""
  }

  // ---- skipping

  method SkipWsAndComments(json: string, at: nat) returns (i: nat)
    requires at <= |json|
    ensures at <= i && From(json, i) == Skipped(json[at..])
  {
    hide Skipped, LineLength, BlockCommentLength, SkipLength;
    i := at;
    while i < |json|
      invariant at <= i && Skipped(From(json, i)) == Skipped(json[at..])
      decreases |json| - i
    {
      ghost var s := json[i..];
      SkippedTurn(s);
      if |s| > 1 { assert s[2..] == json[i + 2..]; }
      assert s[SkipOne(s)..] == json[i + SkipOne(s)..];
      if IsSpace(json[i]) {
        i := i + 1;
      } else if json[i] == '/' && i + 1 < |json| {
        if json[i + 1] == '/' {
          i := SkipLine(json, i + 2);
        } else if json[i + 1] == '*' {
          i := SkipBlockComment(json, i + 2);
        } else {
          break;
        }
      } else {
        break;
      }
    }
    SkippedTurn(From(json, i));
  }

  method SkipLine(json: string, at: nat) returns (i: nat)
    requires at <= |json|
    ensures i == at + LineLength(json[at..])
  {
    i := at;
    while i < |json| && json[i] != '\n'
      invariant at <= i <= |json| && i + LineLength(json[i..]) == at + LineLength(json[at..])
    {
      assert json[i..][1..] == json[i + 1..];
      i := i + 1;
    }
  }

  // Without a closing `*/` this ends past the text.
  method SkipBlockComment(json: string, at: nat) returns (i: nat)
    requires at <= |json|
    ensures at <= i && From(json, i) == json[at + BlockCommentLength(json[at..])..]
  {
    i := at;
    while i + 1 < |json| && !(json[i] == '*' && json[i + 1] == '/')
      invariant at <= i <= |json|
      invariant i + BlockCommentLength(json[i..]) == at + BlockCommentLength(json[at..])
    {
      assert json[i..][1..] == json[i + 1..];
      i := i + 1;
    }
    i := i + 2;
  }

  // ---- bindings along the current path

  // The stack holds the open keys, as many as it has room for.
  ghost predicate Holds(stack: array<string>, path: Path)
    reads stack
  {
    forall j :: 0 <= j < |path| && j < stack.Length ==> stack[j] == path[j]
  }

  ghost predicate Bound(nodes: seq<ParseNode>, depth: nat) {
    Distinct(nodes) && forall i :: 0 <= i < |nodes| ==> |nodes[i].path| <= depth
  }

  lemma SameStates(slots: seq<Slot>, other: seq<Slot>)
    requires |slots| == |other| && forall i :: 0 <= i < |slots| ==> slots[i] == other[i]
    ensures slots == other
  {}

  // Beyond the stack's depth no binding can match.
  lemma TooDeep(slots: seq<Slot>, e: Event, depth: nat)
    requires |e.path| > depth && forall i :: 0 <= i < |slots| ==> |slots[i].path| <= depth
    ensures Deliver(slots, e) == slots
  {
    DeliverNone(slots, e);
  }

  method NeedsCapture(nodes: seq<ParseNode>, current: Path) returns (needed: bool)
    ensures needed == exists j :: 0 <= j < |nodes| && MatchesParent(nodes[j].path, current)
  {
    needed := false;
    for k := 0 to |nodes|
      invariant needed == exists j :: 0 <= j < k && MatchesParent(nodes[j].path, current)
    {
      if MatchesParent(nodes[k].path, current) { needed := true; }
    }
  }

  method CaptureStructuralValue(json: string, i: nat, depth: nat, key: string, nodes: seq<ParseNode>,
                                stack: array<string>, ghost path: Path)
    requires i < |json| && IsOpen(json[i]) && |path| == depth
    requires Bound(nodes, stack.Length) && Holds(stack, path)
    modifies nodes, stack
    ensures Holds(stack, path)
    ensures States(nodes) == Deliver(old(States(nodes)), BlockEvent(path + [key], json[i..]))
  {
    hide BlockEvent;
    ghost var e := BlockEvent(path + [key], json[i..]);
    ghost var slots := States(nodes);
    if depth >= stack.Length {
      BlockEventIs(path + [key], json, i);
      TooDeep(slots, e, stack.Length);
      return;
    }
    stack[depth] := key;
    var current := stack[..depth + 1];
    assert current == path + [key];
    assert States(nodes) == slots;
    CaptureFor(json, i, nodes, current);
  }

  // The look-ahead over the whole block, if any binding wants it.
  method CaptureFor(json: string, i: nat, nodes: seq<ParseNode>, current: Path)
    requires i < |json| && IsOpen(json[i]) && Distinct(nodes)
    modifies nodes
    ensures States(nodes) == Deliver(old(States(nodes)), BlockEvent(current, json[i..]))
  {
    hide BlockEvent, BlockLength;
    ghost var e := BlockEvent(current, json[i..]);
    ghost var slots := States(nodes);
    BlockEventIs(current, json, i);
    var needed := NeedsCapture(nodes, current);
    if !needed {
      forall j | 0 <= j < |slots| ensures !Matches(slots[j], e) { assert slots[j].path == nodes[j].path; }
      DeliverNone(slots, e);
      return;
    }
    var end := CaptureEnd(json, i);
    var block := json[i..if end <= |json| then end else |json|];
    AssignBlock(nodes, current, block, e);
  }

  lemma BlockEventIs(path: Path, json: string, i: nat)
    requires i < |json| && IsOpen(json[i])
    ensures BlockEvent(path, json[i..])
      == Event(path, json[i..i + BlockLength(json[i..])], false, false, true)
  {}

  method AssignBlock(nodes: seq<ParseNode>, current: Path, block: string, ghost e: Event)
    requires Distinct(nodes) && e == Event(current, block, false, false, true)
    modifies nodes
    ensures States(nodes) == Deliver(old(States(nodes)), e)
  {
    ghost var slots := States(nodes);
    DeliverBlock(slots, e);
    for k := 0 to |nodes|
      invariant forall j :: 0 <= j < k ==> nodes[j].State() == Deliver(slots, e)[j]
      invariant forall j :: k <= j < |nodes| ==> nodes[j].State() == slots[j]
    {
      if MatchesParent(nodes[k].path, current) {
        nodes[k].Assign(block, false, false);
      }
    }
    SameStates(States(nodes), Deliver(slots, e));
  }

  // A scalar value: the first binding at or below its path takes it.
  method AssignScalar(depth: nat, key: string, raw: string, isString: bool, isNull: bool,
                      nodes: seq<ParseNode>, stack: array<string>, ghost path: Path)
    requires |path| == depth && Bound(nodes, stack.Length) && Holds(stack, path)
    modifies nodes, stack
    ensures Holds(stack, path)
    ensures States(nodes) == Deliver(old(States(nodes)), Event(path + [key], raw, isString, isNull, false))
  {
    ghost var e := Event(path + [key], raw, isString, isNull, false);
    ghost var slots := States(nodes);
    if depth >= stack.Length {
      TooDeep(slots, e, stack.Length);
      return;
    }
    stack[depth] := key;
    var current := stack[..depth + 1];
    assert current == path + [key];
    assert States(nodes) == slots;
    for k := 0 to |nodes|
      invariant States(nodes) == slots && Holds(stack, path)
      invariant forall j :: 0 <= j < k ==> !Matches(slots[j], e)
    {
      if MatchesParent(nodes[k].path, current) {
        DeliverScalar(slots, e, k);
        nodes[k].Assign(raw, isString, isNull);
        SameStates(States(nodes), Deliver(slots, e));
        return;
      }
    }
    DeliverNone(slots, e);
  }

  // ---- the loop

  method ParseJsonNodes(json: string, nodes: seq<ParseNode>, stack: array<string>)
    requires Bound(nodes, stack.Length)
    modifies nodes, stack
    ensures States(nodes) == Rest(Cleared(old(States(nodes))), json, [], "")
  {
    hide Rest, Skipped, Holds, Bound, Cleared;
    BoundDistinct(nodes, stack.Length);
    ResetAll(nodes);
    ghost var slots := States(nodes);
    var i, depth, key := 0, 0, "";
    ghost var path: Path := [];
    HoldsNothing(stack);
    assert json[0..] == json;
    while i < |json|
      invariant depth == |path| && Holds(stack, path)
      invariant Rest(States(nodes), From(json, i), path, key) == Rest(slots, json, [], "")
      decreases |json| - i
    {
      RestSkips(States(nodes), From(json, i), path, key);
      SkippedTwice(From(json, i));
      i := SkipWsAndComments(json, i);
      if i >= |json| { break; }
      i, depth, key, path := ParseToken(json, i, depth, key, nodes, stack, path);
    }
    assert From(json, i) == "";
    RestEnds(States(nodes), path, key);
  }

  lemma BoundDistinct(nodes: seq<ParseNode>, depth: nat)
    requires Bound(nodes, depth)
    ensures Distinct(nodes)
  {}

  lemma HoldsNothing(stack: array<string>)
    ensures Holds(stack, [])
  {}

  lemma HoldsPop(stack: array<string>, path: Path)
    requires Holds(stack, path)
    ensures Holds(stack, Pop(path)) && |Pop(path)| == if path == [] then 0 else |path| - 1
  {}

  // One turn of the main loop: a bracket, a separator, a string or a primitive (parser.cpp:381-473).
  method ParseToken(json: string, at: nat, depth: nat, key: string, nodes: seq<ParseNode>, stack: array<string>,
                    ghost path: Path)
    returns (i: nat, newDepth: nat, newKey: string, ghost newPath: Path)
    requires at < |json| && Skipped(json[at..]) == json[at..] && |path| == depth
    requires Bound(nodes, stack.Length) && Holds(stack, path)
    modifies nodes, stack
    ensures i > at && newDepth == |newPath| && Holds(stack, newPath)
    ensures Rest(States(nodes), From(json, i), newPath, newKey) == Rest(old(States(nodes)), json[at..], path, key)
  {
    hide Rest, Skipped, Holds, Bound;
    ghost var t := json[at..];
    assert t[1..] == json[at + 1..];
    SkippedTwice(t);
    i, newDepth, newKey, newPath := at + 1, depth, key, path;
    var c := json[at];
    if c == '{' || c == '[' {
      var pushed := OpenBracket(json, at, depth, key, nodes, stack, path);
      if pushed { newDepth, newPath := depth + 1, path + [key]; }
      newKey := "";
    } else if c == '}' || c == ',' || c == ':' || c == ']' {
      RestSkipped(States(nodes), t, path, key);
      if c == '}' && depth > 0 {
        HoldsPop(stack, path);
        newDepth, newPath := depth - 1, Pop(path);
      }
    } else if c == '"' {
      i, newKey := ParseString(json, at, depth, key, nodes, stack, path);
    } else {
      i := ParsePrimitive(json, at, depth, key, nodes, stack, path);
      newKey := "";
    }
  }

  // An opening bracket: its block is delivered, and an object under a key opens a level.
  method OpenBracket(json: string, i: nat, depth: nat, key: string, nodes: seq<ParseNode>,
                     stack: array<string>, ghost path: Path)
    returns (pushed: bool)
    requires i < |json| && IsOpen(json[i]) && |path| == depth
    requires Bound(nodes, stack.Length) && Holds(stack, path)
    modifies nodes, stack
    ensures pushed == (json[i] == '{' && key != "")
    ensures var inner := if pushed then path + [key] else path;
      && Holds(stack, inner)
      && Rest(States(nodes), json[i + 1..], inner, "") == Rest(old(States(nodes)), json[i..], path, key)
  {
    hide Rest, BlockEvent;
    ghost var t := json[i..];
    assert t[1..] == json[i + 1..];
    RestBlock(States(nodes), t, path, key);
    CaptureStructuralValue(json, i, depth, key, nodes, stack, path);
    pushed := json[i] == '{' && key != "";
    ghost var slots := States(nodes);
    if pushed && depth < stack.Length { stack[depth] := key; }
    assert States(nodes) == slots;
  }

  method ParsePrimitive(json: string, at: nat, depth: nat, key: string, nodes: seq<ParseNode>,
                        stack: array<string>, ghost path: Path)
    returns (i: nat)
    requires at < |json| && BeginsPrimitive(json[at..]) && Skipped(json[at..]) == json[at..] && |path| == depth
    requires Bound(nodes, stack.Length) && Holds(stack, path)
    modifies nodes, stack
    ensures at < i <= |json| && Holds(stack, path)
    ensures Rest(States(nodes), json[i..], path, "") == Rest(old(States(nodes)), json[at..], path, key)
  {
    hide Rest, Holds, Bound, Skipped;
    ghost var t := json[at..];
    RestPrimitive(States(nodes), t, path, key);
    i := SkipPrimitive(json, at);
    assert t[i - at..] == json[i..] && t[..i - at] == json[at..i];
    var raw := json[at..i];
    AssignScalar(depth, key, raw, false, raw == "null", nodes, stack, path);
  }

  method ResetAll(nodes: seq<ParseNode>)
    requires Distinct(nodes)
    modifies nodes
    ensures States(nodes) == Cleared(old(States(nodes)))
  {
    ghost var slots := States(nodes);
    for k := 0 to |nodes|
      invariant forall j :: 0 <= j < k ==> nodes[j].State() == Cleared(slots)[j]
      invariant forall j :: k <= j < |nodes| ==> nodes[j].State() == slots[j]
    {
      nodes[k].Reset();
    }
    SameStates(States(nodes), Cleared(slots));
  }

  method SkipPrimitive(json: string, at: nat) returns (i: nat)
    requires at <= |json|
    ensures i == at + PrimitiveLength(json[at..])
  {
    i := at;
    while i < |json| && !IsPrimitiveDelim(json[i])
      invariant at <= i <= |json| && i + PrimitiveLength(json[i..]) == at + PrimitiveLength(json[at..])
    {
      assert json[i..][1..] == json[i + 1..];
      i := i + 1;
    }
  }

  // The body of a string; a final backslash carries the index one past the text.
  method SkipBody(json: string, at: nat) returns (i: nat)
    requires at <= |json|
    ensures (if i <= |json| then i else |json|) == at + BodyLength(json[at..])
    ensures i < |json| ==> json[i] == '"'
  {
    i := at;
    while i < |json| && json[i] != '"'
      invariant at <= i <= |json| + 1
      invariant i <= |json| ==> i + BodyLength(json[i..]) == at + BodyLength(json[at..])
      invariant i > |json| ==> |json| == at + BodyLength(json[at..])
      decreases |json| - i
    {
      assert json[i..][1..] == json[i + 1..];
      if i + 1 < |json| { assert json[i..][2..] == json[i + 2..]; }
      if json[i] == '\\' { i := i + 1; }
      i := i + 1;
    }
  }

  method ReadString(json: string, at: nat) returns (body: string, i: nat)
    requires at < |json| && json[at] == '"'
    ensures body == StringBody(json[at..])
    ensures i > at && From(json, i) == json[at..][QuoteLength(json[at..])..]
  {
    ghost var t := json[at..];
    var start := at + 1;
    assert t[1..] == json[start..];
    i := SkipBody(json, start);
    var end := if i <= |json| then i else |json|;
    body := json[start..end];
    if i < |json| { i := i + 1; }
    assert t[QuoteLength(t)..] == json[at + QuoteLength(t)..];
  }

  // The string, and what is skipped behind it unless the colon is right there.
  method PassString(json: string, at: nat) returns (body: string, i: nat)
    requires at < |json| && json[at] == '"'
    ensures body == StringBody(json[at..])
    ensures i > at && From(json, i) == AfterString(json[at..])
  {
    hide Skipped, StringBody, AfterString, BodyLength, QuoteLength;
    body, i := ReadString(json, at);
    AfterStringIs(json[at..], From(json, i));
    if i < |json| && json[i] != ':' { i := SkipWsAndComments(json, i); }
  }

  // A string token: a key if a colon follows, else a value.
  method ParseString(json: string, at: nat, depth: nat, key: string, nodes: seq<ParseNode>,
                     stack: array<string>, ghost path: Path)
    returns (i: nat, newKey: string)
    requires at < |json| && json[at] == '"' && |path| == depth
    requires Bound(nodes, stack.Length) && Holds(stack, path)
    modifies nodes, stack
    ensures i > at && Holds(stack, path)
    ensures Rest(States(nodes), From(json, i), path, newKey) == Rest(old(States(nodes)), json[at..], path, key)
  {
    hide Rest, Skipped, StringBody, AfterString, StringEvent, BodyLength, QuoteLength, Holds, Bound;
    RestString(States(nodes), json[at..], path, key);
    var body;
    body, i := PassString(json, at);
    if i < |json| && json[i] == ':' {
      assert json[i..][1..] == json[i + 1..];
      return i + 1, body;
    }
    StringEventIs(path + [key], body);
    AssignScalar(depth, key, body, true, false, nodes, stack, path);
    newKey := "";
  }

  lemma AfterStringIs(t: string, u: string)
    requires t != "" && u == t[QuoteLength(t)..]
    ensures AfterString(t) == Skipped(u) && Skipped("") == ""
    ensures AtColon(u) ==> AfterString(t) == u
  {
    if AtColon(u) { SkippedToken(u); }
  }

  lemma StringEventIs(path: Path, body: string)
    ensures StringEvent(path, body) == Event(path, body, true, false, false)
  {}

  // `Parser::parse`: a path stack as deep as the deepest binding.
  method Parse(json: string, nodes: seq<ParseNode>)
    requires Distinct(nodes)
    modifies nodes
    ensures States(nodes) == Rest(Cleared(old(States(nodes))), json, [], "")
  {
    var maxDepth := 1;
    for k := 0 to |nodes|
      invariant maxDepth >= 1 && forall j :: 0 <= j < k ==> |nodes[j].path| <= maxDepth
    {
      if |nodes[k].path| > maxDepth { maxDepth := |nodes[k].path|; }
    }
    var stack := new string[maxDepth](i => "");
    ghost var slots := States(nodes);
    SameStates(slots, old(States(nodes)));
    ParseJsonNodes(json, nodes, stack);
  }
}

/** Taking an array apart: `DynamicNodeBase::operator>>` and `next_array_token` (parser.hpp:245-268,
    parser.cpp:134-195). */
module Iteration {
  import opened Escaping
  import opened Decoding
  import opened Integers
  import opened PrettyText
  import opened JsonValues
  import opened Scanning
  import opened Layouts
  import opened PrettyLayouts
  import opened ParserSpec
  import opened Parsers
  import opened RoundTrip
  import opened Delivery
  import opened Emitted

  predicate IsArrayText(raw: string) {
    raw != "" && raw[0] == '['
  }

  predicate IsLead(c: char) {
    IsSpace(c) || c == ','
  }

  // Whitespace and commas; comments are not skipped here.
  function DropLead(s: string): (t: string)
    ensures |t| <= |s| && (t != "" ==> !IsLead(t[0]))
  {
    if s != "" && IsLead(s[0]) then DropLead(s[1..]) else s
  }

  datatype Token = Token(text: string, isString: bool)
  datatype Sliced = Sliced(token: Token, rest: string)

  // The length of the token at the head of `t`.
  function TokenLength(t: string): (n: nat)
    requires t != ""
    ensures n <= |t|
  {
    if t[0] == '"' then QuoteLength(t) else if IsOpen(t[0]) then BlockLength(t) else PrimitiveLength(t)
  }

  function NextToken(s: string): (r: Sliced)
    ensures r.token.text != "" ==> |r.rest| < |s|
  {
    var t := DropLead(s);
    if t == "" || t[0] == ']' then Sliced(Token("", false), t)
    else
      var n := TokenLength(t);
      var text := if t[0] == '"' && n >= 2 then t[1..n - 1] else t[..n];
      Sliced(Token(text, t[0] == '"'), t[n..])
  }

  // Everything `while (node >> value)` is given from here on: it stops at the first empty token.
  function Tokens(s: string): seq<Token>
    decreases |s|
  {
    var r := NextToken(s);
    if r.token.text == "" then [] else [r.token] + Tokens(r.rest)
  }

  // ---- the methods

  // The quote loop: a pair of index and text where `QuoteLength` has the recursion.
  method MatchQuote(s: string) returns (end: nat)
    requires s != "" && s[0] == '"'
    ensures end == QuoteLength(s)
  {
    end := 1;
    while end < |s|
      invariant 1 <= end <= |s|
      invariant QuoteLength(s) == PastQuote(end + BodyLength(s[end..]), |s|)
    {
      assert s[end..][1..] == s[end + 1..];
      if s[end] == '\\' {
        if end + 1 < |s| { assert s[end..][2..] == s[end + 2..]; }
        end := end + 1;
        if end < |s| { end := end + 1; }
      } else if s[end] == '"' {
        end := end + 1;
        break;
      } else {
        end := end + 1;
      }
    }
  }

  function PastQuote(body: nat, length: nat): nat {
    if body < length then body + 1 else body
  }

  method DropLeading(s: string) returns (t: string)
    ensures t == DropLead(s)
  {
    t := s;
    while t != "" && IsLead(t[0])
      invariant DropLead(t) == DropLead(s)
      decreases |t|
    {
      t := t[1..];
    }
  }

  method NextArrayToken(node: ParseNode) returns (token: Token)
    requires node.target.Dynamic?
    modifies node`target
    ensures var r := NextToken(old(node.target.iter));
      token == r.token && node.target == old(node.target).(iter := r.rest)
  {
    hide QuoteLength, BlockLength, PrimitiveLength;
    var t := DropLeading(node.target.iter);
    node.target := node.target.(iter := t);
    if t == "" || t[0] == ']' { return Token("", false); }
    var isStr, end := false, 0;
    if t[0] == '"' {
      isStr := true;
      end := MatchQuote(t);
    } else if IsOpen(t[0]) {
      end := MatchBracket(t);
    } else {
      assert t[0..] == t;
      end := SkipPrimitive(t, 0);
    }
    var text := t[..end];
    node.target := node.target.(iter := t[end..]);
    if isStr && |text| >= 2 { text := text[1..|text| - 1]; }
    token := Token(text, isStr);
  }

  // Where reading an array continues, and whether there is anything to read from another value.
  function Cursor(t: Target): string
    requires t.Dynamic? && IsArrayText(t.raw)
  {
    if t.started then t.iter else t.raw[1..]
  }

  function Taken(into: Target, token: Token): Target {
    Coerce(into, token.text, token.isString, token.text == "null")
  }

  // Whether something is handed over, the variable then, and the binding's own state.
  datatype Extraction = Extraction(ok: bool, value: Target, left: Target)

  // The next element of an array, once anything else; nothing from a binding that is not set.
  function Extracted(s: Slot, into: Target): Extraction
    requires s.target.Dynamic?
  {
    var t := s.target;
    if !s.isSet then Extraction(false, into, t)
    else if IsArrayText(t.raw) then
      var r := NextToken(Cursor(t));
      var left := t.(iter := r.rest, started := true);
      if r.token.text == "" then Extraction(false, into, left) else Extraction(true, Taken(into, r.token), left)
    else if t.started then Extraction(false, into, t)
    else Extraction(true, Coerce(into, t.raw, t.isString, s.isNull), t.(started := true))
  }

  method Extract(node: ParseNode, into: Target) returns (ok: bool, value: Target)
    requires node.target.Dynamic? && !into.Dynamic?
    modifies node`target
    ensures Extraction(ok, value, node.target) == Extracted(old(node.State()), into)
  {
    if !node.isSet { return false, into; }
    var val, valIsNull := node.target.raw, node.isNull;
    if node.target.raw != "" && node.target.raw[0] == '[' {
      if !node.target.started {
        node.target := node.target.(iter := node.target.raw[1..], started := true);
      }
      var token := NextArrayToken(node);
      val := token.text;
      if val == "" { return false, into; }
      valIsNull := val == "null";
    } else {
      if node.target.started { return false, into; }
      node.target := node.target.(started := true);
    }
    ok, value := true, Coerce(into, val, false, valIsNull);
  }

  // What a loop of extractions into one variable leaves in it, turn by turn.
  function TakenAll(into: Target, tokens: seq<Token>): (r: seq<Target>)
    ensures |r| == |tokens|
    decreases |tokens|
  {
    if tokens == [] then []
    else [Taken(into, tokens[0])] + TakenAll(Taken(into, tokens[0]), tokens[1..])
  }

  // What is left to hand over gets shorter.
  function LeftOver(s: Slot): nat
    requires s.target.Dynamic?
  {
    if !s.isSet then 0
    else if IsArrayText(s.target.raw) then |Cursor(s.target)|
    else if s.target.started then 0
    else 1
  }

  lemma ExtractionGoesOn(s: Slot, into: Target)
    requires s.target.Dynamic? && !into.Dynamic?
    ensures var x := Extracted(s, into);
      x.left.Dynamic? && !x.value.Dynamic? && (x.ok ==> LeftOver(s.(target := x.left)) < LeftOver(s))
  {}

  // One extraction after the other, each into the variable as the last one has left it, until there is nothing.
  function AllExtracted(s: Slot, into: Target): seq<Target>
    requires s.target.Dynamic? && !into.Dynamic?
    decreases LeftOver(s)
  {
    ExtractionGoesOn(s, into);
    var x := Extracted(s, into);
    if x.ok then [x.value] + AllExtracted(s.(target := x.left), x.value) else []
  }

  lemma NextExtracted(s: Slot, into: Target)
    requires s.target.Dynamic? && !into.Dynamic?
    ensures var x := Extracted(s, into);
      && x.left.Dynamic? && !x.value.Dynamic? && (x.ok ==> LeftOver(s.(target := x.left)) < LeftOver(s))
      && AllExtracted(s, into) == if x.ok then [x.value] + AllExtracted(s.(target := x.left), x.value) else []
  {
    ExtractionGoesOn(s, into);
  }

  // `while (node >> value)`.
  method ExtractAll(node: ParseNode, into: Target) returns (values: seq<Target>)
    requires node.target.Dynamic? && !into.Dynamic?
    modifies node`target
    ensures values == AllExtracted(old(node.State()), into)
  {
    hide Extracted, LeftOver, AllExtracted;
    ghost var all := AllExtracted(node.State(), into);
    ghost var rest := all;
    values := [];
    var value, ok := into, true;
    while ok
      invariant node.target.Dynamic? && !value.Dynamic?
      invariant values + rest == all && rest == if ok then AllExtracted(node.State(), value) else []
      decreases ok, LeftOver(node.State())
    {
      ghost var s := node.State();
      NextExtracted(s, value);
      ok, value := Extract(node, value);
      assert node.State() == s.(target := node.target);
      if ok {
        rest := AllExtracted(node.State(), value);
        NextOfAll(values, value, rest);
        values := values + [value];
      } else {
        rest := [];
      }
    }
  }

  lemma NextOfAll(values: seq<Target>, value: Target, rest: seq<Target>)
    ensures values + ([value] + rest) == (values + [value]) + rest
  {}

  lemma TakenKind(into: Target, tokens: seq<Token>)
    requires !into.Dynamic?
    ensures tokens != [] ==> !Taken(into, tokens[0]).Dynamic?
  {}

  // From an array the tokens are handed over that the slicer finds from the cursor on.
  lemma {:induction false} ArrayExtracted(s: Slot, into: Target)
    requires s.target.Dynamic? && !into.Dynamic? && s.isSet && IsArrayText(s.target.raw)
    ensures AllExtracted(s, into) == TakenAll(into, Tokens(Cursor(s.target)))
    decreases LeftOver(s)
  {
    hide NextToken, Taken;
    ExtractionGoesOn(s, into);
    var x, r := Extracted(s, into), NextToken(Cursor(s.target));
    if x.ok {
      ArrayExtracted(s.(target := x.left), x.value);
      assert ([r.token] + Tokens(r.rest))[1..] == Tokens(r.rest);
    }
  }

  // From anything that is no array the value is handed over once, coerced, and then nothing more; the variable stays as
  // it is. From a binding that is not set nothing is.
  lemma OnceOnly(s: Slot, e: Event, into: Target, next: Target)
    requires s.target.Dynamic? && !into.Dynamic? && !next.Dynamic?
    ensures !s.isSet ==> Extracted(s, into) == Extraction(false, into, s.target) && AllExtracted(s, into) == []
    ensures e.raw == "" || e.raw[0] != '[' ==>
      var t := Assigned(s, e);
      var x := Extracted(t, into);
      && x.ok && x.value == Coerce(into, e.raw, e.isString, e.isNull)
      && Extracted(t.(target := x.left), next) == Extraction(false, next, x.left)
      && AllExtracted(t, into) == [Coerce(into, e.raw, e.isString, e.isNull)]
  {
    hide Coerce;
    var t := Assigned(s, e);
    AssignedDynamic(s, e);
    if e.raw == "" || e.raw[0] != '[' {
      var x := Extracted(t, into);
      ExtractionGoesOn(t, into);
      assert AllExtracted(t.(target := x.left), x.value) == [];
    }
  }

  // A dynamic binding keeps the text it is given, and is to be read from its beginning.
  lemma AssignedDynamic(s: Slot, e: Event)
    requires s.target.Dynamic?
    ensures Assigned(s, e) == Slot(s.path, true, e.isNull, Dynamic(e.raw, e.isString, e.raw, false))
  {}

  // ---- arrays

  predicate Blanks(s: string) {
    forall i :: 0 <= i < |s| ==> IsLead(s[i])
  }

  // An element that the slicer reads whole.
  predicate Slices(l: Laid) {
    match l
    case Primitive(t) => IsPrimitive(t)
    case Str(b) => IsBody(b)
    case _ => Captured(l)
  }

  // Nothing but whitespace and commas between the elements; inside an element anything the scanners read right.
  predicate Separated(items: seq<LaidItem>)
    decreases items
  {
    items == [] ||
    (Slices(items[0].value) && Blanks(items[0].tail)
     && (NeedsDelimiter(items[0].value) && items[0].tail == "" ==> |items| == 1)
     && Separated(items[1..]))
  }

  // Strings without their quotes, anything else as it is written.
  function ElementToken(l: Laid): Token {
    Token(RawOf(l), l.Str?)
  }

  function ElementTokens(items: seq<LaidItem>): (r: seq<Token>)
    ensures |r| == |items| && forall i :: 0 <= i < |r| ==> r[i] == ElementToken(items[i].value)
  {
    if items == [] then [] else [ElementToken(items[0].value)] + ElementTokens(items[1..])
  }

  function UntilEmpty(tokens: seq<Token>): seq<Token> {
    if tokens == [] || tokens[0].text == "" then [] else [tokens[0]] + UntilEmpty(tokens[1..])
  }

  lemma {:induction false} DropBlanks(lead: string, s: string)
    requires Blanks(lead)
    ensures DropLead(lead + s) == DropLead(s)
  {
    if lead == "" {
      assert lead + s == s;
    } else {
      assert (lead + s)[0] == lead[0] && (lead + s)[1..] == lead[1..] + s;
      DropBlanks(lead[1..], s);
    }
  }

  // A value's text followed by something that ends it is one token.
  lemma NextElement(lead: string, l: Laid, rest: string)
    requires Blanks(lead) && Slices(l) && (NeedsDelimiter(l) ==> rest == "" || IsPrimitiveDelim(rest[0]))
    ensures NextToken(lead + (LaidText(l) + rest)) == Sliced(ElementToken(l), rest)
  {
    hide TokenLength, Slices;
    var text := LaidText(l);
    DropBlanks(lead, text + rest);
    ElementLength(l, rest);
    assert (text + rest)[..|text|] == text && (text + rest)[|text|..] == rest;
    if text[0] == '"' {
      assert (text + rest)[1..|text| - 1] == text[1..|text| - 1] == l.body;
    }
  }

  lemma ElementLength(l: Laid, rest: string)
    requires Slices(l) && (NeedsDelimiter(l) ==> rest == "" || IsPrimitiveDelim(rest[0]))
    ensures LaidText(l) != "" && !IsLead(LaidText(l)[0]) && LaidText(l)[0] != ']'
    ensures LaidText(l)[0] == '"' <==> l.Str?
    ensures TokenLength(LaidText(l) + rest) == |LaidText(l)|
  {
    hide TokenLength;
    match l
    case Primitive(t) => PrimitiveTokenLength(t, rest);
    case Str(b) => StringTokenLength(b, rest);
    case _ =>
      BlockTokenLength(l, rest);
      BlockIsText(l, rest);
  }

  lemma BlockTokenLength(l: Laid, rest: string)
    requires IsContainer(l)
    ensures LaidText(l) != "" && IsOpen(LaidText(l)[0])
    ensures TokenLength(LaidText(l) + rest) == BlockLength(LaidText(l) + rest)
  {
    Bracketed(l);
    assert (LaidText(l) + rest)[0] == LaidText(l)[0];
  }

  lemma StringTokenLength(b: string, rest: string)
    requires IsBody(b)
    ensures InQuotes(b)[0] == '"' && TokenLength(InQuotes(b) + rest) == |InQuotes(b)|
  {
    QuoteOfBody(b, rest);
  }

  lemma PrimitiveTokenLength(t: string, rest: string)
    requires IsPrimitive(t) && (rest == "" || IsPrimitiveDelim(rest[0]))
    ensures TokenLength(t + rest) == |t| && !IsLead(t[0])
  {
    PrimitiveOfText(t, rest);
    assert (t + rest)[0] == t[0];
  }

  lemma {:induction false} ArrayTokens(lead: string, items: seq<LaidItem>, rest: string)
    requires Blanks(lead) && Separated(items)
    ensures Tokens(lead + (ItemsText(items) + ("]" + rest))) == UntilEmpty(ElementTokens(items))
    decreases items
  {
    hide Slices, TokenLength, QuoteLength, Blanks, LaidText, Captured;
    if items == [] {
      var end := "]" + rest;
      assert "" + end == end;
      DropBlanks(lead, end);
    } else {
      var it, more := items[0], ItemsText(items[1..]) + ("]" + rest);
      assert ItemsText(items) + ("]" + rest) == LaidText(it.value) + (it.tail + more);
      ElementEnds(items, rest);
      NextElement(lead, it.value, it.tail + more);
      ArrayTokens(it.tail, items[1..], rest);
    }
  }

  lemma ElementEnds(items: seq<LaidItem>, rest: string)
    requires Separated(items) && items != []
    ensures var after := items[0].tail + (ItemsText(items[1..]) + ("]" + rest));
      NeedsDelimiter(items[0].value) ==> after != "" && IsPrimitiveDelim(after[0])
  {
    if items[0].tail == "" && NeedsDelimiter(items[0].value) {
      assert items[1..] == [];
    }
  }

  lemma {:induction false} UntilEmptyIsAll(tokens: seq<Token>)
    ensures UntilEmpty(tokens) <= tokens
    ensures UntilEmpty(tokens) == tokens <==> forall i :: 0 <= i < |tokens| ==> tokens[i].text != ""
  {
    if tokens != [] && tokens[0].text != "" {
      UntilEmptyIsAll(tokens[1..]);
      assert tokens == [tokens[0]] + tokens[1..];
      assert forall i :: 0 < i < |tokens| ==> tokens[i] == tokens[1..][i - 1];
    }
  }

  predicate IsEmptyString(l: Laid) {
    l == Str("")
  }

  lemma EmptyToken(l: Laid)
    requires Slices(l) || IsContainer(l)
    ensures ElementToken(l).text == "" <==> IsEmptyString(l)
  {
    if IsContainer(l) { Bracketed(l); }
  }

  lemma {:induction false} SeparatedSlices(items: seq<LaidItem>, i: nat)
    requires Separated(items) && i < |items|
    ensures Slices(items[i].value)
  {
    if i > 0 { SeparatedSlices(items[1..], i - 1); }
  }

  predicate NoEmptyStrings(items: seq<LaidItem>) {
    forall i :: 0 <= i < |items| ==> !IsEmptyString(items[i].value)
  }

  // Iterating over an array gives its elements in order, up to the first empty string: all of them exactly when
  // no element is one.
  lemma IterateArray(l: Laid, rest: string)
    requires l.Array? && Blanks(l.open) && Separated(l.items)
    ensures IsArrayText(LaidText(l) + rest)
    ensures var got := Tokens((LaidText(l) + rest)[1..]);
      && got == UntilEmpty(ElementTokens(l.items)) <= ElementTokens(l.items)
      && (got == ElementTokens(l.items) <==> NoEmptyStrings(l.items))
  {
    hide Separated, Tokens, ElementToken, IsEmptyString;
    var tokens := ElementTokens(l.items);
    assert (LaidText(l) + rest)[1..] == l.open + (ItemsText(l.items) + ("]" + rest));
    ArrayTokens(l.open, l.items, rest);
    UntilEmptyIsAll(tokens);
    forall i | 0 <= i < |l.items| ensures tokens[i].text == "" <==> IsEmptyString(l.items[i].value) {
      SeparatedSlices(l.items, i);
      EmptyToken(l.items[i].value);
    }
  }

  // ---- exactly which arrays come out whole

  // Comments, which the parser skips, are not skipped here.
  lemma {:induction false} LeadWithComment(lead: string, s: string)
    requires IsFiller(lead) && !Blanks(lead)
    ensures BeginsComment(DropLead(lead + s))
    decreases |lead|
  {
    assert (lead + s)[0] == lead[0] && (lead + s)[1..] == lead[1..] + s;
    if IsLead(lead[0]) {
      LeadWithComment(lead[1..], s);
    } else {
      assert (lead + s)[1] == lead[1];
    }
  }

  lemma CommentToken(lead: string, s: string, l: Laid)
    requires IsFiller(lead) && !Blanks(lead) && WellLaid(l)
    ensures Tokens(lead + s) != [] && Tokens(lead + s)[0] != ElementToken(l)
  {
    hide IsFiller, Blanks, LaidText;
    LeadWithComment(lead, s);
    ElementStarts(l);
    SlashToken(lead + s);
  }

  lemma SlashToken(s: string)
    requires BeginsComment(DropLead(s))
    ensures Tokens(s) != [] && !Tokens(s)[0].isString && BeginsComment(Tokens(s)[0].text)
  {
    var t := DropLead(s);
    assert t[1..][0] == t[1];
    assert PrimitiveLength(t) == 2 + PrimitiveLength(t[1..][1..]);
  }

  lemma ElementStarts(l: Laid)
    requires WellLaid(l)
    ensures l.Str? || !BeginsComment(ElementToken(l).text)
  {
    if IsContainer(l) { Bracketed(l); }
  }

  // A block that is not captured whole is not the element.
  lemma UncapturedToken(lead: string, l: Laid, rest: string)
    requires Blanks(lead) && IsContainer(l) && !Captured(l) && rest != ""
    ensures var s := lead + (LaidText(l) + rest);
      Tokens(s) != [] && Tokens(s)[0] != ElementToken(l)
  {
    hide TokenLength, Captured;
    BlockTokenLength(l, rest);
    UncapturedLength(l, rest);
    DropBlanks(lead, LaidText(l) + rest);
    BlockToken(lead + (LaidText(l) + rest), LaidText(l) + rest, |LaidText(l)|);
  }

  lemma UncapturedLength(l: Laid, rest: string)
    requires IsContainer(l) && !Captured(l) && rest != ""
    ensures LaidText(l) != "" && IsOpen(LaidText(l)[0]) && BlockLength(LaidText(l) + rest) != |LaidText(l)|
  {
    BlockIsText(l, rest);
  }

  lemma BlockToken(s: string, t: string, n: nat)
    requires t != "" && IsOpen(t[0]) && DropLead(s) == DropLead(t) && BlockLength(t) != n
    ensures Tokens(s) != [] && |Tokens(s)[0].text| != n
  {
    assert DropLead(t) == t;
  }

  predicate BlankTails(items: seq<LaidItem>) {
    forall i :: 0 <= i < |items| ==> Blanks(items[i].tail)
  }

  predicate AllCaptured(items: seq<LaidItem>) {
    forall i :: 0 <= i < |items| ==> Captured(items[i].value)
  }

  lemma {:induction false} IterateExactly(lead: string, items: seq<LaidItem>, rest: string)
    requires IsFiller(lead) && WellItems(items)
    ensures Tokens(lead + (ItemsText(items) + ("]" + rest))) == ElementTokens(items)
      <==> Blanks(lead) && BlankTails(items) && NoEmptyStrings(items) && AllCaptured(items)
    decreases items
  {
    var text := ItemsText(items) + ("]" + rest);
    if !Blanks(lead) {
      SomeValue();
      CommentToken(lead, text, if items == [] then Str("") else items[0].value);
    } else if items == [] {
      ArrayTokens(lead, items, rest);
    } else {
      var it, more := items[0], ItemsText(items[1..]) + ("]" + rest);
      Assoc3(LaidText(it.value), it.tail, ItemsText(items[1..]), "]" + rest);
      WellEnds(items, rest);
      FirstAndRest(items);
      WellSlices(it.value);
      if !Captured(it.value) {
        UncapturedToken(lead, it.value, it.tail + more);
      } else {
        NextElement(lead, it.value, it.tail + more);
        EmptyToken(it.value);
        IterateExactly(it.tail, items[1..], rest);
      }
    }
  }

  lemma SomeValue()
    ensures WellLaid(Str(""))
  {
    assert "" + "\"" == "\"";
  }

  lemma WellSlices(l: Laid)
    requires WellLaid(l)
    ensures Captured(l) ==> Slices(l)
    ensures !Captured(l) ==> IsContainer(l)
  {}

  lemma FirstAndRest(items: seq<LaidItem>)
    requires items != []
    ensures BlankTails(items) <==> Blanks(items[0].tail) && BlankTails(items[1..])
    ensures NoEmptyStrings(items) <==> !IsEmptyString(items[0].value) && NoEmptyStrings(items[1..])
    ensures AllCaptured(items) <==> Captured(items[0].value) && AllCaptured(items[1..])
    ensures ElementTokens(items)[0] == ElementToken(items[0].value)
    ensures ElementTokens(items)[1..] == ElementTokens(items[1..])
  {
    assert forall i :: 0 < i < |items| ==> items[i] == items[1..][i - 1];
  }

  lemma WellEnds(items: seq<LaidItem>, rest: string)
    requires WellItems(items) && items != []
    ensures IsFiller(items[0].tail)
    ensures var after := items[0].tail + (ItemsText(items[1..]) + ("]" + rest));
      after != "" && (NeedsDelimiter(items[0].value) ==> IsPrimitiveDelim(after[0]))
  {
    if items[0].tail == "" && NeedsDelimiter(items[0].value) {
      assert items[1..] == [];
    }
  }

  // For every array the parser accepts: iterating gives its elements, all and in order, exactly when there is no
  // comment between them, no element is the empty string, and objects and arrays among them are captured whole.
  lemma IterateLaid(l: Laid, rest: string)
    requires l.Array? && WellLaid(l)
    ensures Tokens((LaidText(l) + rest)[1..]) == ElementTokens(l.items)
      <==> Blanks(l.open) && BlankTails(l.items) && NoEmptyStrings(l.items) && AllCaptured(l.items)
  {
    assert (LaidText(l) + rest)[1..] == l.open + (ItemsText(l.items) + ("]" + rest));
    IterateExactly(l.open, l.items, rest);
  }

  // So from a binding that has just been given the array, as it is written, its elements are handed over under that
  // condition: `given` is what is.
  lemma HandsOver(s: Slot, e: Event, l: Laid, into: Target) returns (given: seq<Token>)
    requires s.target.Dynamic? && !into.Dynamic? && l.Array? && WellLaid(l) && e.raw == LaidText(l)
    ensures AllExtracted(Assigned(s, e), into) == TakenAll(into, given)
    ensures given == ElementTokens(l.items)
      <==> Blanks(l.open) && BlankTails(l.items) && NoEmptyStrings(l.items) && AllCaptured(l.items)
  {
    hide Tokens, TakenAll, Coerce;
    AssignedDynamic(s, e);
    Bracketed(l);
    ArrayExtracted(Assigned(s, e), into);
    given := Tokens(LaidText(l)[1..]);
    assert LaidText(l) + "" == LaidText(l);
    IterateLaid(l, "");
  }

  // Null and the string "null" cannot be told apart.
  lemma NullToken(l: Laid)
    ensures ElementToken(l).text == "null" <==> l == Primitive("null") || l == Str("null")
  {
    if IsContainer(l) { Bracketed(l); }
  }

  function Zeroed(t: Target): Target {
    match t
    case BoolTarget(_) => BoolTarget(false)
    case IntTarget(lo, hi, _) => IntTarget(lo, hi, 0)
    case ViewTarget(_) => ViewTarget("")
    case StringTarget(_) => StringTarget("")
    case Dynamic(_, _, _, _) => t
  }

  // What one turn of the loop leaves in a variable of the element's kind.
  lemma ElementTaken(l: Laid, j: Json, into: Target)
    requires Bare(l) == Compact(j) && !into.Dynamic?
    ensures j == JNull || j == JStr("null") ==> Taken(into, ElementToken(l)) == Zeroed(into)
    ensures j.JStr? && j.s != "null" ==>
      && (into.StringTarget? ==> Taken(into, ElementToken(l)) == StringTarget(j.s))
      && (into.ViewTarget? ==> Taken(into, ElementToken(l)) == ViewTarget(Escape(j.s)))
    ensures j.JInt? && into.IntTarget? && into.lo <= j.n <= into.hi ==>
      Taken(into, ElementToken(l)) == into.(n := j.n)
    ensures j.JBool? && into.BoolTarget? ==> Taken(into, ElementToken(l)) == BoolTarget(j.b)
    ensures !IsScalar(j) && into.ViewTarget? ==> Taken(into, ElementToken(l)) == ViewTarget(LaidText(l))
  {
    NullToken(l);
    ScalarsAreBare(l, j);
    hide FromChars, LaidText;
    if j.JStr? {
      DecodeEscape(j.s);
      EscapeIdentity("null");
      DecodeEscape("null");
    } else if IsScalar(j) {
      NullText(j);
      if j.JInt? && into.IntTarget? && into.lo <= j.n <= into.hi {
        FromCharsReadsIntText(j.n, into.lo, into.hi, into.n);
      }
    }
  }

  // ---- arrays as the emitter writes them

  lemma SeparatedCons(it: LaidItem, items: seq<LaidItem>)
    ensures Separated([it] + items) ==
      (Slices(it.value) && Blanks(it.tail)
       && (NeedsDelimiter(it.value) && it.tail == "" ==> items == [])
       && Separated(items))
  {
    assert ([it] + items)[1..] == items;
  }

  lemma TidySlices(l: Laid)
    requires Tidy(l)
    ensures Slices(l)
  {
    TidyIsCaptured(l);
  }

  lemma {:induction false} CompactSeparated(elems: seq<Json>)
    ensures Separated(CompactItems(elems)) && (CompactItems(elems) == [] <==> elems == [])
    decreases elems
  {
    hide Slices;
    if elems != [] {
      CompactText(elems[0]);
      TidySlices(Compact(elems[0]));
      CompactSeparated(elems[1..]);
      SeparatedCons(LaidItem(Compact(elems[0]), Separator(|elems| == 1)), CompactItems(elems[1..]));
    }
  }

  lemma {:induction false} PrettySeparated(indent: nat, m: Mode, elems: seq<Json>)
    requires Between(m)
    ensures Separated(PrettyItems(indent, m, elems))
    decreases elems
  {
    hide Separated, Blanks, Slices;
    if elems != [] {
      var after := ModeAfter(m, Text(elems[0]));
      PrettyIsLaid(indent, m, elems[0]);
      TidySlices(PrettyLaid(indent, m, elems[0]));
      TransduceValue(indent, m, elems[0]);
      PrettySeparated(indent, after, elems[1..]);
      BlankTail(indent, after, |elems| == 1);
      SeparatedCons(LaidItem(PrettyLaid(indent, m, elems[0]), PrettyTail(indent, after, |elems| == 1)),
                    PrettyItems(indent, after, elems[1..]));
    } else {
      NothingSeparated();
    }
  }

  lemma NothingSeparated()
    ensures Separated([])
  {}

  lemma BlankTail(indent: nat, m: Mode, last: bool)
    ensures Blanks(PrettyTail(indent, m, last)) && PrettyTail(indent, m, last) != ""
  {}

  // Compact or pretty, with elements of any depth: iteration gives the emitted elements.
  lemma IterateEmitted(shape: Shape, elems: seq<Json>, rest: string)
    requires Outside(shape)
    ensures var l, raw := LaidBy(shape, JArr(elems)), Render(shape, Text(JArr(elems))) + rest;
      && l.Array? && BareItems(l.items) == CompactItems(elems) && IsArrayText(raw)
      && Tokens(raw[1..]) == UntilEmpty(ElementTokens(l.items))
      && (Tokens(raw[1..]) == ElementTokens(l.items) <==> NoEmptyStrings(l.items))
  {
    var j := JArr(elems);
    var l := LaidBy(shape, j);
    RenderedIsLaid(shape, j);
    if shape.Plain? {
      CompactSeparated(elems);
    } else {
      PrettySeparated(shape.indent, Step(shape.mode, '['), elems);
    }
    IterateArray(l, rest);
  }

  // ---- values that are not arrays

  // A binding that has been given a string hands over the whole string exactly when that does not begin with '[':
  // then it is taken for an array.
  lemma ExtractedString(s: Slot, b: string, view: string)
    requires s.target.Dynamic?
    ensures var x := Extracted(Assigned(s, StringEvent(s.path, b)), ViewTarget(view));
      x.ok && x.value == ViewTarget(b) <==> b == "" || b[0] != '['
  {
    hide TokenLength;
    if IsArrayText(b) { NextIsShorter(b[1..]); }
  }

  lemma NextIsShorter(s: string)
    ensures |NextToken(s).token.text| <= |s|
  {}
}

/** Text with any layout the parser skips: whitespace, comments and commas between tokens, which are kept as they
    are written. The emitter's compact text is one such layout. */
module Layouts {
  import opened Escaping
  import opened Integers
  import opened PrettyText
  import opened JsonValues
  import opened Scanning

  // A number or literal in any spelling, or a string by what stands between its quotes, escapes and all.
  datatype Laid =
    | Primitive(text: string)
    | Str(body: string)
    | Array(open: string, items: seq<LaidItem>)
    | Object(open: string, fields: seq<LaidField>)
  // A value and what follows it up to the next token.
  datatype LaidItem = LaidItem(value: Laid, tail: string)
  // A key as written, what follows its closing quote, what follows the colon, the value, what follows that.
  datatype LaidField = LaidField(key: string, gap: string, lead: string, value: Laid, tail: string)

  predicate IsContainer(l: Laid) {
    l.Array? || l.Object?
  }

  function LaidText(l: Laid): string
    decreases l, 1
  {
    match l
    case Primitive(t) => t
    case Str(b) => InQuotes(b)
    case Array(open, items) => "[" + open + ItemsText(items) + "]"
    case Object(open, fields) => "{" + open + LaidFieldsText(fields) + "}"
  }

  function ItemsText(items: seq<LaidItem>): string
    decreases items, 0
  {
    if items == [] then "" else LaidText(items[0].value) + items[0].tail + ItemsText(items[1..])
  }

  function LaidFieldText(f: LaidField): string
    decreases f, 2
  {
    InQuotes(f.key) + f.gap + ":" + f.lead + LaidText(f.value) + f.tail
  }

  function LaidFieldsText(fields: seq<LaidField>): string
    decreases fields, 0
  {
    if fields == [] then "" else LaidFieldText(fields[0]) + LaidFieldsText(fields[1..])
  }

  // ---- the document behind a layout: the same tokens with nothing but commas between them

  function Separator(last: bool): string {
    if last then "" else ","
  }

  function Bare(l: Laid): Laid
    decreases l, 1
  {
    match l
    case Array(_, items) => Array("", BareItems(items))
    case Object(_, fields) => Object("", BareFields(fields))
    case _ => l
  }

  function BareItems(items: seq<LaidItem>): seq<LaidItem>
    decreases items, 0
  {
    if items == [] then []
    else [LaidItem(Bare(items[0].value), Separator(|items| == 1))] + BareItems(items[1..])
  }

  function BareFields(fields: seq<LaidField>): seq<LaidField>
    decreases fields, 0
  {
    if fields == [] then []
    else
      [LaidField(fields[0].key, "", "", Bare(fields[0].value), Separator(|fields| == 1))] + BareFields(fields[1..])
  }

  // ---- what may stand between tokens

  predicate HasCommentEnd(s: string) {
    |s| >= 2 && ((s[0] == '*' && s[1] == '/') || HasCommentEnd(s[1..]))
  }

  // Whitespace and closed comments, and commas if they are allowed.
  predicate IsSkipped(g: string, commas: bool)
    decreases |g|
  {
    g == "" ||
    ((IsSpace(g[0]) || (commas && g[0] == ',')) && IsSkipped(g[1..], commas)) ||
    (|g| > 1 && g[0] == '/' && g[1] == '/' &&
     2 + LineLength(g[2..]) < |g| && IsSkipped(g[2 + LineLength(g[2..])..], commas)) ||
    (|g| > 1 && g[0] == '/' && g[1] == '*' &&
     HasCommentEnd(g[2..]) && IsSkipped(g[2 + BlockCommentLength(g[2..])..], commas))
  }

  predicate IsGap(g: string) {
    IsSkipped(g, false)
  }

  predicate IsFiller(f: string) {
    IsSkipped(f, true)
  }

  // Numbers, booleans and null end only at a delimiter.
  predicate NeedsDelimiter(l: Laid) {
    l.Primitive?
  }

  predicate TailOk(l: Laid, tail: string, last: bool) {
    IsFiller(tail) && (NeedsDelimiter(l) ==> if tail == "" then last else IsPrimitiveDelim(tail[0]))
  }

  predicate BeginsComment(s: string) {
    |s| > 1 && s[0] == '/' && (s[1] == '/' || s[1] == '*')
  }

  // Anything the parser takes for one number or literal.
  predicate IsPrimitive(t: string) {
    && t != "" && t[0] != '"' && t[0] != ':' && !BeginsComment(t)
    && forall i :: 0 <= i < |t| ==> !IsPrimitiveDelim(t[i])
  }

  predicate WellLaid(l: Laid)
    decreases l, 1
  {
    match l
    case Primitive(t) => IsPrimitive(t)
    case Str(b) => IsBody(b)
    case Array(open, items) => IsFiller(open) && WellItems(items)
    case Object(open, fields) => IsFiller(open) && WellFields(fields)
  }

  predicate WellItems(items: seq<LaidItem>)
    decreases items, 0
  {
    items == [] ||
    (WellLaid(items[0].value) && TailOk(items[0].value, items[0].tail, |items| == 1) && WellItems(items[1..]))
  }

  predicate WellField(f: LaidField, last: bool)
    decreases f, 2
  {
    IsBody(f.key) && IsGap(f.gap) && IsFiller(f.lead) && WellLaid(f.value) && TailOk(f.value, f.tail, last)
  }

  predicate WellFields(fields: seq<LaidField>)
    decreases fields, 0
  {
    fields == [] || (WellField(fields[0], |fields| == 1) && WellFields(fields[1..]))
  }

  predicate IsNumberChar(c: char) {
    '0' <= c <= '9' || 'a' <= c <= 'z' || 'A' <= c <= 'Z' || c == '+' || c == '-' || c == '.'
  }

  // Numbers, with fractions and exponents, and literals are such values, and so is every string body.
  lemma ScalarsAreLaid(t: string, b: string)
    ensures t != "" && (forall i :: 0 <= i < |t| ==> IsNumberChar(t[i])) ==> WellLaid(Primitive(t))
    ensures IsBody(b) ==> WellLaid(Str(b))
  {}

  lemma ItemsCons(it: LaidItem, items: seq<LaidItem>)
    ensures ItemsText([it] + items) == LaidText(it.value) + it.tail + ItemsText(items)
    ensures BareItems([it] + items) == [LaidItem(Bare(it.value), Separator(items == []))] + BareItems(items)
    ensures WellItems([it] + items) ==
      (WellLaid(it.value) && TailOk(it.value, it.tail, items == []) && WellItems(items))
    ensures TidyItems([it] + items) == (Tidy(it.value) && NoBrackets(it.tail) && TidyItems(items))
  {
    assert ([it] + items)[1..] == items;
  }

  lemma FieldsCons(f: LaidField, fields: seq<LaidField>)
    ensures LaidFieldsText([f] + fields) == LaidFieldText(f) + LaidFieldsText(fields)
    ensures BareFields([f] + fields)
      == [LaidField(f.key, "", "", Bare(f.value), Separator(fields == []))] + BareFields(fields)
    ensures WellFields([f] + fields) == (WellField(f, fields == []) && WellFields(fields))
    ensures TidyFields([f] + fields) == (TidyField(f) && TidyFields(fields))
  {
    assert ([f] + fields)[1..] == fields;
  }

  // What stands between the brackets, and the brackets.
  function Inner(l: Laid): string
    requires IsContainer(l)
  {
    if l.Array? then l.open + ItemsText(l.items) else l.open + LaidFieldsText(l.fields)
  }

  function Opening(l: Laid): char
    requires IsContainer(l)
  {
    if l.Array? then '[' else '{'
  }

  function Closing(l: Laid): char
    requires IsContainer(l)
  {
    if l.Array? then ']' else '}'
  }

  lemma Bracketed(l: Laid)
    requires IsContainer(l)
    ensures LaidText(l) == [Opening(l)] + Inner(l) + [Closing(l)]
    ensures LaidText(l)[0] == Opening(l) && IsOpen(Opening(l)) && IsClose(Closing(l))
  {}

  // ---- what the bracket scanners make of it

  // Quotes in fillers and primitives pair up where they stand.
  predicate Legible(l: Laid)
    decreases l, 1
  {
    match l
    case Primitive(t) => IsPrimitive(t) && Paired(t)
    case Str(b) => IsBody(b)
    case Array(open, items) => Paired(open) && LegibleItems(items)
    case Object(open, fields) => Paired(open) && LegibleFields(fields)
  }

  predicate LegibleItems(items: seq<LaidItem>)
    decreases items, 0
  {
    items == [] || (Legible(items[0].value) && Paired(items[0].tail) && LegibleItems(items[1..]))
  }

  predicate LegibleFields(fields: seq<LaidField>)
    decreases fields, 0
  {
    fields == [] ||
    (var f := fields[0];
     && IsBody(f.key) && Paired(f.gap) && Paired(f.lead) && Legible(f.value) && Paired(f.tail)
     && LegibleFields(fields[1..]))
  }

  // Opening less closing brackets in all fillers: values contribute nothing.
  function Sum(l: Laid): int
    decreases l, 1
  {
    match l
    case Array(open, items) => Rise(open) + SumItems(items)
    case Object(open, fields) => Rise(open) + SumFields(fields)
    case _ => 0
  }

  function SumItems(items: seq<LaidItem>): int
    decreases items, 0
  {
    if items == [] then 0 else Sum(items[0].value) + Rise(items[0].tail) + SumItems(items[1..])
  }

  function SumFields(fields: seq<LaidField>): int
    decreases fields, 0
  {
    if fields == [] then 0
    else
      var f := fields[0];
      Rise(f.gap) + Rise(f.lead) + Sum(f.value) + Rise(f.tail) + SumFields(fields[1..])
  }

  // The lowest that sum gets along a value, nesting depth added: one level up inside each pair of brackets.
  function Low(l: Laid): int
    decreases l, 2
  {
    if IsContainer(l) then Min(0, Min(1 + LowInner(l), Sum(l))) else 0
  }

  function LowInner(l: Laid): int
    requires IsContainer(l)
    decreases l, 1
  {
    if l.Array? then Then(Dip(l.open), Rise(l.open), LowItems(l.items))
    else Then(Dip(l.open), Rise(l.open), LowFields(l.fields))
  }

  // The lowest of a stretch that gets down to `low` and ends at `end`, with another one behind it.
  function Then(low: int, end: int, next: int): int {
    Min(low, end + next)
  }

  function LowItems(items: seq<LaidItem>): int
    decreases items, 0
  {
    if items == [] then 0
    else
      var v, tail := items[0].value, items[0].tail;
      Then(Low(v), Sum(v), Then(Dip(tail), Rise(tail), LowItems(items[1..])))
  }

  function LowFields(fields: seq<LaidField>): int
    decreases fields, 0
  {
    if fields == [] then 0
    else
      var f := fields[0];
      Then(Dip(f.gap), Rise(f.gap), Then(Dip(f.lead), Rise(f.lead),
        Then(Low(f.value), Sum(f.value), Then(Dip(f.tail), Rise(f.tail), LowFields(fields[1..])))))
  }

  // Between the brackets, quotes pair up, and outside strings no more brackets are closed than opened, and as many.
  predicate Captured(l: Laid) {
    IsContainer(l) ==> Paired(Inner(l)) && Dip(Inner(l)) == 0 && Rise(Inner(l)) == 0
  }

  // `t` is a stretch of that shape.
  predicate Runs(t: string, low: int, end: int) {
    Paired(t) && Rise(t) == end && Dip(t) == low
  }

  lemma RunsJoin(a: string, lowA: int, endA: int, b: string, lowB: int, endB: int)
    requires Runs(a, lowA, endA) && Runs(b, lowB, endB)
    ensures Runs(a + b, Then(lowA, endA, lowB), endA + endB)
  {
    RiseSplit(a, b);
  }

  lemma RunsItself(t: string)
    requires Paired(t)
    ensures Runs(t, Dip(t), Rise(t))
  {}

  lemma RunsBrackets(l: char, inner: string, low: int, end: int, r: char)
    requires IsOpen(l) && IsClose(r) && Runs(inner, low, end)
    ensures Runs([l] + inner + [r], Min(0, Min(1 + low, end)), end)
  {
    RunsOne(l);
    RunsOne(r);
    RunsJoin([l], 0, 1, inner, low, end);
    RunsJoin([l] + inner, Then(0, 1, low), 1 + end, [r], -1, -1);
  }

  lemma RunsOne(c: char)
    requires c != '"'
    ensures Runs([c], Min(0, Change(c)), Change(c))
  {
    assert [c][1..] == "";
  }

  lemma {:induction false} LaidRuns(l: Laid)
    requires Legible(l)
    ensures Runs(LaidText(l), Low(l), Sum(l))
    decreases l, 2
  {
    hide Runs;
    match l
    case Primitive(t) => PrimitiveIsFlat(t);
    case Str(b) => StringRuns(b);
    case _ =>
      InnerRuns(l);
      RunsBrackets(Opening(l), Inner(l), LowInner(l), Sum(l), Closing(l));
      Bracketed(l);
  }

  lemma StringRuns(b: string)
    requires IsBody(b)
    ensures Runs(InQuotes(b), 0, 0)
  {
    BodyIsFlat(b);
  }

  lemma PrimitiveIsFlat(t: string)
    requires IsPrimitive(t) && Paired(t)
    ensures Runs(t, 0, 0)
  {
    FlatText(t);
  }

  lemma {:induction false} FlatText(t: string)
    requires Paired(t) && forall i :: 0 <= i < |t| ==> !IsOpen(t[i]) && !IsClose(t[i])
    ensures Rise(t) == 0 && Dip(t) == 0
    decreases |t|
  {
    if t != "" { FlatText(if t[0] == '"' then t[QuoteLength(t)..] else t[1..]); }
  }

  lemma {:induction false} InnerRuns(l: Laid)
    requires IsContainer(l) && Legible(l)
    ensures Runs(Inner(l), LowInner(l), Sum(l))
    decreases l, 1
  {
    hide Runs;
    RunsItself(l.open);
    if l.Array? {
      ItemsRun(l.items);
      RunsJoin(l.open, Dip(l.open), Rise(l.open), ItemsText(l.items), LowItems(l.items), SumItems(l.items));
    } else {
      FieldsRun(l.fields);
      RunsJoin(l.open, Dip(l.open), Rise(l.open), LaidFieldsText(l.fields), LowFields(l.fields), SumFields(l.fields));
    }
  }

  lemma RunsNothing()
    ensures Runs("", 0, 0)
  {}

  lemma {:induction false} ItemsRun(items: seq<LaidItem>)
    requires LegibleItems(items)
    ensures Runs(ItemsText(items), LowItems(items), SumItems(items))
    decreases items, 0
  {
    hide Runs;
    if items == [] {
      RunsNothing();
    } else {
      var v, tail, more := items[0].value, items[0].tail, items[1..];
      LaidRuns(v);
      RunsItself(tail);
      ItemsRun(more);
      RunsJoin(tail, Dip(tail), Rise(tail), ItemsText(more), LowItems(more), SumItems(more));
      RunsJoin(LaidText(v), Low(v), Sum(v), tail + ItemsText(more), Then(Dip(tail), Rise(tail), LowItems(more)),
               Rise(tail) + SumItems(more));
      Assoc(LaidText(v), tail, ItemsText(more));
    }
  }

  lemma {:induction false} FieldsRun(fields: seq<LaidField>)
    requires LegibleFields(fields)
    ensures Runs(LaidFieldsText(fields), LowFields(fields), SumFields(fields))
    decreases fields, 0
  {
    hide Runs;
    if fields == [] {
      RunsNothing();
    } else {
      var f, more := fields[0], LaidFieldsText(fields[1..]);
      LaidRuns(f.value);
      FieldsRun(fields[1..]);
      RunsItself(f.tail);
      RunsItself(f.lead);
      RunsItself(f.gap);
      StringRuns(f.key);
      RunsOne(':');
      var low, end := LowFields(fields[1..]), SumFields(fields[1..]);
      RunsJoin(f.tail, Dip(f.tail), Rise(f.tail), more, low, end);
      low, end := Then(Dip(f.tail), Rise(f.tail), low), Rise(f.tail) + end;
      RunsJoin(LaidText(f.value), Low(f.value), Sum(f.value), f.tail + more, low, end);
      low, end := Then(Low(f.value), Sum(f.value), low), Sum(f.value) + end;
      RunsJoin(f.lead, Dip(f.lead), Rise(f.lead), LaidText(f.value) + (f.tail + more), low, end);
      low, end := Then(Dip(f.lead), Rise(f.lead), low), Rise(f.lead) + end;
      RunsColon(f.lead + (LaidText(f.value) + (f.tail + more)), low, end);
      RunsJoin(f.gap, Dip(f.gap), Rise(f.gap), ":" + (f.lead + (LaidText(f.value) + (f.tail + more))), low, end);
      low, end := Then(Dip(f.gap), Rise(f.gap), low), Rise(f.gap) + end;
      RunsString(InQuotes(f.key), f.gap + (":" + (f.lead + (LaidText(f.value) + (f.tail + more)))), low, end);
      FieldPieces(InQuotes(f.key), f.gap, f.lead, LaidText(f.value), f.tail, more);
    }
  }

  lemma FieldPieces(key: string, gap: string, lead: string, value: string, tail: string, more: string)
    ensures key + gap + ":" + lead + value + tail + more == key + (gap + (":" + (lead + (value + (tail + more)))))
  {}

  lemma RunsColon(t: string, low: int, end: int)
    requires Runs(t, low, end)
    ensures Runs(":" + t, low, end)
  {
    RunsOne(':');
    RunsJoin(":", 0, 0, t, low, end);
  }

  lemma RunsString(q: string, t: string, low: int, end: int)
    requires Runs(q, 0, 0) && Runs(t, low, end)
    ensures Runs(q + t, low, end)
  {
    RunsJoin(q, 0, 0, t, low, end);
  }

  // Scanning for a closing bracket passes over a whole value, unless the fillers close more than is open.
  lemma CloseLaid(l: Laid, rest: string, depth: nat)
    requires Legible(l) && depth >= 1
    ensures depth + Low(l) > 0 ==>
      depth + Sum(l) > 0 && CloseLength(LaidText(l) + rest, depth) == |LaidText(l)| + CloseLength(rest, depth + Sum(l))
    ensures depth + Low(l) <= 0 ==> CloseLength(LaidText(l) + rest, depth) <= |LaidText(l)|
  {
    LaidRuns(l);
    ClosePaired(LaidText(l), rest, depth);
  }

  // If quotes pair up where they stand, it is the brackets in the fillers that count.
  lemma CapturedIs(l: Laid)
    requires Legible(l) && IsContainer(l)
    ensures Captured(l) <==> LowInner(l) == 0 && Sum(l) == 0
  {
    InnerRuns(l);
  }

  // Whatever stands in comments: the captured block is the value's own text exactly if what is between its brackets
  // is balanced, or nothing follows and it never closes more than is open.
  lemma BlockIsText(l: Laid, rest: string)
    requires IsContainer(l)
    ensures LaidText(l) != "" && IsOpen(LaidText(l)[0])
    ensures BlockLength(LaidText(l) + rest) == |LaidText(l)| <==> Captured(l) || (rest == "" && Dip(Inner(l)) == 0)
  {
    hide Inner, Opening, Closing, LaidText;
    Bracketed(l);
    BlockExactly(Opening(l), Inner(l), Closing(l), rest);
  }

  // One quote in a comment makes a string of everything up to the next quote; what comes behind that is taken for
  // structure, be it the inside of a string.
  lemma LoneQuote(l: Laid, a: string, b: string, c: string, rest: string)
    requires IsContainer(l) && Inner(l) == a + InQuotes(b) + c && Paired(a) && Dip(a) == 0 && IsBody(b)
    ensures LaidText(l) != "" && IsOpen(LaidText(l)[0])
    ensures BlockLength(LaidText(l) + rest)
      == 1 + |a| + |InQuotes(b)| + CloseLength(c + [Closing(l)] + rest, 1 + Rise(a))
  {
    hide LaidText, Inner, Opening, Closing, CloseLength, BlockLength, InQuotes, IsOpen, IsClose, BodyLength;
    Bracketed(l);
    StringSkipped(a, b);
    LoneText(Opening(l), a, InQuotes(b), c, Closing(l), rest);
  }

  lemma LoneText(l: char, a: string, q: string, c: string, r: char, rest: string)
    requires IsOpen(l) && Paired(a + q) && Dip(a + q) == 0
    ensures BlockLength([l] + (a + q + c) + [r] + rest) == 1 + |a| + |q| + CloseLength(c + [r] + rest, 1 + Rise(a + q))
  {
    ClosePaired(a + q, c + [r] + rest, 1);
    BlockOpens(l, a + q + c, r, rest);
    LonePieces(a, q, c, [r], rest);
  }

  lemma StringSkipped(a: string, b: string)
    requires Paired(a) && Dip(a) == 0 && IsBody(b)
    ensures Paired(a + InQuotes(b)) && Dip(a + InQuotes(b)) == 0 && Rise(a + InQuotes(b)) == Rise(a)
  {
    BodyIsFlat(b);
    RiseSplit(a, InQuotes(b));
  }

  lemma LonePieces(a: string, q: string, c: string, r: string, rest: string)
    ensures a + q + c + (r + rest) == a + q + (c + r + rest)
  {}

  // If there is no next quote the block runs to the end of the text.
  lemma LastQuote(l: Laid, a: string, u: string, rest: string)
    requires IsContainer(l) && Inner(l) == a + "\"" + u && Paired(a) && Dip(a) == 0
    requires BodyLength(u + [Closing(l)] + rest) == |u + [Closing(l)] + rest|
    ensures LaidText(l) != "" && IsOpen(LaidText(l)[0])
    ensures BlockLength(LaidText(l) + rest) == |LaidText(l) + rest|
  {
    hide LaidText, Inner, Paired;
    Bracketed(l);
    var v := u + [Closing(l)] + rest;
    var q := "\"" + v;
    assert q[1..] == v && q[|q|..] == "";
    CloseLoneQuote(a, v, 1);
    BlockOpens(Opening(l), Inner(l), Closing(l), rest);
    LonePieces(a, "\"", u, [Closing(l)], rest);
    Assoc(a, "\"", v);
  }

  // ---- layouts without quotes or brackets between tokens: always captured right

  predicate Tidy(l: Laid)
    decreases l, 1
  {
    match l
    case Primitive(t) => IsPrimitive(t) && NoBrackets(t)
    case Str(b) => IsBody(b)
    case Array(open, items) => NoBrackets(open) && TidyItems(items)
    case Object(open, fields) => NoBrackets(open) && TidyFields(fields)
  }

  predicate TidyItems(items: seq<LaidItem>)
    decreases items, 0
  {
    items == [] || (Tidy(items[0].value) && NoBrackets(items[0].tail) && TidyItems(items[1..]))
  }

  predicate TidyField(f: LaidField)
    decreases f, 2
  {
    IsBody(f.key) && NoBrackets(f.gap) && NoBrackets(f.lead) && Tidy(f.value) && NoBrackets(f.tail)
  }

  predicate TidyFields(fields: seq<LaidField>)
    decreases fields, 0
  {
    fields == [] || (TidyField(fields[0]) && TidyFields(fields[1..]))
  }

  lemma {:induction false} TidyIsCaptured(l: Laid)
    requires Tidy(l)
    ensures Legible(l) && Sum(l) == 0 && Low(l) == 0 && Captured(l)
    decreases l, 1
  {
    hide Captured;
    if !IsContainer(l) {
      if l.Primitive? { NoBracketsIsFlat(l.text); }
      ScalarCaptured(l);
    } else {
      NoBracketsIsFlat(l.open);
      if l.Array? { TidyItemsCaptured(l.items); } else { TidyFieldsCaptured(l.fields); }
      assert LowInner(l) == 0 && Sum(l) == 0;
      CapturedIs(l);
    }
  }

  lemma ScalarCaptured(l: Laid)
    requires !IsContainer(l)
    ensures Captured(l)
  {}

  lemma {:induction false} TidyItemsCaptured(items: seq<LaidItem>)
    requires TidyItems(items)
    ensures LegibleItems(items) && SumItems(items) == 0 && LowItems(items) == 0
    decreases items, 0
  {
    if items != [] {
      TidyIsCaptured(items[0].value);
      NoBracketsIsFlat(items[0].tail);
      TidyItemsCaptured(items[1..]);
    }
  }

  lemma {:induction false} TidyFieldsCaptured(fields: seq<LaidField>)
    requires TidyFields(fields)
    ensures LegibleFields(fields) && SumFields(fields) == 0 && LowFields(fields) == 0
    decreases fields, 0
  {
    if fields != [] {
      var f := fields[0];
      TidyIsCaptured(f.value);
      NoBracketsIsFlat(f.gap);
      NoBracketsIsFlat(f.lead);
      NoBracketsIsFlat(f.tail);
      TidyFieldsCaptured(fields[1..]);
    }
  }

  // ---- the compact layout of a value

  predicate IsScalar(j: Json) {
    !j.JArr? && !j.JObj?
  }

  function Compact(j: Json): Laid
    decreases j, 1
  {
    match j
    case JStr(s) => Str(Escape(s))
    case JArr(elems) => Array("", CompactItems(elems))
    case JObj(fields) => Object("", CompactFields(fields))
    case _ => Primitive(Text(j))
  }

  function CompactItems(elems: seq<Json>): seq<LaidItem>
    decreases elems, 0
  {
    if elems == [] then [] else [LaidItem(Compact(elems[0]), Separator(|elems| == 1))] + CompactItems(elems[1..])
  }

  function CompactFields(fields: seq<Field>): seq<LaidField>
    decreases fields, 0
  {
    if fields == [] then []
    else
      [LaidField(Escape(fields[0].key), "", "", Compact(fields[0].value), Separator(|fields| == 1))]
      + CompactFields(fields[1..])
  }

  // Neither a delimiter, nor whitespace, nor the beginning of a comment.
  predicate IsPlainText(s: string) {
    forall i :: 0 <= i < |s| ==> !IsStructural(s[i]) && !IsSpace(s[i]) && s[i] != '/'
  }

  lemma ScalarText(j: Json)
    requires IsScalar(j) && !j.JStr?
    ensures Text(j) != "" && IsPlainText(Text(j))
  {
    if j.JInt? { IntIsPlain(j.n); }
  }

  lemma IntIsPlain(n: int)
    ensures IntText(n) != "" && IsPlainText(IntText(n))
  {
    DecimalIsCanonical(if n < 0 then -n else n);
    DigitsArePlain(Decimal(if n < 0 then -n else n));
  }

  lemma DigitsArePlain(d: string)
    requires AllDigits(d)
    ensures IsPlainText(d) && IsPlainText("-" + d)
  {
    assert forall i :: 0 <= i < |d| ==> IsDigit(d[i]);
  }

  lemma PlainIsPrimitive(t: string)
    requires t != "" && IsPlainText(t)
    ensures IsPrimitive(t) && NoBrackets(t)
  {}

  lemma SeparatorIsFiller(last: bool)
    ensures IsFiller(Separator(last)) && NoBrackets(Separator(last)) && IsGap("")
  {
    assert ","[1..] == "";
  }

  // The compact text is a layout of its value, in the normal form.
  lemma {:induction false} CompactText(j: Json)
    ensures LaidText(Compact(j)) == Text(j) && Bare(Compact(j)) == Compact(j)
    ensures WellLaid(Compact(j)) && Tidy(Compact(j))
    decreases j, 1
  {
    hide IsFiller, NoBrackets, IsPrimitive, IntText, BoolText, Quoted, InQuotes;
    SeparatorIsFiller(true);
    match j
    case JStr(s) => EscapeIsBody(s);
    case JArr(elems) =>
      CompactItemsText(elems);
      NothingBetween("[", ElemsText(elems), "]");
    case JObj(fields) =>
      CompactFieldsText(fields);
      NothingBetween("{", FieldsText(fields), "}");
    case _ =>
      ScalarText(j);
      PlainIsPrimitive(Text(j));
  }

  lemma NothingBetween(l: string, inner: string, r: string)
    ensures l + ("" + inner) + r == l + "" + inner + r == l + inner + r
  {}

  lemma {:induction false} CompactItemsText(elems: seq<Json>)
    ensures ItemsText(CompactItems(elems)) == ElemsText(elems) && BareItems(CompactItems(elems)) == CompactItems(elems)
    ensures WellItems(CompactItems(elems)) && TidyItems(CompactItems(elems))
    ensures CompactItems(elems) == [] <==> elems == []
    decreases elems, 0
  {
    hide IsFiller, NoBrackets, Bare, LaidText, IsPrimitive, IsBody, NeedsDelimiter, Text;
    if elems != [] {
      var last := |elems| == 1;
      CompactText(elems[0]);
      CompactItemsText(elems[1..]);
      SeparatorIsFiller(last);
      ItemsCons(LaidItem(Compact(elems[0]), Separator(last)), CompactItems(elems[1..]));
      CompactNeedsSeparator(elems[0]);
      assert Text(elems[0]) + "" == Text(elems[0]);
    }
  }

  lemma CompactNeedsSeparator(j: Json)
    ensures TailOk(Compact(j), Separator(true), true) && TailOk(Compact(j), Separator(false), false)
  {
    SeparatorIsFiller(true);
    SeparatorIsFiller(false);
  }

  lemma CompactField(f: Field, last: bool)
    requires LaidText(Compact(f.value)) == Text(f.value) && WellLaid(Compact(f.value)) && Tidy(Compact(f.value))
    ensures var g := LaidField(Escape(f.key), "", "", Compact(f.value), Separator(last));
      LaidFieldText(g) == FieldText(f) + g.tail && WellField(g, last) && TidyField(g)
  {
    hide IsFiller, NoBrackets, IsGap, TailOk;
    EscapeIsBody(f.key);
    SeparatorIsFiller(true);
    SeparatorIsFiller(last);
    CompactNeedsSeparator(f.value);
  }

  lemma {:induction false} CompactFieldsText(fields: seq<Field>)
    ensures LaidFieldsText(CompactFields(fields)) == FieldsText(fields)
    ensures BareFields(CompactFields(fields)) == CompactFields(fields)
    ensures WellFields(CompactFields(fields)) && TidyFields(CompactFields(fields))
    ensures CompactFields(fields) == [] <==> fields == []
    decreases fields, 0
  {
    hide WellField, TidyField;
    if fields != [] {
      var last := |fields| == 1;
      var f := LaidField(Escape(fields[0].key), "", "", Compact(fields[0].value), Separator(last));
      CompactText(fields[0].value);
      CompactField(fields[0], last);
      CompactFieldsText(fields[1..]);
      FieldsCons(f, CompactFields(fields[1..]));
      assert FieldText(fields[0]) + "" == FieldText(fields[0]);
    }
  }
}

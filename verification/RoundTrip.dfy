/** Parsing laid-out text: what the parser finds, whatever the layout, and what that leaves in the bindings. */
module RoundTrip {
  import opened Escaping
  import opened PrettyText
  import opened Paths
  import opened Scanning
  import opened Layouts
  import opened ParserSpec

  // ---- gaps and fillers are skipped

  lemma {:induction false} LineInside(a: string, s: string)
    requires LineLength(a) < |a|
    ensures LineLength(a + s) == LineLength(a)
  {
    assert (a + s)[0] == a[0] && (a + s)[1..] == a[1..] + s;
    if a[0] != '\n' { LineInside(a[1..], s); }
  }

  lemma {:induction false} CommentInside(a: string, s: string)
    requires HasCommentEnd(a)
    ensures HasCommentEnd(a + s) && BlockCommentLength(a + s) == BlockCommentLength(a)
  {
    assert (a + s)[0] == a[0] && (a + s)[1] == a[1] && (a + s)[1..] == a[1..] + s;
    if !(a[0] == '*' && a[1] == '/') { CommentInside(a[1..], s); }
  }

  // One turn of skipping stays inside the gap.
  lemma TurnInside(g: string, commas: bool, s: string)
    requires IsSkipped(g, commas) && g != "" && g[0] != ','
    ensures 0 < SkipOne(g) <= |g| && SkipOne(g + s) == SkipOne(g) && IsSkipped(g[SkipOne(g)..], commas)
    ensures (g + s)[SkipOne(g)..] == g[SkipOne(g)..] + s
  {
    if !IsSpace(g[0]) {
      if g[1] == '/' { LineTurn(g, s); } else { CommentTurn(g, s); }
    }
  }

  lemma LineTurn(g: string, s: string)
    requires |g| > 1 && g[0] == '/' && g[1] == '/' && LineLength(g[2..]) < |g[2..]|
    ensures SkipOne(g + s) == SkipOne(g) == 2 + LineLength(g[2..])
  {
    assert (g + s)[2..] == g[2..] + s;
    LineInside(g[2..], s);
  }

  lemma CommentTurn(g: string, s: string)
    requires |g| > 1 && g[0] == '/' && g[1] == '*' && HasCommentEnd(g[2..])
    ensures SkipOne(g + s) == SkipOne(g) == 2 + BlockCommentLength(g[2..])
  {
    assert (g + s)[2..] == g[2..] + s;
    CommentInside(g[2..], s);
  }

  lemma {:induction false} SkippedGap(g: string, s: string)
    requires IsGap(g)
    ensures Skipped(g + s) == Skipped(s)
    decreases |g|
  {
    if g == "" {
      assert g + s == s;
    } else {
      TurnInside(g, false, s);
      SkippedTurn(g + s);
      SkippedGap(g[SkipOne(g)..], s);
    }
  }

  // What gaps there are: whitespace, comments that end, and these in a row; in fillers commas, too.
  lemma SpaceIsGap(c: char)
    requires c as int in {0x20, 0x09, 0x0A, 0x0D}
    ensures IsGap([c])
  {
    assert [c][1..] == "";
  }

  lemma CommaIsFiller()
    ensures IsFiller(",")
  {
    assert ","[1..] == "";
  }

  lemma {:induction false} LineEnd(t: string)
    requires forall i :: 0 <= i < |t| ==> t[i] != '\n'
    ensures LineLength(t + "\n") == |t|
  {
    var u := t + "\n";
    if t != "" {
      assert u[1..] == t[1..] + "\n";
      LineEnd(t[1..]);
    }
  }

  lemma LineCommentIsGap(t: string)
    requires forall i :: 0 <= i < |t| ==> t[i] != '\n'
    ensures IsGap("//" + t + "\n")
  {
    LineEnd(t);
    var g := "//" + t + "\n";
    assert g[2..] == t + "\n";
    assert g[2 + |t|..] == "\n" && "\n"[1..] == "";
    assert IsSkipped("\n", false);
  }

  predicate NoCommentEnd(t: string) {
    forall i :: 0 <= i < |t| - 1 ==> t[i] != '*' || t[i + 1] != '/'
  }

  lemma {:induction false} CommentEnd(t: string)
    requires NoCommentEnd(t)
    ensures HasCommentEnd(t + "*/") && BlockCommentLength(t + "*/") == |t| + 2
  {
    var u := t + "*/";
    if t != "" {
      assert u[1..] == t[1..] + "*/" && u[0] == t[0];
      assert u[1] == if |t| > 1 then t[1] else '*';
      CommentEnd(t[1..]);
    }
  }

  lemma BlockCommentIsGap(t: string)
    requires NoCommentEnd(t)
    ensures IsGap("/*" + t + "*/")
  {
    CommentEnd(t);
    var g := "/*" + t + "*/";
    assert g[2..] == t + "*/" && g[2 + |t| + 2..] == "";
  }

  // A comment that does not end reaches to the end of the text.
  lemma {:induction false} NoLineEnd(t: string)
    requires forall i :: 0 <= i < |t| ==> t[i] != '\n'
    ensures LineLength(t) == |t|
  {
    if t != "" { NoLineEnd(t[1..]); }
  }

  lemma {:induction false} NoEnd(t: string)
    requires NoCommentEnd(t)
    ensures BlockCommentLength(t) == |t|
  {
    if |t| >= 2 { NoEnd(t[1..]); }
  }

  lemma OpenLineComment(t: string)
    requires forall i :: 0 <= i < |t| ==> t[i] != '\n'
    ensures Skipped("//" + t) == ""
  {
    var s := "//" + t;
    NoLineEnd(t);
    assert s[2..] == t;
    SkippedTurn(s);
    assert SkipOne(s) == |s|;
  }

  lemma OpenBlockComment(t: string)
    requires NoCommentEnd(t)
    ensures Skipped("/*" + t) == ""
  {
    var s := "/*" + t;
    NoEnd(t);
    assert s[2..] == t;
    SkippedTurn(s);
    assert SkipOne(s) == |s|;
  }

  lemma OpenComments(t: string)
    ensures (forall i :: 0 <= i < |t| ==> t[i] != '\n') ==> Skipped("//" + t) == ""
    ensures NoCommentEnd(t) ==> Skipped("/*" + t) == ""
  {
    if forall i :: 0 <= i < |t| ==> t[i] != '\n' { OpenLineComment(t); }
    if NoCommentEnd(t) { OpenBlockComment(t); }
  }

  lemma {:induction false} GapJoin(a: string, b: string, commas: bool)
    requires IsSkipped(a, commas) && IsSkipped(b, commas)
    ensures IsSkipped(a + b, commas)
    decreases |a|
  {
    if a == "" {
      assert a + b == b;
    } else if a[0] == ',' {
      assert (a + b)[0] == ',' && (a + b)[1..] == a[1..] + b;
      GapJoin(a[1..], b, commas);
    } else {
      TurnInside(a, commas, b);
      GapJoin(a[SkipOne(a)..], b, commas);
      TurnJoin(a, b, commas);
    }
  }

  lemma TurnJoin(a: string, b: string, commas: bool)
    requires IsSkipped(a, commas) && a != "" && a[0] != ','
    requires 0 < SkipOne(a) <= |a| && IsSkipped((a + b)[SkipOne(a)..], commas)
    ensures IsSkipped(a + b, commas)
  {
    var g := a + b;
    assert g[0] == a[0];
    if !IsSpace(a[0]) {
      assert g[1] == a[1] && g[2..] == a[2..] + b;
      if a[1] == '/' { LineInside(a[2..], b); } else { CommentInside(a[2..], b); }
    }
  }

  lemma {:induction false} GapIsFiller(g: string)
    requires IsGap(g)
    ensures IsFiller(g)
    decreases |g|
  {
    if g != "" {
      TurnInside(g, false, "");
      GapIsFiller(g[SkipOne(g)..]);
    }
  }

  lemma RunSame(s: string, t: string, path: Path, key: string)
    requires Skipped(s) == Skipped(t)
    ensures Run(s, path, key) == Run(t, path, key)
  {}

  lemma {:induction false} RunFiller(f: string, s: string, path: Path, key: string)
    requires IsFiller(f)
    ensures Run(f + s, path, key) == Run(s, path, key)
    decreases |f|
  {
    if f == "" {
      assert f + s == s;
    } else if f[0] == ',' {
      assert (f + s)[0] == ',' && (f + s)[1..] == f[1..] + s;
      RunComma(f + s, path, key);
      RunFiller(f[1..], s, path, key);
    } else {
      TurnInside(f, true, s);
      SkippedTurn(f + s);
      RunSame(f + s, f[SkipOne(f)..] + s, path, key);
      RunFiller(f[SkipOne(f)..], s, path, key);
    }
  }

  lemma RunComma(t: string, path: Path, key: string)
    requires t != "" && t[0] in {',', ']'}
    ensures Run(t, path, key) == Run(t[1..], path, key)
  {
    hide Run;
    RunSkipped(t, path, key);
  }

  // Nothing, or a token that is not a colon, with nothing to skip before it.
  predicate AtToken(s: string) {
    Skipped(s) == s && !AtColon(s)
  }

  // No colon comes up behind a filler that runs into another token.
  lemma {:induction false} FillerThenToken(f: string, s: string)
    requires IsFiller(f) && AtToken(s)
    ensures !AtColon(Skipped(f + s))
    decreases |f|
  {
    hide Skipped, AtColon;
    if f == "" {
      assert f + s == s;
    } else if f[0] == ',' {
      CommaIsToken(f + s);
    } else {
      TurnInside(f, true, s);
      SkippedTurn(f + s);
      FillerThenToken(f[SkipOne(f)..], s);
    }
  }

  lemma CommaIsToken(t: string)
    requires t != "" && t[0] == ','
    ensures !AtColon(Skipped(t))
  {
    SkippedToken(t);
  }

  // ---- what is found in a laid-out value

  function ScalarEvent(q: Path, l: Laid): Event
    requires !IsContainer(l)
  {
    if l.Str? then StringEvent(q, l.body) else PrimitiveEvent(q, l.text)
  }

  // The open keys inside an object.
  function Held(p: Path, key: string): Path {
    if key != "" then p + [key] else p
  }

  // The open keys behind a value: a closing brace takes one off whether or not its opening one has put one there.
  function Behind(l: Laid, p: Path, key: string): Path
    decreases l, 1
  {
    match l
    case Array(_, items) => BehindItems(items, p)
    case Object(_, fields) => Pop(BehindFields(fields, Held(p, key)))
    case _ => p
  }

  function BehindItems(items: seq<LaidItem>, p: Path): Path
    decreases items, 0
  {
    if items == [] then p else BehindItems(items[1..], Behind(items[0].value, p, ""))
  }

  function BehindFields(fields: seq<LaidField>, p: Path): Path
    decreases fields, 0
  {
    if fields == [] then p else BehindFields(fields[1..], Behind(fields[0].value, p, fields[0].key))
  }

  // `l` stands under `key` below the open keys `p`, and `rest` follows it.
  function Found(l: Laid, p: Path, key: string, rest: string): seq<Event>
    decreases l, 1
  {
    match l
    case Array(_, items) => [OwnBlock(l, p + [key], rest)] + FoundItems(items, p, "]" + rest)
    case Object(_, fields) => [OwnBlock(l, p + [key], rest)] + FoundFields(fields, Held(p, key), "}" + rest)
    case _ => [ScalarEvent(p + [key], l)]
  }

  function OwnBlock(l: Laid, q: Path, rest: string): Event
    requires IsContainer(l)
  {
    Bracketed(l);
    BlockEvent(q, LaidText(l) + rest)
  }

  function FoundItems(items: seq<LaidItem>, p: Path, rest: string): seq<Event>
    decreases items, 0
  {
    if items == [] then []
    else
      Found(items[0].value, p, "", items[0].tail + (ItemsText(items[1..]) + rest))
      + FoundItems(items[1..], Behind(items[0].value, p, ""), rest)
  }

  // Keys are found as they are written, escapes and all.
  function FoundFields(fields: seq<LaidField>, p: Path, rest: string): seq<Event>
    decreases fields, 0
  {
    if fields == [] then []
    else
      Found(fields[0].value, p, fields[0].key, fields[0].tail + (LaidFieldsText(fields[1..]) + rest))
      + FoundFields(fields[1..], Behind(fields[0].value, p, fields[0].key), rest)
  }

  // What follows a value so that the parser sees where it ends.
  predicate Ends(l: Laid, rest: string) {
    (NeedsDelimiter(l) ==> rest == "" || IsPrimitiveDelim(rest[0])) && (l.Str? ==> !AtColon(Skipped(rest)))
  }

  // A primitive and what ends it are not the beginning of a comment.
  lemma PrimitiveIsToken(t: string, rest: string)
    requires IsPrimitive(t) && (rest == "" || IsPrimitiveDelim(rest[0]))
    ensures t + rest != "" && AtToken(t + rest) && PrimitiveLength(t + rest) == |t|
  {
    PrimitiveOfText(t, rest);
    assert (t + rest)[0] == t[0] && (|t| > 1 ==> (t + rest)[1] == t[1]);
    SkippedTurn(t + rest);
  }

  lemma RunPrimitiveText(t: string, rest: string, p: Path, key: string)
    requires IsPrimitive(t) && (rest == "" || IsPrimitiveDelim(rest[0]))
    ensures Run(t + rest, p, key) == [PrimitiveEvent(p + [key], t)] + Run(rest, p, "")
  {
    hide Run, PrimitiveEvent;
    PrimitiveIsToken(t, rest);
    assert (t + rest)[0] == t[0];
    RunPrimitive(t + rest, p, key);
    assert (t + rest)[..|t|] == t && (t + rest)[|t|..] == rest;
  }

  lemma StringToken(b: string, rest: string)
    requires IsBody(b)
    ensures StringBody(InQuotes(b) + rest) == b && AfterString(InQuotes(b) + rest) == Skipped(rest)
  {
    var t := InQuotes(b) + rest;
    assert t[1..] == b + "\"" + rest;
    BodyThenQuote(b, rest);
    QuoteOfBody(b, rest);
    assert t[|InQuotes(b)|..] == rest;
  }

  lemma RunStringText(b: string, rest: string, p: Path, key: string)
    requires IsBody(b) && !AtColon(Skipped(rest))
    ensures Run(InQuotes(b) + rest, p, key) == [StringEvent(p + [key], b)] + Run(rest, p, "")
  {
    StringToken(b, rest);
    RunString(InQuotes(b) + rest, p, key);
    SkippedTwice(rest);
    RunSame(rest, Skipped(rest), p, "");
  }

  // A key, its gaps and the colon.
  lemma RunKeyText(k: string, gap: string, lead: string, rest: string, p: Path, key: string)
    requires IsBody(k) && IsGap(gap) && IsFiller(lead)
    ensures Run(InQuotes(k) + gap + ":" + lead + rest, p, key) == Run(rest, p, k)
  {
    hide IsBody, IsGap, IsFiller, InQuotes, Skipped, StringBody, AfterString;
    var q, after := InQuotes(k), ":" + (lead + rest);
    KeyPieces(q, gap, lead, rest);
    StringToken(k, gap + after);
    SkippedGap(gap, after);
    SkippedToken(after);
    QuotedBegins(k, gap + after);
    RunString(q + (gap + after), p, key);
    assert after[1..] == lead + rest;
    RunFiller(lead, rest, p, k);
  }

  lemma KeyPieces(q: string, gap: string, lead: string, rest: string)
    ensures q + gap + ":" + lead + rest == q + (gap + (":" + (lead + rest)))
  {}

  lemma QuotedBegins(k: string, rest: string)
    ensures InQuotes(k) + rest != "" && (InQuotes(k) + rest)[0] == '"'
  {}

  lemma RunCloseObject(rest: string, p: Path)
    ensures Run("}" + rest, p, "") == Run(rest, Pop(p), "")
  {
    hide Run;
    var t := "}" + rest;
    assert t[0] == '}' && t[1..] == rest;
    RunSkipped(t, p, "");
  }

  lemma RunBracketed(l: Laid, rest: string, p: Path, key: string)
    requires IsContainer(l)
    ensures Run(LaidText(l) + rest, p, key)
      == [OwnBlock(l, p + [key], rest)]
         + Run(Inner(l) + ([Closing(l)] + rest), if l.Object? then Held(p, key) else p, "")
  {
    hide BlockEvent, Skipped, Run, LaidText, Inner;
    Bracketed(l);
    var t := LaidText(l) + rest;
    assert t[0] == Opening(l) == (if l.Object? then '{' else '[');
    BracketedText(Opening(l), Inner(l), Closing(l), rest);
    RunBlock(t, p, key);
  }

  lemma BracketedText(l: char, inner: string, r: char, rest: string)
    ensures ([l] + inner + [r] + rest)[1..] == inner + ([r] + rest) && ([l] + inner + [r] + rest)[0] == l
  {}

  // What follows a value inside its container ends it.
  lemma TailEnds(l: Laid, tail: string, last: bool, more: string)
    requires TailOk(l, tail, last) && AtToken(more) && (last ==> more == "" || IsClose(more[0]))
    ensures Ends(l, tail + more)
  {
    if tail == "" {
      assert tail + more == more;
    }
    FillerThenToken(tail, more);
  }

  // The parser finds in a laid-out value exactly what is in it.
  lemma {:induction false} RunLaid(l: Laid, p: Path, key: string, rest: string)
    requires WellLaid(l) && Ends(l, rest)
    ensures Run(LaidText(l) + rest, p, key) == Found(l, p, key, rest) + Run(rest, Behind(l, p, key), "")
    decreases l, 1
  {
    match l
    case Primitive(t) => RunPrimitiveText(t, rest, p, key);
    case Str(b) => RunStringText(b, rest, p, key);
    case Array(_, _) => RunArray(l, p, key, rest);
    case Object(_, _) => RunObject(l, p, key, rest);
  }

  lemma {:induction false} RunArray(l: Laid, p: Path, key: string, rest: string)
    requires l.Array? && IsFiller(l.open) && WellItems(l.items)
    ensures Run(LaidText(l) + rest, p, key) == Found(l, p, key, rest) + Run(rest, Behind(l, p, key), "")
    decreases l, 0
  {
    hide BlockEvent, OwnBlock, Skipped, IsFiller;
    var tail := "]" + rest;
    RunBracketed(l, rest, p, key);
    assert Inner(l) + tail == l.open + (ItemsText(l.items) + tail);
    RunFiller(l.open, ItemsText(l.items) + tail, p, "");
    RunItems(l.items, p, tail);
    var q := BehindItems(l.items, p);
    RunComma(tail, q, "");
    assert tail[1..] == rest;
    Flatten(OwnBlock(l, p + [key], rest), FoundItems(l.items, p, tail), Run(rest, q, ""));
  }

  lemma {:induction false} RunObject(l: Laid, p: Path, key: string, rest: string)
    requires l.Object? && IsFiller(l.open) && WellFields(l.fields)
    ensures Run(LaidText(l) + rest, p, key) == Found(l, p, key, rest) + Run(rest, Behind(l, p, key), "")
    decreases l, 0
  {
    hide BlockEvent, OwnBlock, Skipped, IsFiller, Inner;
    var tail, q := "}" + rest, Held(p, key);
    RunBracketed(l, rest, p, key);
    RunInside(l, q, tail);
    RunCloseObject(rest, BehindFields(l.fields, q));
    Flatten(OwnBlock(l, p + [key], rest), FoundFields(l.fields, q, tail), Run(rest, Behind(l, p, key), ""));
  }

  // Between the braces of an object.
  lemma {:induction false} RunInside(l: Laid, q: Path, tail: string)
    requires l.Object? && IsFiller(l.open) && WellFields(l.fields)
    requires tail != "" && IsClose(tail[0])
    ensures Run(Inner(l) + tail, q, "") == FoundFields(l.fields, q, tail) + Run(tail, BehindFields(l.fields, q), "")
    decreases l.fields, 1
  {
    hide IsFiller, Skipped;
    assert Inner(l) + tail == l.open + (LaidFieldsText(l.fields) + tail);
    RunFiller(l.open, LaidFieldsText(l.fields) + tail, q, "");
    RunFields(l.fields, q, tail);
  }

  lemma Flatten(e: Event, a: seq<Event>, b: seq<Event>)
    ensures [e] + (a + b) == ([e] + a) + b
  {}

  lemma {:induction false} RunItem(it: LaidItem, last: bool, p: Path, more: string)
    requires WellLaid(it.value) && TailOk(it.value, it.tail, last)
    requires AtToken(more) && (last ==> more == "" || IsClose(more[0]))
    ensures Run(LaidText(it.value) + it.tail + more, p, "")
      == Found(it.value, p, "", it.tail + more) + Run(more, Behind(it.value, p, ""), "")
    decreases it, 2
  {
    hide Ends, TailOk, AtToken, IsFiller;
    TailIsFiller(it.value, it.tail, last);
    Assoc(LaidText(it.value), it.tail, more);
    TailEnds(it.value, it.tail, last, more);
    RunLaid(it.value, p, "", it.tail + more);
    RunFiller(it.tail, more, Behind(it.value, p, ""), "");
  }

  lemma {:induction false} RunItems(items: seq<LaidItem>, p: Path, rest: string)
    requires WellItems(items) && rest != "" && IsClose(rest[0])
    ensures Run(ItemsText(items) + rest, p, "") == FoundItems(items, p, rest) + Run(rest, BehindItems(items, p), "")
    decreases items, 0
  {
    hide Ends, TailOk, AtToken, IsFiller, Run, Found;
    if items == [] {
      assert "" + rest == rest;
    } else {
      var more := ItemsText(items[1..]) + rest;
      Assoc(LaidText(items[0].value) + items[0].tail, ItemsText(items[1..]), rest);
      ItemsBegin(items[1..], rest);
      RunItem(items[0], |items| == 1, p, more);
      RunItems(items[1..], Behind(items[0].value, p, ""), rest);
    }
  }

  lemma TailIsFiller(l: Laid, tail: string, last: bool)
    requires TailOk(l, tail, last)
    ensures IsFiller(tail)
  {}

  // The text of further items begins with a token.
  lemma ItemsBegin(items: seq<LaidItem>, rest: string)
    requires WellItems(items) && rest != "" && IsClose(rest[0])
    ensures AtToken(ItemsText(items) + rest)
    ensures items == [] ==> ItemsText(items) + rest == rest
  {
    if items == [] {
      SkippedToken(rest);
    } else {
      var it, more := items[0], ItemsText(items[1..]) + rest;
      Assoc3(LaidText(it.value), it.tail, ItemsText(items[1..]), rest);
      TailDelimits(it, items[1..], rest);
      LaidBegins(it.value, it.tail + more);
    }
  }

  lemma Assoc3(a: string, b: string, c: string, d: string)
    ensures a + b + c + d == a + (b + (c + d))
  {}

  lemma TailDelimits(it: LaidItem, items: seq<LaidItem>, rest: string)
    requires TailOk(it.value, it.tail, items == []) && rest != "" && IsClose(rest[0])
    ensures var after := it.tail + (ItemsText(items) + rest);
      NeedsDelimiter(it.value) ==> IsPrimitiveDelim(after[0])
  {}

  lemma LaidBegins(l: Laid, rest: string)
    requires WellLaid(l) && (NeedsDelimiter(l) ==> rest == "" || IsPrimitiveDelim(rest[0]))
    ensures AtToken(LaidText(l) + rest)
  {
    if l.Primitive? {
      PrimitiveIsToken(l.text, rest);
    } else {
      if IsContainer(l) { Bracketed(l); }
      assert (LaidText(l) + rest)[0] == LaidText(l)[0];
      SkippedToken(LaidText(l) + rest);
    }
  }

  lemma {:induction false} RunField(f: LaidField, last: bool, p: Path, more: string)
    requires WellField(f, last)
    requires AtToken(more) && (last ==> more == "" || IsClose(more[0]))
    ensures Run(LaidFieldText(f) + more, p, "")
      == Found(f.value, p, f.key, f.tail + more) + Run(more, Behind(f.value, p, f.key), "")
    decreases f, 2
  {
    hide Ends, TailOk, AtToken, IsBody, IsGap, IsFiller, InQuotes;
    WellFieldParts(f, last);
    var rest := LaidText(f.value) + (f.tail + more);
    FieldPieces(InQuotes(f.key) + f.gap + ":" + f.lead, LaidText(f.value), f.tail, more);
    RunKeyText(f.key, f.gap, f.lead, rest, p, "");
    TailEnds(f.value, f.tail, last, more);
    RunLaid(f.value, p, f.key, f.tail + more);
    RunFiller(f.tail, more, Behind(f.value, p, f.key), "");
  }

  lemma WellFieldParts(f: LaidField, last: bool)
    requires WellField(f, last)
    ensures IsBody(f.key) && IsGap(f.gap) && IsFiller(f.lead) && WellLaid(f.value)
    ensures TailOk(f.value, f.tail, last) && IsFiller(f.tail)
  {}

  lemma FieldPieces(head: string, value: string, tail: string, more: string)
    ensures head + value + tail + more == head + (value + (tail + more))
  {}

  lemma {:induction false} RunFields(fields: seq<LaidField>, p: Path, rest: string)
    requires WellFields(fields) && rest != "" && IsClose(rest[0])
    ensures Run(LaidFieldsText(fields) + rest, p, "")
      == FoundFields(fields, p, rest) + Run(rest, BehindFields(fields, p), "")
    decreases fields, 0
  {
    hide AtToken, IsGap, IsFiller, TailOk, LaidFieldText, WellField, Run, Found;
    if fields == [] {
      assert "" + rest == rest;
    } else {
      var f, more := fields[0], LaidFieldsText(fields[1..]) + rest;
      Assoc(LaidFieldText(f), LaidFieldsText(fields[1..]), rest);
      FieldsBegin(fields[1..], rest);
      RunField(f, |fields| == 1, p, more);
      RunFields(fields[1..], Behind(f.value, p, f.key), rest);
    }
  }

  lemma FieldsBegin(fields: seq<LaidField>, rest: string)
    requires rest != "" && IsClose(rest[0])
    ensures AtToken(LaidFieldsText(fields) + rest)
    ensures fields == [] ==> LaidFieldsText(fields) + rest == rest
  {
    if fields == [] {
      assert "" + rest == rest;
    } else {
      assert LaidFieldsText(fields) != "" && LaidFieldsText(fields)[0] == '"';
    }
    SkippedToken(LaidFieldsText(fields) + rest);
  }

  // A whole document: an object or array without a key, and nothing but filler around it.
  lemma RunDocument(l: Laid, pre: string, post: string)
    requires IsContainer(l) && WellLaid(l) && IsFiller(pre) && IsFiller(post)
    ensures Run(pre + LaidText(l) + post, [], "") == Found(l, [], "", post)
  {
    hide IsFiller, LaidText, Found, Behind;
    Assoc(pre, LaidText(l), post);
    RunFiller(pre, LaidText(l) + post, [], "");
    RunLaid(l, [], "", post);
    RunEnd(post, Behind(l, [], ""));
  }

  lemma RunEnd(post: string, p: Path)
    requires IsFiller(post)
    ensures Run(post, p, "") == []
  {
    assert post + "" == post;
    RunFiller(post, "", p, "");
  }

  // ---- where the parser is behind a value

  // No empty keys, and no objects in arrays.
  predicate Keyed(l: Laid)
    decreases l, 1
  {
    match l
    case Array(_, items) => NoObjects(items)
    case Object(_, fields) => KeyedFields(fields)
    case _ => true
  }

  predicate NoObjects(items: seq<LaidItem>)
    decreases items, 0
  {
    items == [] || (!items[0].value.Object? && Keyed(items[0].value) && NoObjects(items[1..]))
  }

  predicate KeyedFields(fields: seq<LaidField>)
    decreases fields, 0
  {
    fields == [] || (fields[0].key != "" && Keyed(fields[0].value) && KeyedFields(fields[1..]))
  }

  // The objects in a value that come without a key.
  function Lost(l: Laid, key: string): nat
    decreases l, 1
  {
    match l
    case Array(_, items) => LostItems(items)
    case Object(_, fields) => (if key == "" then 1 else 0) + LostFields(fields)
    case _ => 0
  }

  function LostItems(items: seq<LaidItem>): nat
    decreases items, 0
  {
    if items == [] then 0 else Lost(items[0].value, "") + LostItems(items[1..])
  }

  function LostFields(fields: seq<LaidField>): nat
    decreases fields, 0
  {
    if fields == [] then 0 else Lost(fields[0].value, fields[0].key) + LostFields(fields[1..])
  }

  function Shorter(p: Path, n: nat): Path {
    if n <= |p| then p[..|p| - n] else []
  }

  lemma ShorterTwice(p: Path, m: nat, n: nat)
    ensures Shorter(Shorter(p, m), n) == Shorter(p, m + n)
  {}

  lemma PopShorter(p: Path, key: string, n: nat)
    ensures Pop(Shorter(Held(p, key), n)) == Shorter(p, n + if key == "" then 1 else 0)
  {}

  // Each object without a key costs one of the open keys.
  lemma {:induction false} BehindIs(l: Laid, p: Path, key: string)
    ensures Behind(l, p, key) == Shorter(p, Lost(l, key))
    decreases l, 1
  {
    match l
    case Array(_, items) => BehindItemsIs(items, p);
    case Object(_, fields) =>
      BehindFieldsIs(fields, Held(p, key));
      PopShorter(p, key, LostFields(fields));
    case _ =>
  }

  lemma {:induction false} BehindItemsIs(items: seq<LaidItem>, p: Path)
    ensures BehindItems(items, p) == Shorter(p, LostItems(items))
    decreases items, 0
  {
    if items != [] {
      BehindIs(items[0].value, p, "");
      BehindItemsIs(items[1..], Behind(items[0].value, p, ""));
      ShorterTwice(p, Lost(items[0].value, ""), LostItems(items[1..]));
    }
  }

  lemma {:induction false} BehindFieldsIs(fields: seq<LaidField>, p: Path)
    ensures BehindFields(fields, p) == Shorter(p, LostFields(fields))
    decreases fields, 0
  {
    if fields != [] {
      BehindIs(fields[0].value, p, fields[0].key);
      BehindFieldsIs(fields[1..], Behind(fields[0].value, p, fields[0].key));
      ShorterTwice(p, Lost(fields[0].value, fields[0].key), LostFields(fields[1..]));
    }
  }

  // Behind a value the parser is where it was before if and only if all objects in it have keys, or no key was open.
  lemma BackWhereItWas(l: Laid, p: Path, key: string)
    ensures Behind(l, p, key) == p <==> Lost(l, key) == 0 || p == []
  {
    BehindIs(l, p, key);
  }

  lemma {:induction false} KeyedLosesNothing(l: Laid, key: string)
    requires Keyed(l) && (l.Object? ==> key != "")
    ensures Lost(l, key) == 0
    decreases l, 1
  {
    match l
    case Array(_, items) => KeyedItems(items);
    case Object(_, fields) => KeyedLosesNone(fields);
    case _ =>
  }

  lemma {:induction false} KeyedItems(items: seq<LaidItem>)
    requires NoObjects(items)
    ensures LostItems(items) == 0
    decreases items, 0
  {
    if items != [] {
      KeyedLosesNothing(items[0].value, "");
      KeyedItems(items[1..]);
    }
  }

  lemma {:induction false} KeyedLosesNone(fields: seq<LaidField>)
    requires KeyedFields(fields)
    ensures LostFields(fields) == 0
    decreases fields, 0
  {
    if fields != [] {
      KeyedLosesNothing(fields[0].value, fields[0].key);
      KeyedLosesNone(fields[1..]);
    }
  }

  lemma KeyedStays(l: Laid, p: Path, key: string)
    requires Keyed(l) && (l.Object? ==> key != "")
    ensures Behind(l, p, key) == p
  {
    KeyedLosesNothing(l, key);
    BackWhereItWas(l, p, key);
  }
}

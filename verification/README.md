# espbase in Dafny

A model of three parts of espbase and proofs about them:

* **StackJson** (`src/espbase/stack_json`): the buffers, string escaping and decoding, the in-place printer, integer
  text, the emitter that rebuilds nested objects from a flat list of nodes, the pretty buffer, the parser with its
  bindings, and array iteration.
* **MainLoopTaskBase** (`src/espbase/main_loop_task.cpp`): the version number, in-flight count, timer and join
  semaphore, as a transition system with any number of competing `notify` calls.
* **CircularHistoryBuffer** (`src/espbase/circular_history_buffer.cpp`): the byte ring with many cursors.

`dafny verify dfyconfig.toml` checks everything.

## How it is put together

A byte is a `char`; strings are sequences of them, of any codes. The classes (`StackBuffer`, `DynamicBuffer`,
`PrettyBuffer`, `Node`, `ParseNode`, `CircularHistoryBuffer`) have the original's fields and methods that change them
in place. A `Buffer&` is the datatype `Sink`, whose methods pick the implementation as the virtual calls do.

*Writing.* A buffer is seen as a `Snap`: committed text, failure, limit, and how it renders text (as is, or indented).
`Wrote` is one write exactly, in a buffer that has failed before as in any other; `Play` makes the emitter's calls one
by one on a `Snap`, stops at the first that fails, and records them. `After(s, text, t)` says what that amounts to: it
fails exactly when the rendered text does not fit, failure is for good, and without failure the rendered text has been
appended. The emitter's methods are proved to do what `Play` does, and `Play` to amount to the compact JSON text of the
tree that the nodes describe. A pretty buffer whose destination overflows is the one case where single calls are not
followed: there `Amounts`, which contains `After`, is all that is said. The tree is defined by inserting node after
node (`Build`); the emitter's rescanning order is `Group`, and the two are proved equal. `EmitBothWays` puts the flat
loop and the recursive traversal side by side on two buffers. Nothing is asked of the `emitted` flags on entry, so a
second emission of the same nodes has the same contract and gives the same text.

*Reading.* `Run` is the parser's loop as a function: the values found, with their paths. `Deliver` says which bindings
a value goes to. The methods in `Parser.dfy` are proved to leave in the bindings exactly what `Run` and `Deliver` say,
on every text, malformed or cut short included. `Laid` is a document as it is written: numbers, literals, strings and
keys in any spelling, whitespace, comments and extra commas between them; `Bare` takes the layout away and leaves the
tokens. `RunLaid` says what is found in it, `LayoutsAgree` that the layout does not matter. Compact text and the
pretty buffer's text are two layouts of the same tokens, so the round trip from emitter to parser (`EmitThenParse`) is
proved once for both. It goes on through the elements of an array without empty strings: the extraction loop over the
binding gets every element, in order (`EmitThenIterate`).

## Where the code does not do what one might read into it

Each of these comes with the condition under which the code does do it, and with an input where it does not
(`ReadingCounterexamples.dfy`, `WritingCounterexamples.dfy`).

* `raw()` is documented as the whole block, comments included. The captured text is the block if and only if, outside
  what the scanner takes for strings, the brackets inside never close more than is open and come out even with all
  quotes paired, or nothing follows the block (`Layouts.BlockIsText`); for comments whose quotes pair up that is a
  matter of the brackets in them (`Layouts.CapturedIs`), and without brackets and quotes all is well
  (`Layouts.TidyIsCaptured`). `BracketInComment` is `[/*]*/]`.
* `is_set()` is documented as saying that a value was in the payload. For a single key that no earlier binding begins
  with it says so exactly for the documents that have the key, or do not have it as the name of something that stands
  where objects in arrays have closed all open keys (`Presence.SetIsPresent`; `StrayIsSet` is
  `{"a":{"b":[{}],"c":0}}` and a binding to `c`). Every other binding has a plain document against it
  (`Presence.SetIsNotPresent`): a longer path is set by the object under its first key, be the rest there or not.
  `Presence.SetExactly` says which bindings are set, for every document and all bindings.
* A closing brace takes a key off the parser's path whether or not its opening brace has put one there, so behind a
  value the parser is where it was if and only if all objects in it have keys, or no key was open
  (`RoundTrip.BackWhereItWas`). An object in an array below the top thus moves what follows it one level up
  (`KeyTakenOff`, the same document). `Delivery.Traced` is a condition on the document under which a binding is not
  affected.
* `operator>>` stops at an element that is an empty string, does not skip comments, and takes the string `"null"` for
  null. `Iteration.IterateLaid` gives the exact condition under which iterating hands over all elements of an array;
  `Iteration.NullToken` says which elements are flagged as null. `CommentBetween` is `[1,/**/2]`, `EmptyStringFirst` is
  `["",2]`.
* `operator>>` on a binding to a *string* that begins with `[` takes the string for an array
  (`Iteration.ExtractedString`, for every string).
* Emitting keeps keys unique exactly when no path is a prefix of another one (`Grouping.KeysUniqueIffPrefixFree`);
  `KeyTwice` has a node and one below it.
* A `\u` escape is decoded to valid UTF-8 if and only if it is not a surrogate half (`Decoding.UnicodeEscapeIsUtf8`);
  pairs of halves are not joined (`Decoding.SurrogatesAreSplit`, with U+1F600 in `Decoding.PairOfHalves`).
* A pretty buffer does not notice that its destination has failed: its own flag stays down, and only a run of text
  that does not fit ends a write (`Buffers.PrettyBuffer.Write`, `Unnoticed`). One of the two flags is up exactly if
  the text does not fit (`Documents.EmitJsonNodes`).
* `emit_json_nodes` returns the length written, not 0, when the only thing that failed was a value: the flag of the
  buffer tells, the length does not (`Documents.EmitJsonNodes`; `ValueOverflows` is `{"a":true}` into 8 characters).

## Model

| member | source | states |
|---|---|---|
| Escaping.EscapeIdentity | src/espbase/stack_json/buffer.cpp:18-40 | escaping leaves a string alone exactly when no character needs it, and lengthens it otherwise: what the fast path relies on |
| Escaping.EscapeForms | src/espbase/stack_json/buffer.cpp:62-92 | by character code, what stands for each character: the seven short escapes, `\u00` and two lower-case digits for other control characters, anything else itself |
| Escaping.EscapedIsPrintable | src/espbase/stack_json/buffer.cpp:18-26 | no control character is left in an escaped string (section 7 of RFC 8259) |
| Escaping.BodyOfEscaped | src/espbase/stack_json/parser.cpp:404-411 | the parser's scan for the closing quote, started in any escaped string, stops at its own closing quote whatever follows |
| Escaping.PlainBody | src/espbase/stack_json/parser.cpp:404-411 | text without quotes and backslashes is read as a string body |
| Escaping.BodyJoin | src/espbase/stack_json/parser.cpp:404-411 | so are pairs of a backslash and any character, and bodies in a row |
| Decoding.ReadHex4 | src/espbase/stack_json/parser.cpp:226-243 | the four-digit loop is valid exactly for four hex digits and then gives the code they spell |
| Decoding.HexDigits | src/espbase/stack_json/parser.cpp:230-238 | each digit, in either case, counts for its position in the row of sixteen |
| Decoding.SimpleEscapes | src/espbase/stack_json/parser.cpp:202-223 | `\b`, `\t`, `\n`, `\f`, `\r` give the codes 8, 9, 10, 12, 13; any other escaped character gives itself |
| Decoding.InvalidUnicode | src/espbase/stack_json/parser.cpp:270-273 | `\u` without four hex digits gives a `u` and goes on behind it |
| Decoding.PlainCharacters | src/espbase/stack_json/parser.cpp:279-281 | other characters, and a backslash at the end, give themselves |
| Decoding.WriteUtf8 | src/espbase/stack_json/parser.cpp:245-267 | a code point is written whole or, if it does not fit, not at all; the rest of the buffer is untouched |
| Decoding.DecodeEscapeAt | src/espbase/stack_json/parser.cpp:200-278 | one escape is consumed whole, written if it fits, and an invalid `\u` gives a plain `u` |
| Decoding.DecodeJsonString | src/espbase/stack_json/parser.cpp:197-284 | the output is the decoding with that much room; nothing behind it is written |
| Decoding.DecodeEscape | src/espbase/stack_json/parser.cpp:197-284 | decoding undoes escaping for every string |
| Decoding.DecodeNeverGrows | src/espbase/stack_json/parser.cpp:114-122 | a decoding is never longer than its input, so the `std::string` binding has room |
| Decoding.DecodeIntoEnough | src/espbase/stack_json/parser.cpp:197-284 | a buffer receives the full decoding exactly when it is at least that long |
| Decoding.DecodeIntoAgrees | src/espbase/stack_json/parser.cpp:197-284 | a buffer that is too small receives the beginning of the decoding, all but its last two bytes for certain |
| Decoding.DecodeIntoFills | src/espbase/stack_json/parser.cpp:197-284 | and what does not fit is passed over: single bytes behind it still come while there is room |
| Decoding.EscapeRoundTrip | src/espbase/stack_json/parser.cpp:404-411 | scan of a written string stops at the final quote, and decoding the body into any buffer of the string's length gives the string (section 7 of RFC 8259) |
| Decoding.UnicodeEscapeIsUtf8 | src/espbase/stack_json/parser.cpp:224-268 | for every code below 0x10000, spelled in digits of either case: `\uXXXX` becomes bytes that read back as that code point under section 3 of RFC 3629 if and only if it is not a surrogate half |
| Decoding.Utf8IsValid | src/espbase/stack_json/parser.cpp:245-267 | the bytes written for a code point are valid UTF-8 for it exactly outside D800..DFFF, and there no code point at all |
| Decoding.SurrogatesAreSplit | src/espbase/stack_json/parser.cpp:224-268 | two halves are decoded to two invalid sequences, not to the character they stand for |
| Integers.DecimalIsCanonical | src/espbase/stack_json/document.cpp:138-142 | the decimal text has digits only, no leading zero, and the right value |
| Integers.DecimalIsUnique | src/espbase/stack_json/document.cpp:138-142 | it is the only such text |
| Integers.NumDigits64IsLength | src/espbase/stack_json/document.cpp:90-118 | the comparison ladders give the true decimal length for every 64-bit value |
| Integers.NumDigitsIsLength | src/espbase/stack_json/document.cpp:120-127 | so does the one chosen by width, for every width up to 64 |
| Integers.FillDigits | src/espbase/stack_json/document.cpp:138-142 | the backwards digit loop fills exactly the cells of the decimal text and no other |
| Integers.MagnitudeIsAbsolute | src/espbase/stack_json/document.cpp:150-152 | negating in the unsigned type gives the absolute value, the minimum included |
| Integers.SignedRanges | src/espbase/stack_json/document.cpp:146-168 | the ranges of the four widths, both ends included |
| Integers.FromCharsReadsIntText | src/espbase/stack_json/parser.cpp:38-45 | reading integer text into a type that holds the value gives the value |
| ParserSpec.IntegerRead | src/espbase/stack_json/parser.cpp:38-45 | an integer binding reads the number its text begins with, zeros before it and anything but a digit behind it, if it is in range, and else keeps what it had |
| ParserSpec.IntegerKept | src/espbase/stack_json/parser.cpp:38-45 | so it does if the text begins with no number, a plus sign included |
| ParserSpec.CoercedKinds | src/espbase/stack_json/parser.cpp:30-132 | what bindings of the other kinds make of any text, and of null |
| PrettyText.RenderSplit | src/espbase/stack_json/pretty_buffer.cpp:9-62 | any chunking of the input gives the same output, state and indentation bound |
| PrettyText.PutForms | src/espbase/stack_json/pretty_buffer.cpp:36-54 | by character code, the line breaks, indentation and blank that each structural character brings |
| PrettyText.RenderUnstructured | src/espbase/stack_json/pretty_buffer.hpp:21-22 | text without structural characters between tokens renders to itself and changes no state: integers may go round `write` |
| PrettyText.RenderEscaped | src/espbase/stack_json/pretty_buffer.hpp:21-22 | escaped text inside a string renders to itself and leaves the string state right: printf text may go round `write` |
| PrettyText.RenderQuoted | src/espbase/stack_json/buffer.cpp:28-40 | so may a whole quoted string between tokens |
| PrettyText.PrettyOnlyAddsSpace | src/espbase/stack_json/pretty_buffer.cpp:9-62 | removing the whitespace outside strings from the output gives the input so stripped |
| Buffers.StackBuffer.Write | src/espbase/stack_json/buffer.hpp:50-55 | all or nothing: appended, or failed with memory and head unchanged; the head stays within `MaxSize` |
| Buffers.StackBuffer.GetWriteSpan | src/espbase/stack_json/buffer.hpp:63-66 | the span is exactly what is left |
| Buffers.DynamicBuffer.Write | src/espbase/stack_json/dynamic_buffer.hpp:33-42 | appends after growing, and never fails |
| Buffers.DynamicBuffer.GetWriteSpan | src/espbase/stack_json/dynamic_buffer.hpp:44-50 | at least `ExpandSize` cells, the committed text kept |
| Buffers.Dest.Write | src/espbase/stack_json/buffer.hpp:20 | a write through the base class: fits or fails, exactly |
| Buffers.PrettyBuffer.WriteIndent | src/espbase/stack_json/pretty_buffer.cpp:3-7 | depth times indent spaces, while that is at most 255: all there if they fit, else the destination has failed |
| Buffers.PrettyBuffer.WriteStructural | src/espbase/stack_json/pretty_buffer.cpp:36-54 | a structural character is replaced by what the transducer says, as far as the destination takes it, and the state moves with it |
| Buffers.PrettyBuffer.Write | src/espbase/stack_json/pretty_buffer.cpp:9-62 | for every destination: what the per-character transducer gives for the whole input is appended if it fits; if not, the destination has failed, keeps what it had, and the pretty buffer's own flag does not change |
| Buffers.Sink.Write | src/espbase/stack_json/buffer.hpp:20-31 | any buffer, its destination overflowing or not: `After` for the written text, the returned length, and exactly one write of all or nothing unless a pretty buffer's destination overflows |
| Buffers.AfterJoin | src/espbase/stack_json/buffer.hpp:26-34 | two writes in a row are one write of both texts, failure included |
| Buffers.FailedForGood | src/espbase/stack_json/buffer.hpp:26-34 | once a prefix of a text has failed the whole text has failed |
| Buffers.WroteAfter | src/espbase/stack_json/buffer.hpp:50-55 | one write, in whatever state: `After` |
| Buffers.AmountsJoin | src/espbase/stack_json/pretty_buffer.cpp:9-62 | what two writes in a row amount to, wherever the destination fails |
| Buffers.BearableRest | src/espbase/stack_json/pretty_buffer.cpp:3-7 | what has been written, failed or not, leaves the indentation of the rest countable |
| Buffers.LandedStops | src/espbase/stack_json/pretty_buffer.cpp:27-31 | a run that does not fit means that the whole rendering does not |
| Writers.NeedsEscaping | src/espbase/stack_json/buffer.cpp:18-26 | the scan finds a character to escape exactly if there is one |
| Writers.WriteQuotedRaw | src/espbase/stack_json/buffer.cpp:28-40 | the fast path puts the quoted string into the span as it is, or leaves everything as it was because it does not fit or the span is short |
| Writers.WriteEscapedSlowly | src/espbase/stack_json/buffer.cpp:42-100 | the run-flushing loop: exactly the pieces up to the first that fails, and in any case what writing the quoted escape amounts to |
| Writers.WriteEscaped | src/espbase/stack_json/buffer.cpp:14-101 | both paths together are one function of the buffer, failed or not; with a destination that overflows they amount to writing the quoted escape |
| Writers.PutEscapedAfter | src/espbase/stack_json/buffer.cpp:14-101 | that function amounts to writing the quoted escape, and reports success exactly if the buffer is good |
| Writers.SlowIsFast | src/espbase/stack_json/buffer.cpp:28-100 | where there is room the loop's pieces come to the same as the fast path's one write |
| Writers.WriteNumber | src/espbase/stack_json/document.cpp:134-143 | an integer's text goes into the span, or the buffer fails because it does not fit |
| Writers.NumberAmounts | src/espbase/stack_json/document.cpp:134-143 | which is writing it, between tokens, and amounts to that in any state |
| Writers.WriteUnsigned | src/espbase/stack_json/document.cpp:129-144 | the decimal text of every unsigned value in one piece, or nothing; nothing into a buffer that has failed |
| Writers.WriteSigned | src/espbase/stack_json/document.cpp:146-168 | the same for every signed value, the minimum included |
| Printing.CountExtra | src/espbase/stack_json/printer.cpp:32-43 | the counting pass gives the length of the escape |
| Printing.ExpandOne | src/espbase/stack_json/printer.cpp:53-87 | one turn of the backwards loop: everything still to be read is untouched |
| Printing.ExpandInPlace | src/espbase/stack_json/printer.cpp:45-89 | the span's text becomes its own escape, in place, and no other cell changes |
| Printing.EscapeSpan | src/espbase/stack_json/printer.cpp:27-92 | the output is in place when it fits; nothing outside the span is written |
| Printing.VPrint | src/espbase/stack_json/printer.cpp:15-94 | commits the formatted text, escaped or as it is, or marks the buffer bad and commits nothing, with the exact condition |
| Printing.PrintedIsEscaped | src/espbase/stack_json/printer.cpp:45-93 | the result is the body that `write_escaped` writes for the same text, in a pretty buffer too |
| Paths.MatchesParent | src/espbase/stack_json/path.hpp:39-45 | the element loop decides prefixes |
| Grouping.GroupIsBuild | src/espbase/stack_json/document.cpp:10-45 | rescanning the list for each key in first-occurrence order gives the tree that inserting the nodes one by one gives |
| Grouping.GroupKeepsItems | src/espbase/stack_json/document.cpp:14-43 | the tree's leaves are the nodes, each exactly once, at its path |
| Grouping.KeysInOrder | src/espbase/stack_json/document.cpp:14-43 | members come in the order in which the nodes first use their keys |
| Grouping.KeysUniqueIffPrefixFree | src/espbase/stack_json/document.cpp:10-45 | no object repeats a key if and only if no path is a prefix of another |
| WritingCounterexamples.KeyTwice | src/espbase/stack_json/document.cpp:10-45 | a node and one below it, which the emitter takes, come out under the same key twice |
| Emission.MembersOpsText | src/espbase/stack_json/document.cpp:19-41 | the writes made for a list of members spell their compact JSON text |
| Emission.ArrayOpsText | src/espbase/stack_json/document.hpp:53-68 | so do those made for an array |
| Emission.ScalarJson | src/espbase/stack_json/value.hpp:21-44 | a scalar value is that scalar in the emitted JSON |
| Emission.ArrayJson | src/espbase/stack_json/document.hpp:53-89 | an array value is an array of all its elements, in order |
| Emission.ItemsInOrder | src/espbase/stack_json/document.cpp:14-16 | what is emitted is the nodes that are not omitted, each once and in order |
| JsonValues.Literals | src/espbase/stack_json/value.hpp:21-44 | null, true and false, letter by letter |
| Emission.NextMember | src/espbase/stack_json/document.cpp:14-42 | what one turn of the loop emits and marks is the first member of what was pending, and the rest is what is pending after it |
| Emission.LevelStep | src/espbase/stack_json/document.cpp:14-42 | the same in terms of buffer writes |
| Emission.LevelShrinks | src/espbase/stack_json/document.cpp:10-45 | every turn leaves less pending: the recursion ends |
| Emission.LevelStepFlags | src/espbase/stack_json/document.cpp:31-42 | a turn marks only nodes below the level's path, and none before the current one stays live |
| Emission.DocOpsParts | src/espbase/stack_json/document.cpp:53-87 | flat path and recursive traversal are due to make the same writes |
| Emission.PlayAfter | src/espbase/stack_json/document.cpp:10-88 | any run of calls that stops at the first failure amounts to writing the text they spell, and reports a failure only if the buffer has failed |
| Emission.PlaySplit | src/espbase/stack_json/document.cpp:53-87 | a run may be cut anywhere |
| Documents.EmitJsonValue | src/espbase/stack_json/value.hpp:21-44 | a value of any kind, nested documents included: exactly its call, and what writing its compact JSON text amounts to |
| Documents.EmitArray | src/espbase/stack_json/document.hpp:53-68 | brackets, elements and commas: exactly the calls that spell the array's JSON; failures are left to the buffer's flag |
| Documents.EmitElems | src/espbase/stack_json/document.hpp:79-89 | the loop with the `first` flag makes the calls for all elements separated by commas |
| Documents.EmitNode | src/espbase/stack_json/node.hpp:38-41 | the value is written, then exactly this node is marked |
| Documents.EmitKey | src/espbase/stack_json/document.cpp:19-27 | comma, key and colon, stopping at the first failing write |
| Documents.EmitMember | src/espbase/stack_json/document.cpp:19-42 | one live node, or all nodes below its next key |
| Documents.EmitLevel | src/espbase/stack_json/document.cpp:10-45 | all pending nodes below a path, in the grouped order, and exactly those are marked; or the failing write was the last |
| Documents.EmitFlat | src/espbase/stack_json/document.cpp:64-75 | the flat loop makes the writes of the grouped list |
| Documents.EmitFlatDocument | src/espbase/stack_json/document.cpp:62-78 | exactly the run of the document's calls on this buffer, state, result and calls made, and what the document's text amounts to |
| Documents.EmitNestedDocument | src/espbase/stack_json/document.cpp:80-87 | the same run by the traversal; on success every node has been emitted unless omitted |
| Documents.EmitBothWays | src/espbase/stack_json/document.cpp:53-87 | on equal buffers flat loop and traversal make the same calls, report the same and leave equal buffers, failures and omitted nodes included; where a pretty buffer's destination overflows both fail |
| Documents.EmitJsonNodes | src/espbase/stack_json/document.cpp:47-88 | for every buffer and flag state on entry: one of the failure flags is up exactly if the rendered text does not fit or was up before, and else the buffer holds it; returned is the length written, a failed value notwithstanding, or 0 if a call failed |
| Documents.EmittedAfter | src/espbase/stack_json/document.cpp:47-88 | what it leaves behind is `After` for the document's text |
| WritingCounterexamples.ValueOverflows | src/espbase/stack_json/document.cpp:47-88 | an emission whose calls all succeed and whose buffer has failed |
| Documents.ResetAll | src/espbase/stack_json/document.cpp:81 | no flag is left, nothing else changes |
| JsonValues.TextOutside | src/espbase/stack_json/pretty_buffer.cpp:13-55 | a whole value leaves a pretty buffer between tokens |
| Scanning.CaptureEnd | src/espbase/stack_json/parser.cpp:338-363 | the look-ahead scan, on every text from a bracket on, stops where the recursive definition says, truncated text included |
| Scanning.MatchBracket | src/espbase/stack_json/parser.cpp:158-181 | the slicer's matcher stops at the same place on every such text |
| Scanning.ClosePaired | src/espbase/stack_json/parser.cpp:342-362 | over any stretch whose quotes pair up the scan ends inside exactly if it closes more than is open, and else goes on at the depth that adds up |
| Scanning.CloseUnpaired | src/espbase/stack_json/parser.cpp:342-362 | over a stretch whose last quote has no partner the scan runs into what follows, or ends before if more is closed than is open |
| Scanning.BlockExactly | src/espbase/stack_json/parser.cpp:338-365 | a block ends at its own bracket if and only if what is inside never closes more than is open and comes out even with all quotes paired, or nothing follows |
| Layouts.CloseLaid | src/espbase/stack_json/parser.cpp:342-362 | the scan passes over a whole value in any spelling, comments included, if and only if the brackets in them do not close more than is open; it then goes on at a depth changed by their sum |
| Layouts.BlockIsText | src/espbase/stack_json/parser.cpp:338-365 | for every object or array, whatever stands in its comments: the captured block is its own text if and only if what is inside is balanced as the scanner reads it, or nothing follows and it never closes more than is open |
| Layouts.CapturedIs | src/espbase/stack_json/parser.cpp:338-365 | with quotes that pair up in comments it is the brackets in comments that must never close more than is open and come out even |
| Layouts.TidyIsCaptured | src/espbase/stack_json/parser.cpp:338-365 | in particular without brackets and quotes between tokens |
| Layouts.LoneQuote | src/espbase/stack_json/parser.cpp:347-354 | otherwise: one quote in a comment makes a string of all up to the next quote, and the block ends where the rest says |
| Layouts.LastQuote | src/espbase/stack_json/parser.cpp:342-365 | without a next quote the block is all of the text |
| Layouts.CompactText | src/espbase/stack_json/document.cpp:10-45 | the compact text is a layout of its value, with nothing between the tokens but commas |
| ParserSpec.DeliverBlock | src/espbase/stack_json/parser.cpp:366-369 | a block goes to every binding at or below its path and to no other |
| ParserSpec.DeliverScalar | src/espbase/stack_json/parser.cpp:428-436 | a scalar goes to the first such binding only |
| Parsers.ParseNode.Assign | src/espbase/stack_json/parser.hpp:49-53 | the flags, and the target coerced from the raw text |
| Parsers.CoerceString | src/espbase/stack_json/parser.cpp:114-122 | resizing, decoding in place and cutting gives the full decoding |
| Parsers.SkipWsAndComments | src/espbase/stack_json/parser.cpp:293-318 | the loop ends at the text that the recursive definition leaves, an index past the end included |
| Scanning.WhatIsSkipped | src/espbase/stack_json/parser.cpp:293-318 | by character code, the four whitespace characters are skipped and no other |
| Scanning.Delimiters | src/espbase/stack_json/parser.cpp:13-28 | by character code, what ends a number or literal |
| Parsers.CaptureStructuralValue | src/espbase/stack_json/parser.cpp:321-373 | a block is delivered to all matching bindings; beyond the stack's depth there are none |
| Parsers.AssignScalar | src/espbase/stack_json/parser.cpp:423-440 | a scalar is delivered to the first matching binding |
| Parsers.OpenBracket | src/espbase/stack_json/parser.cpp:381-395 | block delivered, and a level opened exactly for an object under a key |
| Parsers.ParseString | src/espbase/stack_json/parser.cpp:403-443 | a key if a colon follows, else a value |
| Parsers.ParsePrimitive | src/espbase/stack_json/parser.cpp:444-473 | a primitive up to its delimiter, flagged null exactly if it is `null` |
| Parsers.ParseJsonNodes | src/espbase/stack_json/parser.cpp:286-475 | on every text the loop ends with the bindings that the recursive definition gives from cleared flags |
| Parsers.Parse | src/espbase/stack_json/parser.hpp:166-183 | a path stack as deep as the deepest binding loses nothing against an unbounded one |
| RoundTrip.SkippedGap | src/espbase/stack_json/parser.cpp:293-318 | whitespace and closed comments are skipped whole, whatever follows |
| RoundTrip.LineCommentIsGap | src/espbase/stack_json/parser.cpp:299-304 | whitespace being: `//` to the end of a line |
| RoundTrip.BlockCommentIsGap | src/espbase/stack_json/parser.cpp:305-312 | `/*` to the first `*/` |
| RoundTrip.SpaceIsGap | src/espbase/stack_json/parser.cpp:9-11 | the whitespace characters |
| RoundTrip.GapJoin | src/espbase/stack_json/parser.cpp:293-318 | and these in a row |
| RoundTrip.OpenComments | src/espbase/stack_json/parser.cpp:293-318 | a comment that does not end reaches to the end of the text |
| Layouts.ScalarsAreLaid | src/espbase/stack_json/parser.cpp:444-455 | numbers with fractions and exponents, and any string body, are values a document may have |
| RoundTrip.RunFiller | src/espbase/stack_json/parser.cpp:375-402 | fillers, trailing commas included, change nothing of what is found after them |
| RoundTrip.FillerThenToken | src/espbase/stack_json/parser.cpp:413-421 | a string value followed by filler and another token is not taken for a key |
| RoundTrip.PrimitiveIsToken | src/espbase/stack_json/parser.cpp:444-455 | a number or literal in any spelling is one token, up to its delimiter |
| RoundTrip.RunLaid | src/espbase/stack_json/parser.cpp:375-474 | in a value of any layout and spelling, with any objects in arrays, the loop finds exactly its scalars, as written, and its blocks, under the keys that are open there |
| RoundTrip.RunDocument | src/espbase/stack_json/parser.cpp:375-474 | the same for a document, object or array, with filler around it |
| RoundTrip.BehindIs | src/espbase/stack_json/parser.cpp:381-398 | each object without a key costs one of the open keys |
| RoundTrip.BackWhereItWas | src/espbase/stack_json/parser.cpp:381-398 | behind a value the parser is where it was if and only if all objects in it have keys, or no key was open |
| Bindings.FoundBegins | src/espbase/stack_json/parser.cpp:381-398 | in a value whose objects have keys, what is found lies at or below its path; inside arrays under the empty key |
| Bindings.OtherFields | src/espbase/stack_json/parser.cpp:428-436 | so members under other keys do not reach a binding |
| Bindings.NotNamed | src/espbase/stack_json/parser.cpp:381-398 | whatever objects in arrays do to the path: nothing in a value is found under a name that it does not have |
| Bindings.AlongFound | src/espbase/stack_json/parser.cpp:366-369 | a value at a path is found there, nothing after it comes to that path, and without repeated keys nothing before it but enclosing blocks |
| Bindings.AlongMembers | src/espbase/stack_json/parser.cpp:366-398 | the same for a whole document with objects in arrays, for a path whose first key is not a name within them |
| Bindings.AtBelow | src/espbase/stack_json/path.hpp:39-45 | a path may be followed in two steps |
| Delivery.DeliverAt | src/espbase/stack_json/parser.cpp:428-436 | a binding is given a value exactly if it is a block at or above its path, or a scalar there that no earlier binding takes |
| Delivery.LastDecides | src/espbase/stack_json/parser.cpp:30-132 | for every text: the last value given to a binding decides it; only an integer may be left from an earlier one |
| Delivery.BlocksKeepIntegers | src/espbase/stack_json/parser.cpp:38-45 | and enclosing blocks leave no trace in an integer |
| Delivery.OwnReaches | src/espbase/stack_json/parser.cpp:428-436 | of distinct bindings whose values are all there, none takes another one's scalar |
| Delivery.ParsedDocument | src/espbase/stack_json/parser.cpp:286-475 | for every document, layout and spelling, and distinct bindings whose paths are not confused by objects in arrays: the last a binding is given is the value at its path, which decides it; nothing else does, if keys are unique or it is no integer |
| Delivery.ParsedBindings | src/espbase/stack_json/parser.cpp:286-475 | each then carries that value as written: strings decoded, numbers in range exact, booleans, null flagged and zeroed, objects and arrays as their own text exactly if captured whole |
| Delivery.LayoutsAgree | src/espbase/stack_json/parser.cpp:293-318 | two texts of one document, however laid out, leave every binding the same, except one to text that is given a block last; objects may stand in arrays, keys repeat, bindings overlap, paths be missing |
| Delivery.DeliveredAlike | src/espbase/stack_json/parser.cpp:366-436 | the same for any two runs of values that differ in the text of blocks only |
| Delivery.ScalarsAgree | src/espbase/stack_json/parser.cpp:293-318 | in particular every binding to a scalar |
| Presence.SetExactly | src/espbase/stack_json/parser.cpp:366-369 | for every document, objects in arrays or not, and any bindings: a binding is set exactly if the first key of its path stands where no key is open, with an object or array, or with a scalar that no earlier binding takes |
| Presence.FoundAtTop | src/espbase/stack_json/parser.cpp:381-398 | what stands where no key is open, from the document alone: keyed objects open one, closing braces take one |
| Presence.SetIsPresent | src/espbase/stack_json/README.md:293 | for a single key that no earlier binding begins with: `is_set` says whether the value is there if and only if the document has the key or does not have it astray |
| Presence.UnnamedIsNotStray | src/espbase/stack_json/parser.cpp:381-398 | nothing is astray that is not a name further in |
| Presence.SetIsNotPresent | src/espbase/stack_json/README.md:293 | for every other binding some document without objects in arrays is against it |
| ReadingCounterexamples.StrayIsSet | src/espbase/stack_json/README.md:293 | a document that has the key astray, read from its text |
| ReadingCounterexamples.KeyTakenOff | src/espbase/stack_json/parser.cpp:393-398 | parsing such a document gives a binding to `c` what is stored under `a` and `c`, and the binding to `a` and `c` the object around it |
| ReadingCounterexamples.BracketInComment | src/espbase/stack_json/parser.cpp:342-363 | parsing a document with `[/*]*/]` in it gives a binding another text than that |
| PrettyLayouts.PrettyIsLaid | src/espbase/stack_json/pretty_buffer.cpp:9-62 | the pretty buffer's text of a value is a layout of that value, for every indent and depth |
| PrettyLayouts.RenderedIsLaid | src/espbase/stack_json/pretty_buffer.cpp:9-62 | so is the text that any buffer makes of it |
| PrettyLayouts.RenderedPlace | src/espbase/stack_json/pretty_buffer.cpp:9-62 | the text at a path inside is what the buffer makes of the value there, in the state that the text before it leaves |
| Emitted.GroupFinds | src/espbase/stack_json/document.cpp:10-45 | with prefix-free paths every node's value is found at its path |
| Emitted.GroupIsSound | src/espbase/stack_json/document.cpp:10-45 | the emitted object has unique, non-empty keys throughout |
| Emitted.EmittedPlace | src/espbase/stack_json/document.cpp:47-88 | so it is for a whole emitted document, omitted nodes left out |
| Emitted.RenderedDocument | src/espbase/stack_json/document.cpp:47-88 | what a plain or pretty buffer holds is a layout of the document's tokens the parser reads right, with all bound paths present |
| Emitted.CleanPath | src/espbase/stack_json/parser.cpp:413-420 | keys that need no escaping are compared as they are |
| Emitted.EmitThenParse | src/espbase/stack_json/parser.cpp:286-475 | emit without failure, parse into distinct bindings on any of the emitted paths: each whose path is not confused by documents in arrays carries its node's value |
| Emitted.ReadableIsTraced | src/espbase/stack_json/parser.cpp:381-398 | with non-empty keys and no documents in arrays none is |
| Emitted.BoundValue | src/espbase/stack_json/parser.cpp:30-132 | spelled out: bool, integer, string, view and null bindings hold the value; a dynamic binding holds the value as the buffer renders it at its place |
| Emitted.PlainInPlace | src/espbase/stack_json/document.cpp:10-45 | which in a plain buffer is its exact compact text |
| Iteration.MatchQuote | src/espbase/stack_json/parser.cpp:146-157 | the slicer's quote loop and the parser's string scan agree on every text |
| Iteration.NextArrayToken | src/espbase/stack_json/parser.cpp:134-195 | consumes one token in place and returns it, quotes taken off strings |
| Iteration.Extract | src/espbase/stack_json/parser.hpp:245-268 | `operator>>` exactly: unset, exhausted, array and single-value cases, and the state of the binding afterwards |
| Iteration.OnceOnly | src/espbase/stack_json/parser.hpp:261-266 | from a binding to no array the value is handed over once, coerced, and then nothing; from one that is not set nothing is |
| Iteration.ExtractAll | src/espbase/stack_json/parser.hpp:245-268 | `while (node >> value)` ends, and leaves in the variable, turn by turn, what one extraction after the other hands over |
| Iteration.ArrayExtracted | src/espbase/stack_json/parser.hpp:252-260 | from an array that is the values of the tokens that are left |
| Iteration.NextElement | src/espbase/stack_json/parser.cpp:134-195 | an element of any kind and spelling is one token, and the cursor is right behind it |
| Iteration.IterateArray | src/espbase/stack_json/parser.cpp:134-195 | elements in any spelling separated by whitespace and commas come in order, up to the first empty string |
| Iteration.IterateLaid | src/espbase/stack_json/parser.cpp:134-195 | for every array the parser reads, in any spelling: all elements come, in order, if and only if there is no comment between them, none is the empty string, and the objects and arrays among them are captured whole |
| Iteration.HandsOver | src/espbase/stack_json/parser.hpp:245-268 | so from a binding just given the array the loop hands over its elements under that condition |
| ReadingCounterexamples.CommentBetween | src/espbase/stack_json/parser.cpp:134-145 | an array the parser reads whose elements do not come, because of a comment |
| ReadingCounterexamples.EmptyStringFirst | src/espbase/stack_json/parser.hpp:258-259 | and one of which nothing comes, because it begins with the empty string |
| Iteration.UncapturedToken | src/espbase/stack_json/parser.cpp:158-181 | an object or array that is not captured whole is not what comes |
| Iteration.IterateEmitted | src/espbase/stack_json/parser.hpp:245-268 | in particular for arrays as a plain or pretty buffer writes them |
| ArrayRoundTrip.ArrayReceived | src/espbase/stack_json/parser.hpp:245-268 | from the text of an emitted array, plain or pretty, the loop gets as many values as there are elements, and each turn leaves the element in the variable |
| ArrayRoundTrip.EmitThenIterate | src/espbase/stack_json/parser.hpp:245-268 | end to end: emit a document with an array, parse it, loop over a binding to the array: every element comes, in order, and nothing else |
| Iteration.NullToken | src/espbase/stack_json/parser.hpp:260 | flagged null: exactly null and the string "null" |
| Iteration.ElementTaken | src/espbase/stack_json/parser.hpp:266 | a variable of the element's kind gets the element's value; nulls zero it; objects and arrays come as their own text |
| Iteration.ExtractedString | src/espbase/stack_json/parser.hpp:252 | a binding that has been given a string hands it over if and only if it does not begin with an opening square bracket |
| HistoryRing.CircularHistoryBuffer.Write | src/espbase/circular_history_buffer.cpp:39-58 | the history grows by the data, or by its last bytes if it is longer than the ring, and every slot still holds the byte it should |
| HistoryRing.CircularHistoryBuffer.ReadNext | src/espbase/circular_history_buffer.cpp:71-102 | copies the slice of the history from the cursor or the oldest byte, whichever is later, and moves the cursor behind it; stops short of its room only at the end, and gives nothing only there or without room |
| HistoryRing.WindowMoves | src/espbase/circular_history_buffer.cpp:48-58 | a write, wrapping or not, moves the window over the history |
| HistoryRing.WindowSlice | src/espbase/circular_history_buffer.cpp:87-96 | slots read around the end are a contiguous slice of the history |
| HistoryRing.ReadOutIsAll | src/espbase/circular_history_buffer.cpp:71-102 | reading until nothing is given yields all that is held from the cursor on |
| HistoryRing.HoldsTheNewest | src/espbase/circular_history_buffer.cpp:39-58 | in every run the ring holds the newest bytes of all that the writes were given, however they were cut |
| HistoryRing.ReadersSeeHistory | src/espbase/circular_history_buffer.cpp:71-102 | in every run of writes and reads by any number of readers, a reader is given slices of the history in order, none twice, and skips only bytes overwritten before it read them |
| HistoryRing.NothingMissed | src/espbase/circular_history_buffer.cpp:79-82 | a reader that is never a lap behind gets the history without gaps |
| MainLoopTasks.BumpedByIsRepeated | src/espbase/main_loop_task.cpp:26-32 | repeated bumps are a cycle through all versions but 0 |
| MainLoopTasks.BumpsReturn | src/espbase/main_loop_task.cpp:26-32 | a version comes back exactly after a whole number of laps |
| MainLoopTasks.StepKeepsInv | src/espbase/main_loop_task.cpp:7-165 | every atomic step of any number of competing callers, timer and main loop keeps the invariant |
| MainLoopTasks.NoStall | src/espbase/main_loop_task.cpp:7-151 | in every reachable state, unless a push or start has failed: a running, active task has a step queued or running, its timer armed, or a caller on the way to a push |
| MainLoopTasks.NoLostNotify | src/espbase/main_loop_task.cpp:26-42 | after a successful compare-exchange by any `notify`, however many compete, in every run the task is inactive only if a callback has since run in a step that sampled the version after that bump |
| MainLoopTasks.RequestStays | src/espbase/main_loop_task.cpp:7-24 | a request to stop is made by `politely_request_stop` and taken back exactly by an accepted start or clearing `notify` |
| MainLoopTasks.PoliteStop | src/espbase/main_loop_task.cpp:134-137 | from a polite request on, while nobody takes it back, no step that enters its callback arms the timer, whatever the callback returns, and each goes on to the exchange to 0 |
| MainLoopTasks.DeactivatesNext | src/espbase/main_loop_task.cpp:134-151 | which is the next thing it does, and makes the task inactive unless it has been bumped since the step sampled |
| MainLoopTasks.DelayArms | src/espbase/main_loop_task.cpp:138-145 | without a request, a step whose callback asks for a delay ends only by arming the timer, unless a `reset` comes in |
| MainLoopTasks.EveryKickPushes | src/espbase/main_loop_task.cpp:7-42 | in every run as many calls push a step as have bumped the version or found the task active, but for those still on their way |
| MainLoopTasks.TimerStops | src/espbase/main_loop_task.cpp:13-36 | such a call stops the timer first; and the timer fires once |
| MainLoopTasks.TerminateIsHeeded | src/espbase/main_loop_task.cpp:45-56 | once a `reset` has begun no further step enters its callback and the timer does not fire, until the next start |
| MainLoopTasks.OnlyLatestDeactivates | src/espbase/main_loop_task.cpp:134-151 | a step's compare-exchange to 0 succeeds if and only if it sampled after the latest bump |
| MainLoopTasks.InflightCounts | src/espbase/main_loop_task.cpp:39-42 | the in-flight count is never below the steps queued and running, and equal when no push has failed or is in progress |
| MainLoopTasks.ResetJoins | src/espbase/main_loop_task.cpp:60-63 | a `reset` that sees 0 or takes the token leaves no step; while it waits the count is positive or the token is there |
| MainLoopTasks.QuietAfterReset | src/espbase/main_loop_task.cpp:45-72 | after `reset` nothing but calls that do nothing can happen until the next start |

## Left out

- Floats: their text and reading depend on the C library.
- `vsnprintf` is a parameter of `Printing.VPrint` (the formatted text, or an error); `print_utctime` is not modelled.
- Values given as printer or array-emitter lambdas, and `StreamArrayDocument`: `Printing` covers what a printer writes, but the lambdas' own control flow is not part of the model.
- Templates and lifetimes: perfect forwarding, tuples, static path constructors, `node_if` overloads.
- `std::span<char>` bindings, whose span shrinks with every use; `Decoding.DecodeJsonString` and `Decoding.DecodeIntoEnough` say what one decoding into such a span gives.
- Catch-all callbacks of the parser, `DynamicNode::parse` (a parse of the captured text) and the type queries on dynamic nodes.
- A nested document is data (`VDoc`) whose node objects are created for each emission. The original keeps them, but their flags on entry do not matter to `Documents.EmitJsonNodes`.
- Strings behind views: the model has no dangling pointers and no views that change under a binding.
- Buffers.PrettyBuffer.WriteIndent, Buffers.PrettyBuffer.WriteStructural and Buffers.PrettyBuffer.Write: ask that depth times indent stays at most 255, because past that the indentation loop does not end.
- Buffers.PrettyBuffer.Write: does not say which part of a text that does not fit is there, nor the state it leaves then.
- Buffers.Sink.Write: asks for the same bound on the indentation.
- Documents.EmitJsonNodes: asks that no later path is a proper prefix of an earlier one and that none is empty, because the emitter indexes into the path; into a growing buffer it asks for an `ExpandSize` of at least 21, the longest integer.
- Documents.EmitJsonNodes: for a pretty buffer asks that the text fits with depth times indent within 255, or that depth plus all opening brackets, those in strings included, stays so: after a failed write the buffer may take strings for structure, and past 255 its indentation loop does not end.
- Documents.EmitBothWays: does not compare single calls where a pretty buffer's destination overflows.
- Writers.WriteNumber: asks for that `ExpandSize` too.
- Writers.WriteUnsigned: asks the same.
- Writers.WriteSigned: asks the same.
- Integers.FromCharsReadsIntText: `std::from_chars` is modelled by its documented behaviour, for integers.
- Iteration.Extract: does not model extraction into another dynamic binding, which the original does not offer.
- Printing.VPrint: on failure the cells behind the committed text are left open.
- Emitted.EmitThenParse: asks for prefix-free paths and for `Traced`, because objects in arrays move what follows them.
- Delivery.ParsedDocument: asks for distinct bindings whose paths are all there and `Traced`, because objects in arrays move what follows them; what any bindings get is in `Delivery.LastDecides` and `Presence.SetExactly`.
- Presence.SetIsPresent: asks for a non-empty first key; the empty one is set by the document itself (`Presence.SetExactly`).
- HistoryRing.CircularHistoryBuffer.Write: does not model the listeners, the lock, or the wrap of the 64-bit total.
- HistoryRing.CircularHistoryBuffer.ReadNext: asks for a cursor not beyond what has been written, and for a ring of positive size.
- MainLoopTasks.NoLostNotify: assumes fewer bumps during one step than there are versions (`NoWrap`); `MainLoopTasks.BumpsReturn` says exactly when a version repeats.
- MainLoopTasks.StepKeepsInv: `start` and `reset` overlap no other call; calls of `notify` and `politely_request_stop` overlap each other freely.
- MainLoopTasks.ResetJoins: the opening part of `reset` and the final decrement with the give are one step each, and `reset` does not time out.
- Weak memory order, the wrap of the 32-bit in-flight count, the power-management locks, and the insides of FreeRTOS queue, timer and semaphore.
- Calls made from within a callback are the same steps as calls from another thread; a `reset` from within one, which would wait for itself, is not told apart.

# WhatsApp chat analysis core, modelled in Dafny

This project models two cores of the repository and proves properties about them.

**The chat parser** is the Rust library in `extern_libs/rust/src/lib.rs`.
`parse_whatsapp_chat` does the following:
- it splits an exported WhatsApp chat into lines;
- it recognises message headers (`d/m/yy, hh:mm - Author: text`) with a byte-length pre-filter and `LINE_PATTERN`;
- it parses their date with `parse_datetime`;
- it skips system lines (`SYSTEM_PATTERN`) and appends other lines to the open message;
- it files every finished message under its author, then turns the map into a participants list.

The model keeps the source's loop over local variables as a `method` with a `for` loop. The loop invariant ties the locals to a functional fold (`Run`). The main theorem (`ChatParser.RunFinish`, `ChatParser.ChatMessages`) proves that the fold files the same messages as an independent, block-based reading of the chat (`Messages`): one message per accepted header, holding the header's text and the lines that continue it.

**The host bridge** is `main.dart.mjs`, the JavaScript side of a Dart program compiled to WebAssembly. The model covers these parts of it:
- the `wasm:js-string` polyfill: `compare`, `equals`, `substring`, `fromCharCodeArray` and `intoCharCodeArray`;
- the typed-array copy loops `_1513`–`_1522` and the buffer slice `_1374`;
- the type tagging `_1508` and the buffer ownership test `_1373`;
- the strict number parser `_1321`, the stack trimmer `_1322` and the RegExp escaper `_1524`;
- the marking of wrapped Dart functions (`finalizeWrapper`, `_1483`, `_1495`);
- the merge of the import object given to `WebAssembly.instantiate`.

JavaScript strings are sequences of UTF-16 code units (`JsString.CodeUnit`). Wasm and JavaScript arrays are Dafny `array`s, updated in place by the copy loops.

Modules:
- `Wrappers`: `Option`/`Result`.
- `Scanning`: greedy scanners shared by the recognisers.
- `ChatLine`: the header pattern, the pre-filter, the system pattern and the date format test.
- `ChatParser`: the loop and its reference.
- `ChatExamples`: the two unit tests of `lib.rs`, worked through the model.
- `HostArrays`: the copy loops and the buffer slice.
- `JsString`: the polyfill.
- `ValueTag`: `_1508` and `_1373`.
- `NumberLiteral`: `_1321`.
- `StackTrace`: `_1322`.
- `RegExpEscape`: `_1524`.
- `DartWrapper`: marking of wrapped Dart functions.
- `Imports`: the import-object merge.

Two behaviours of the Rust loop are modelled as written and proved as properties of the model:
- **The "treat as continuation" branch cannot fire.** A header whose date does not parse first flushes the open message, and flushing empties the buffer. So the branch that would append the line to the buffer finds it empty and does nothing (`ChatParser.RejectedHeaderOnlyFlushes`).
- **Short headers are read as ordinary lines.** The pre-filter `line.len() > 20` counts UTF-8 bytes. A line is at least 19 characters long whenever `LINE_PATTERN` matches it (`ChatLine.MatchedLineLength`), yet the pre-filter requires more than 20 bytes (`ChatLine.HeaderOfExact`). So a well-formed header of 19 or 20 bytes, such as `1/1/22, 1:30 - A: x`, is not taken for a header: it continues the previous message, or is dropped when no message is open.

## Model

| member | source | states |
|---|---|---|
| ChatParser.StripCr | extern_libs/rust/src/lib.rs:53 | `str::lines` drops at most one carriage return at the end of a line and never introduces a line feed |
| ChatParser.Lines | extern_libs/rust/src/lib.rs:53 | no line produced by `content.lines()` contains a line feed |
| ChatParser.JoinOfLines | extern_libs/rust/src/lib.rs:53 | a text without carriage returns and without a final line feed is recovered by joining its lines |
| ChatParser.LinesCons | extern_libs/rust/src/lib.rs:53 | a line followed by a line feed is split off as the first line |
| ChatParser.LinesStep | extern_libs/rust/src/lib.rs:53 | one step of the split: the text up to the first line feed, minus a final carriage return, is the first line |
| ChatParser.FirstLineSpan | extern_libs/rust/src/lib.rs:53 | the first line of `a` + line feed + `rest` ends exactly after `a` |
| ChatParser.LinesOfJoin | extern_libs/rust/src/lib.rs:53 | lines without line feeds or final carriage returns, the last one non-empty, come back unchanged from their join |
| ChatLine.DatePrefixIsConcat | extern_libs/rust/src/lib.rs:34 | the date text of capture 1 followed by a tail is the written date prefix |
| ChatLine.HeaderPrefixIsConcat | extern_libs/rust/src/lib.rs:34 | the matched header text followed by a tail is the written header prefix |
| ChatLine.DigitsThen | extern_libs/rust/src/lib.rs:34 | `\d{lo,hi}` then a literal: on success the digits are within the bounds and the input is digits + literal + rest |
| ChatLine.MatchDate | extern_libs/rust/src/lib.rs:34 | capture 1 `\d{1,2}/\d{1,2}/\d{2,4}, \d{1,2}:\d{2}`: a match has well-formed digit groups and is a prefix of the input |
| ChatLine.TwoDigits | extern_libs/rust/src/lib.rs:34 | `\d{2}` succeeds exactly when the input starts with two digits |
| ChatLine.MatchDateComplete | extern_libs/rust/src/lib.rs:34 | every well-formed date is found, with its own digit groups, whatever follows it |
| ChatLine.TwoDigitsComplete | extern_libs/rust/src/lib.rs:34 | two digits are always taken as the minutes |
| ChatLine.DigitsThenComplete | extern_libs/rust/src/lib.rs:34 | a digit group within the bounds followed by the literal is always found |
| ChatLine.MatchSender | extern_libs/rust/src/lib.rs:34 | ` - ([^:]+): (.+)`: the author is non-empty and has no colon, the content is non-empty and stops at a line feed, and the input is re-assembled from the captures |
| ChatLine.MatchSenderComplete | extern_libs/rust/src/lib.rs:34 | any such author and content are captured exactly |
| ChatLine.MatchLine | extern_libs/rust/src/lib.rs:34 | `LINE_PATTERN.captures` returns captures with which the pattern matches the line |
| ChatLine.MatchLineExact | extern_libs/rust/src/lib.rs:34 | the recogniser returns `h` if and only if the pattern matches the line with captures `h` |
| ChatLine.MatchLineComplete | extern_libs/rust/src/lib.rs:34 | every well-formed header, at the end of a line, is recognised as itself |
| ChatLine.MatchedLineLength | extern_libs/rust/src/lib.rs:34 | every line the pattern matches is at least 19 characters long |
| ChatLine.Utf8Width | extern_libs/rust/src/lib.rs:76 | a scalar value takes 1 to 4 UTF-8 bytes |
| ChatLine.Utf8Len | extern_libs/rust/src/lib.rs:76 | `str::len` is between the character count and four times it, and equals the character count on ASCII text |
| ChatLine.HeaderOfExact | extern_libs/rust/src/lib.rs:76-77 | the pre-filter and the pattern together accept `h` if and only if the line is longer than 20 bytes and the pattern matches it with `h`: the two `contains` tests decide nothing of their own |
| ChatLine.HeaderContainsDash | extern_libs/rust/src/lib.rs:76 | a header line contains " - " |
| ChatLine.HeaderContainsColon | extern_libs/rust/src/lib.rs:76 | a header line contains ": " |
| ChatLine.ContainsAnyIff | extern_libs/rust/src/lib.rs:35-45 | the alternation matches if and only if one of its alternatives occurs in the line |
| ChatLine.NoneContinued | extern_libs/rust/src/lib.rs:35-45 | alternatives that begin with the raw string's continuation (line feed and indentation) never occur on a single line |
| ChatLine.SystemLineOnSingleLine | extern_libs/rust/src/lib.rs:35-45 | on a line without a line feed, `SYSTEM_PATTERN` matches if and only if the first phrase occurs |
| ChatLine.ParseDatetimeOfCapture | extern_libs/rust/src/lib.rs:139-150 | on a captured date, `YEAR_4_DIGITS` matches if and only if the year has four digits, and `parse_datetime` parses with `%Y` then and with `%y` otherwise |
| ChatParser.ClassifierOpensNonEmpty | extern_libs/rust/src/lib.rs:76-96 | an accepted header always opens a non-empty message |
| ChatParser.ClassifySound | extern_libs/rust/src/lib.rs:76-96 | an accepted header has a non-empty, colon-free author and a non-empty content without line feed |
| ChatParser.ClassifyHeader | extern_libs/rust/src/lib.rs:76-111 | a line is taken for a header, accepted or with an unparsable date, if and only if the pre-filter and the pattern accept it |
| ChatParser.SaveMessage | extern_libs/rust/src/lib.rs:59-72 | `save_message` adds the author's key, appends the scored message to the author's list, and leaves every other author's list alone |
| ChatParser.FlushPending | extern_libs/rust/src/lib.rs:79-85 | saving the previous message keeps author and time and leaves the buffer empty |
| ChatParser.ApplyInv | extern_libs/rust/src/lib.rs:74-118 | every iteration keeps the buffer tied to an author and a time |
| ChatParser.RunInv | extern_libs/rust/src/lib.rs:74-118 | the whole loop keeps that invariant |
| ChatParser.RejectedHeaderOnlyFlushes | extern_libs/rust/src/lib.rs:97-103 | a header whose date does not parse only files the open message; the continuation branch never appends |
| ChatParser.UnbufferedLineIgnored | extern_libs/rust/src/lib.rs:108-117 | with nothing buffered, a system line or a plain line changes nothing |
| ChatParser.Messages | extern_libs/rust/src/lib.rs:74-125 | the reference reading of a chat yields at most one message per line |
| ChatParser.ByAuthor | extern_libs/rust/src/lib.rs:68-71 | the messages selected for a name are all by that author, and every message by that author is selected |
| ChatParser.SaveAllAppend | extern_libs/rust/src/lib.rs:68-71 | filing two runs of messages is filing the first, then the second |
| ChatParser.SaveAllGroups | extern_libs/rust/src/lib.rs:68-71 | after filing, each author's list is the old list followed by that author's messages in order, and a name is a key exactly when it was one or wrote a message |
| ChatParser.FinishSaves | extern_libs/rust/src/lib.rs:121-125 | saving the last message files the open message, if any |
| ChatParser.StepSaves | extern_libs/rust/src/lib.rs:74-118 | one iteration against the reference: what it files plus what is still open equals the open message and blocks of the reference |
| ChatParser.SystemSaves | extern_libs/rust/src/lib.rs:109-111 | a system line changes neither the state nor the reference messages |
| ChatParser.PlainSaves | extern_libs/rust/src/lib.rs:113-117 | a plain line files nothing and moves from the reference's continuation into the buffer |
| ChatParser.RejectedSaves | extern_libs/rust/src/lib.rs:97-104 | a header with an unparsable date files the open message and opens none |
| ChatParser.AcceptedSaves | extern_libs/rust/src/lib.rs:78-96 | an accepted header files the open message and opens its own |
| ChatParser.RunFinish | extern_libs/rust/src/lib.rs:74-125 | from any reachable state, the loop plus the final save files the open message and then exactly the reference messages |
| ChatParser.ChatMessages | extern_libs/rust/src/lib.rs:50-125 | the participants map of a whole chat is the reference messages filed by author |
| ChatParser.AcceptedLines | extern_libs/rust/src/lib.rs:76-96 | every selected line is an accepted header, every accepted header of the chat is selected, and no more lines come out than go in |
| ChatParser.AcceptedLinesAppend | extern_libs/rust/src/lib.rs:74-76 | the selection keeps the order of the chat: it distributes over concatenation |
| ChatParser.MessageCount | extern_libs/rust/src/lib.rs:74-125 | a chat yields as many messages as it has accepted headers |
| ChatParser.MessageFromHeader | extern_libs/rust/src/lib.rs:87-96 | the i-th message has the author and time of the i-th accepted header, its content starts with the header's text, and its score is that of its content |
| ChatParser.NamesMembers | extern_libs/rust/src/lib.rs:128-131 | a name is listed exactly when some participant entry has it |
| ChatParser.NamesOfDistinct | extern_libs/rust/src/lib.rs:128-131 | distinct names are as many as the entries |
| ChatParser.ParticipantCount | extern_libs/rust/src/lib.rs:128-135 | the participants list has one entry per key of the map |
| ChatParser.CollectParticipants | extern_libs/rust/src/lib.rs:128-131 | the list has one entry per author of the map, with that author's messages, and no name twice |
| ChatParser.ParseWhatsappChat | extern_libs/rust/src/lib.rs:50-136 | the result lists the messages of the chat filed by author, and gives each listed author exactly the messages of the chat written by that author, in chat order |
| ChatParser.FiledByAuthor | extern_libs/rust/src/lib.rs:59-72 | filed into an empty map, each key holds exactly its author's messages, and at least one |
| ChatParser.AuthorFiled | extern_libs/rust/src/lib.rs:59-72 | the author of every filed message is a key |
| ChatParser.ListedByAuthor | extern_libs/rust/src/lib.rs:128-131 | a participants list of the filed messages gives each entry exactly, and only, its author's messages in order, and lists every author of a message |
| ChatExamples.HeaderRecognised | extern_libs/rust/src/lib.rs:76-77 | a header written on its own line and longer than 20 bytes is recognised as itself |
| ChatExamples.HeaderAccepted | extern_libs/rust/src/lib.rs:87-96 | such a header, with a two-digit year whose date parses, opens a message with its author, time and text |
| ChatExamples.PlainLine | extern_libs/rust/src/lib.rs:76-111 | a line without line feed, dash or "j" is neither a header nor a system line |
| ChatExamples.OnlyHeaders | extern_libs/rust/src/lib.rs:74-118 | a chat made only of accepted headers yields one message per line, each with just its header's text |
| ChatExamples.TestHeaderAccepted | extern_libs/rust/src/lib.rs:76-96 | a test header line (two-digit year, longer than 20 bytes, alone on its line) whose date parses is accepted with its author, time and text |
| ChatExamples.SaveThree | extern_libs/rust/src/lib.rs:59-72 | saving three messages, the first and last by one author, gives that author both of them in order and the other author the middle one |
| ChatExamples.ThreeHeaderLines | extern_libs/rust/src/lib.rs:53 | three test header lines joined by line feeds are split back into the same three lines |
| ChatExamples.TwoAuthorsThreeHeaders | extern_libs/rust/src/lib.rs:59-72 | three accepted headers by two authors file two messages under the first author and one under the other |
| ChatExamples.ThreeHeaderChat | extern_libs/rust/src/lib.rs:50-125 | the same for three header lines joined into a chat |
| ChatExamples.SimpleHeaders | extern_libs/rust/src/lib.rs:204-206 | the three lines of the simple test chat are test header lines |
| ChatExamples.SimpleChatParticipants | extern_libs/rust/src/lib.rs:203-210 | the simple test chat files "Hola" and "¿Cómo estás?" under "Alice", and "Hola Alice" under "Bob" |
| ChatExamples.ParseSimpleChat | extern_libs/rust/src/lib.rs:203-210 | `test_parse_simple_chat`: the parser returns two participants |
| ChatExamples.HeaderTwoLinesHeader | extern_libs/rust/src/lib.rs:113-117 | a header, two continuing lines and another author's header: the first message is the header's text and the two lines, joined by line feeds |
| ChatExamples.HeaderWithTwoLines | extern_libs/rust/src/lib.rs:50-125 | the same for such lines joined into a chat |
| ChatExamples.Multi1Header | extern_libs/rust/src/lib.rs:214 | the first line of the multiline test chat is a test header line |
| ChatExamples.Multi2Header | extern_libs/rust/src/lib.rs:217 | the last line of the multiline test chat is a test header line |
| ChatExamples.ContinuedPlain | extern_libs/rust/src/lib.rs:215 | the second line of the multiline test chat is plain text (no line feed, dash or "j"), so it is neither a header nor a system line |
| ChatExamples.AgainPlain | extern_libs/rust/src/lib.rs:216 | the third line of the multiline test chat is plain text, so it is neither a header nor a system line |
| ChatExamples.MultilineParticipants | extern_libs/rust/src/lib.rs:212-226 | in the multiline test chat, Alice's one message spans the three lines and contains "continúa" |
| ChatExamples.ParseMultilineChat | extern_libs/rust/src/lib.rs:212-226 | `test_multiline_message`: the participant "Alice" has a first message containing "continúa" |
| JsString.LessIff | main.dart.mjs:745-749 | string `<` holds if and only if the first string is a proper prefix of the second, or they first differ at a code unit where the first is smaller |
| JsString.PrefixIsLess | main.dart.mjs:745-749 | a proper prefix comes first |
| JsString.DifferenceIsLess | main.dart.mjs:745-749 | a smaller unit at the first difference comes first |
| JsString.LessDifference | main.dart.mjs:745-749 | when neither is a prefix of the other, a smaller string has a first difference where its unit is smaller |
| JsString.LessIrreflexive | main.dart.mjs:745-749 | no string is below itself |
| JsString.LessAsymmetric | main.dart.mjs:745-749 | two strings are never below each other |
| JsString.LessTransitive | main.dart.mjs:745-749 | the order is transitive |
| JsString.LessTotal | main.dart.mjs:745-749 | of two distinct strings one is below the other |
| JsString.CompareSpec | main.dart.mjs:745-749 | `compare` yields -1, 0 or 1, gives 0 exactly on equal strings, -1 exactly when `s1 < s2`, and is antisymmetric |
| JsString.Equals | main.dart.mjs:751 | `equals` holds exactly when both strings have the same length and the same unit at every position |
| JsString.EqualsIsCompareZero | main.dart.mjs:751 | `equals` agrees with `compare` giving 0 |
| JsString.Clamp | main.dart.mjs:754 | a `substring` position is clamped into the string |
| JsString.SubstringSpec | main.dart.mjs:754 | `substring` does not depend on the order of its arguments, is the slice within range, stops at the ends out of range, and is never longer than the string |
| JsString.FromCharCodeArray | main.dart.mjs:755-774 | the result is the units in `[start, end)`, or empty when `end <= start`; the chunks passed to `String.fromCharCode` hold 1 to 500 units, all but the last exactly 500, and concatenate to the result |
| JsString.Slice | main.dart.mjs:769 | `array.slice(0, n)` is a fresh array of the first `n` elements |
| JsString.IntoCharCodeArray | main.dart.mjs:775-783 | the units of the string are written from `start` on, nothing else changes, and the string's length is returned |
| JsString.IntoThenFromCharCodeArray | main.dart.mjs:755-783 | writing a string into an array and reading the same range back gives the string |
| HostArrays.OverwriteSpec | main.dart.mjs:620-667 | a copy changes exactly the `length` slots from the offset, to the copied elements |
| HostArrays.CopyToJs | main.dart.mjs:620-667 | the getter loops `_1513`, `_1517`, `_1519` and `_1521` write the wasm array's range into the JS array from its offset and change nothing else; no change for `length <= 0` |
| HostArrays.CopyFromJs | main.dart.mjs:620-667 | the setter loops `_1514`, `_1518`, `_1520` and `_1522` write the JS array's range into the wasm array, the same way |
| HostArrays.CopyRoundTrip | main.dart.mjs:620-631 | copying a range out and back in leaves the wasm array as it was, and both ranges equal |
| HostArrays.CopyBufferSlice | main.dart.mjs:485-489 | `_1374` throws a `RangeError` exactly when the byte range is outside the buffer; otherwise it returns a fresh buffer holding those bytes |
| ValueTag.ViewTag | main.dart.mjs:596-607 | the chain of `instanceof` tests returns the tag of the first view the object is an instance of, or nothing when it is none |
| ValueTag.TypeTagIsFirstMatch | main.dart.mjs:589-615 | `_1508` returns a tag in 1..18 whose test holds, and no tag before it in priority holds |
| ValueTag.FirstMatchIsTypeTag | main.dart.mjs:589-615 | conversely, the first tag whose test holds is the tag returned |
| ValueTag.TagGuards | main.dart.mjs:596-614 | tag 17 only when `SharedArrayBuffer` exists, view tags only for views, and null, BigInt and Symbol get 18 |
| ValueTag.TagsOfGenuineValues | main.dart.mjs:589-615 | every tag is reachable: each genuine view gets its own, and undefined, booleans, numbers, strings, arrays and the two buffers get theirs |
| ValueTag.BufferOwnershipAgreesWithTypeTag | main.dart.mjs:477-484 | `_1373` returns 0..2, agrees with tags 16..18 of `_1508`, and returns 1 only when `SharedArrayBuffer` exists |
| NumberLiteral.ScanSign | main.dart.mjs:425 | `[+-]?`: the sign taken is written in front of the rest |
| NumberLiteral.ScanIntPart | main.dart.mjs:425 | `\d+(?:\.\d*)?`: a well-formed mantissa, written in front of the rest |
| NumberLiteral.ScanFractionOnly | main.dart.mjs:425 | `\.\d+`: likewise |
| NumberLiteral.ScanMantissa | main.dart.mjs:425 | either mantissa form: likewise |
| NumberLiteral.ScanSignedDigits | main.dart.mjs:425 | `[+-]?\d+`: a sign and non-empty digits, written in front of the rest |
| NumberLiteral.ScanExponent | main.dart.mjs:425 | the optional `[eE][+-]?\d+`: well formed, written in front of the rest |
| NumberLiteral.ScanDecimal | main.dart.mjs:425 | mantissa and exponent: a well-formed body written in front of the rest |
| NumberLiteral.ScanBody | main.dart.mjs:425 | `Infinity`, `NaN` or a decimal: likewise |
| NumberLiteral.Scan | main.dart.mjs:425 | an accepted string is a well-formed literal that renders to it |
| NumberLiteral.ScanSignComplete | main.dart.mjs:425 | every sign is read back |
| NumberLiteral.IntPartComplete | main.dart.mjs:425 | integer digits without a dot are read back |
| NumberLiteral.IntPartWithFractionComplete | main.dart.mjs:425 | digits, a dot and digits are read back |
| NumberLiteral.FractionOnlyComplete | main.dart.mjs:425 | a dot and digits are read back |
| NumberLiteral.ScanMantissaComplete | main.dart.mjs:425 | every well-formed mantissa is read back |
| NumberLiteral.SignedDigitsComplete | main.dart.mjs:425 | every signed digit run is read back |
| NumberLiteral.ExponentComplete | main.dart.mjs:425 | every well-formed exponent is read back |
| NumberLiteral.ScanExponentComplete | main.dart.mjs:425 | an optional exponent, present or absent, is read back |
| NumberLiteral.ScanDecimalComplete | main.dart.mjs:425 | every well-formed decimal body is read back |
| NumberLiteral.NotNamed | main.dart.mjs:425 | a decimal body starts neither with "Infinity" nor with "NaN" |
| NumberLiteral.DecimalComplete | main.dart.mjs:425 | the body scanner reads a decimal body back |
| NumberLiteral.ScanBodyComplete | main.dart.mjs:425 | every well-formed body is read back |
| NumberLiteral.ScanComplete | main.dart.mjs:425 | every well-formed literal is accepted, and its syntax tree is recovered |
| NumberLiteral.ScanSound | main.dart.mjs:425 | the test accepts a string if and only if it spells out a well-formed literal |
| NumberLiteral.ParseStrictFollowsGrammar | main.dart.mjs:424-429 | `_1321` calls `parseFloat` exactly on strings of the grammar and yields NaN for all others |
| NumberLiteral.SignedExponentAccepted | main.dart.mjs:425 | "  +3.5e2  " is accepted with its syntax tree |
| NumberLiteral.LettersRejected | main.dart.mjs:425-427 | "abc" is rejected |
| NumberLiteral.LoneDotRejected | main.dart.mjs:425-427 | "." is rejected |
| NumberLiteral.DanglingExponentRejected | main.dart.mjs:425-427 | "1e" is rejected |
| NumberLiteral.NaNAccepted | main.dart.mjs:425 | "NaN" is accepted |
| NumberLiteral.LeadingDotAccepted | main.dart.mjs:425 | ".5" is accepted |
| NumberLiteral.TrailingDotAccepted | main.dart.mjs:425 | "5." is accepted |
| StackTrace.LineEnd | main.dart.mjs:432 | the first newline's position, with no newline before it |
| StackTrace.Split | main.dart.mjs:432 | `split('\n')` gives at least one piece, none holding a newline |
| StackTrace.JoinSplit | main.dart.mjs:432-437 | joining the pieces of a split gives the string back |
| StackTrace.SplitJoin | main.dart.mjs:432-437 | splitting a join of newline-free pieces gives the pieces back |
| StackTrace.TrimStackLines | main.dart.mjs:430-438 | the result's lines are the stack's lines from the third on (the fourth when the first is "Error"), or the result is empty when the stack has no more lines |
| StackTrace.TrimStackSuffix | main.dart.mjs:430-438 | the result is always a tail of the stack text |
| StackTrace.JoinSuffix | main.dart.mjs:437 | the join of the pieces from `d` on is a tail of the join of all of them |
| StackTrace.HeaderAndTwoFramesDropped | main.dart.mjs:430-438 | for "Error" and three frames, only the third frame remains |
| RegExpEscape.ReplaceAllWithoutMeta | main.dart.mjs:670-671 | without a metacharacter the replacement changes nothing |
| RegExpEscape.EscapeIsReplaceAll | main.dart.mjs:669-674 | `_1524`'s guarding `test` makes no difference: the result is always the replacement |
| RegExpEscape.EscapeLength | main.dart.mjs:669-674 | the result is one unit longer per metacharacter |
| RegExpEscape.ReplaceAllLength | main.dart.mjs:671 | likewise for the replacement |
| RegExpEscape.UnescapeEscape | main.dart.mjs:669-674 | the original string is recovered from the escaped one by dropping each escaping backslash |
| RegExpEscape.UnescapeReplaceAll | main.dart.mjs:671 | likewise for the replacement |
| RegExpEscape.EscapedMetaIsQuoted | main.dart.mjs:669-674 | each metacharacter `s[i]` stands right after a backslash, at the position where the escaping of `s[..i]` ends |
| RegExpEscape.EscapedPrefix | main.dart.mjs:669-674 | the escaping of a prefix of `s` is the head of the escaping of `s` |
| RegExpEscape.PlainUnitKept | main.dart.mjs:669-674 | every other unit `s[i]` stands unchanged at that position, followed by the escaping of the rest of `s` |
| RegExpEscape.ReplaceAllAppend | main.dart.mjs:671 | the global replacement works unit by unit: it distributes over concatenation |
| DartWrapper.FinalizeWrapper | main.dart.mjs:80-84 | the wrapper gets the Dart function and the mark, and the same object is returned |
| DartWrapper.JsFunction.constructor | main.dart.mjs:80-84 | a function object not yet finalized carries neither the `dartFunction` property nor the mark |
| DartWrapper.WrapDartFunction | main.dart.mjs:80-84 | a fresh wrapper is recognised by `_1483` and unwrapped by `_1495` to the same Dart function |
| DartWrapper.RecognisedWrapperUnwraps | main.dart.mjs:562-575 | a value that is not a function is never taken for a wrapper, and a recognised wrapper always unwraps to a Dart function |
| Imports.MergeImportsSpec | main.dart.mjs:790-795 | the merged imports have the keys of both objects and "wasm:js-string"; that key is always the polyfill; an additional import overrides a bridge import of the same name; other bridge imports are kept |

## Left out

- Sentiment scoring (`sentiment::get_sentiment_score`) is a parameter `score` of the parser. The model does not compute it, and it models the `f32` score as a `real`.
- `chrono`'s `NaiveDateTime::parse_from_str` and `timestamp_millis` are a parameter `chrono`. The model does not check calendar validity or compute the epoch arithmetic; only the choice between the two formats is modelled.
- `\d` in `LINE_PATTERN` and `YEAR_4_DIGITS` is modelled as ASCII digits. The regex crate's `\d` also matches other Unicode decimal digits.
- `HashMap` iteration order is not modelled. `ChatParser.CollectParticipants` lists the map's entries in an order it picks, with no two entries for the same name.
- The FFI and serialisation around `parse_whatsapp_chat` are not modelled (the `#[no_mangle]` exports and serde).
- `parseFloat`'s numeric value and double rounding are a parameter of `NumberLiteral.ParseStrict`.
- The number conversions the typed arrays perform on store (i8/i32 wrap-around, f32 rounding) are not modelled. In `HostArrays.CopyToJs`/`CopyFromJs` both arrays hold values of one type.
- Reading or writing outside an array is a trap in wasm and a silent no-op in JavaScript. The copy loops, `fromCharCodeArray` and `intoCharCodeArray` therefore require in-range, integer offsets.
- `instanceof` across realms and objects with altered prototypes are not modelled. An object is described by the constructor prototypes on its chain and by whether it is a view.
- The one-line polyfill members `charCodeAt`, `concat`, `length`, `fromCharCode` and `test` are not modelled because they are the host's own primitives.
- The trampolines `_7`/`_8` stand in as `DartWrapper.WrapDartFunction`; their argument forwarding to the Dart export is not modelled.
- Imports.MergeImportsSpec: the key order of the spread object is not modelled, only its keys and values.
- The DOM bindings, timers, promises, module compilation and instantiation, and every other import of `main.dart.mjs` are outside this model.

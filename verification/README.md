# A verified model of the JSON codec and the message broker

This project models two linked components of the repository and proves properties of the model with
Dafny 4.11. `dafny verify dfyconfig.toml` checks all of it.

**The JSON codec** (`common/jsoncpp/jsoncpp.cpp`): the scanner, the recursive parser with its cursor,
node stack, error list and recovery, the number and string decoders, the two writers, the order of
values, sparse arrays and the batch allocator.

**The broker** (`corebroker_oldcpp/src`): the wire format of a message, the reassembly of frames from
chunks, the login, the routing through the node list, and all threads together as a transition system.

## How it is built

Where the source computes, the model is a function; where it changes state step by step, the model is
a class or a loop, and its contract ties the new state to such a function. What the source promises is
then proved about the functions, for all inputs, and about the transition system, for all runs.

| files | contents |
|---|---|
| `Text`, `Numbers`, `Utf8`, `Strings`, `Spellings` | characters, the 64-bit number codec, UTF-8, quoting and escapes, what strings may look like |
| `Values`, `Arrays`, `Allocator` | the value tree and its order, sparse arrays, `BatchAllocator` |
| `Tokens`, `Characters` | the scanner as functions, and which characters make which token |
| `Parser`, `Reading`, `Diagnoses` | the parser as functions, the `Reader` class that refines them, what the errors say |
| `Grammar`, `Leniency`, `JsonTexts` | which token streams are accepted, where that is more than strict JSON, and JSON as RFC 8259 spells it |
| `Layout`, `Writers`, `Streams`, `Pages` | what the writers print, the two writer classes, the tokens and the lines of what they print |
| `RoundTrip`, `Canonical`, `Formatting` | print and parse, canonical trees, parse and print |
| `Factoring`, `Locality` | parsing depends on tokens alone; the offsets of a parsed tree |
| `Messages`, `Wire`, `Frames` | `TMessage`, frames through the wire, chunks |
| `Logins`, `Splits`, `Deliveries`, `Trains` | the login message, messages that contain a sentinel, what the receive loop routes, frames in a row |
| `Nodes`, `Broker`, `Runs`, `Walks` | the broker's classes, its transition system, what holds over every run, which node a message goes to |
| `Contents`, `Threads`, `Passages` | the threads with the characters they read and write, the loops they run, and what arrives of what was sent |

Text is a `string` with one character per byte. A reader works on the suffix of the document it has
left; the offset of a suffix is the length of the document less its own. Doubles are opaque bit
patterns, and the two C library calls that read and print them are parameters. A `Value` carries its
offsets; `Strip` forgets them. `Canon` is the tree a printed tree is read back as: gaps in arrays
become nulls, a number is a signed one up to 2^31-1 and an unsigned one above.

## What the proofs brought to light

- Behind a comment any token but a closing brace passes for the comma after a member
  (`Grammar.MemberEndCases`, `Leniency.CommentForComma`).
- A lone `-` is the number 0 (`Leniency.LoneMinus`), and leading zeros are accepted (`Leniency.LenientIntegers`,
  `Leniency.LeadingZeros`).
- A trailing comma is accepted behind a member with an empty name, and only there
  (`Leniency.BraceForName`, `Leniency.TrailingCommaAccepted`).
- Raw control characters are accepted in strings (`Leniency.LenientStrings`, `Leniency.RawTab`), and JSON strings with
  a lone high surrogate are not (`Leniency.JsonStringsDecode`, `Leniency.LoneSurrogate`); of JSON values that is, but
  for numbers left to the C library, the only kind that is not read (`Leniency.JsonReadIff`, `JsonTexts.JsonTextReadIff`).
- Text behind the root value is ignored, which is why a buffer with several frames yields the first of them
  (`RoundTrip.ParsesDocument`, `Wire.ManyFrames`).
- `resize` to a smaller size trips its own assertion if and only if the last index it keeps is a gap
  (`Arrays.ArrayValue.Resize`, `Arrays.ShrinkIntoGap`); arrays built by the reader have none (`Formatting.BuiltArraysShrink`).
- `append` to an array of 2^32 elements replaces its first element, because `size()` wraps (`Arrays.ArrayValue.Append`,
  `Arrays.AppendWraps`).
- Allocations from a batch stay inside it if and only if the allocation size divides the page
  (`Allocator.StaysInsideIff`, `Allocator.PairsOverrun`).
- A message arrives for every way of splitting its frame if and only if its document does not contain `#end`
  (`Splits.ArrivesIff`, `Splits.SentinelInside`), and exactly then is it routed once (`Deliveries.RoutedOnceIff`).
- A buffer is cleared as a whole once it has been parsed, and frames sent in a row are lost for it: they survive if and
  only if each of them ends where a chunk ends (`Trains.FramesSurviveIff`, `Trains.MessagesSurviveIff`).
- A document that a brace opens is received without its opening sentinel too (`Wire.OpeningUnneeded`), which lets
  messages with `#begin` inside survive other chunks as well (`Trains.BeginInside`).
- The second attempt to read the destination of a message, with `atoi`, never finds anything the first did not
  (`Messages.AtoiAddsNothing`).
- A login answer that refuses the client still makes it accepted (`Nodes.ClientNode.LogIn`), and a node is accepted by
  any message that parses (`Nodes.AcceptedByFirstFrame`).
- While logins go on, a message may go to a node that is not the first with its destination's id, or to none although
  there is one; exactly when is in `Walks.FoundFirstIff` and `Walks.GivenUpIff`, with a run for each.
- The document `null` is a message too, without a name and from 0 to 0 (`Messages.BareDocuments`), hence enough to be accepted.
- A name with a NUL in it is stored without what is behind the NUL, but does not count as empty (`Leniency.StringsAndNames`).
- A dropped null has the offsets of the character before its comma, -1 and 0 at the beginning of a document (`Locality.DroppedNull`).
- What a client sends in such chunks is written to whoever it is for character by character and in the order in which
  it was sent, in every interleaving of the threads (`Passages.WrittenInOrderSent`).

## Model

| member | source | states |
|---|---|---|
| Numbers.UintToString | common/jsoncpp/jsoncpp.cpp:145-151 | fills the buffer backwards with the shortest numeral and a NUL, at most 21 characters below the end, and touches nothing else |
| Numbers.SignedToString | common/jsoncpp/jsoncpp.cpp:3066-3077 | prints every int64, the smallest one included although its negation wraps, without leaving the 25-byte buffer |
| Numbers.UnsignedToString | common/jsoncpp/jsoncpp.cpp:3079-3085 | prints every uint64 within the buffer |
| Numbers.DigitTable | common/jsoncpp/jsoncpp.cpp:145-151 | the digits printed and read are `0` to `9` in their order |
| Numbers.MagnitudeOfNumeral | common/jsoncpp/jsoncpp.cpp:145-151 | the number that the printed digits stand for is the number printed |
| Numbers.GuardFires | common/jsoncpp/jsoncpp.cpp:698-708 | when the overflow guard hands the token to `decodeDouble`, the whole number exceeds the maximum |
| Numbers.GuardPasses | common/jsoncpp/jsoncpp.cpp:698-708 | when the guard lets a digit through, the accumulator stays exact and at most the maximum |
| Numbers.DecodeNumber | common/jsoncpp/jsoncpp.cpp:673-719 | a number token of any length takes the integer path exactly if it is an optional sign and digits whose magnitude fits 64 bits, with the exact value and no overflow on the way |
| Numbers.DecodesIntText | common/jsoncpp/jsoncpp.cpp:673-719 | decoding the text of any int64 or uint64 gives the number back, signed exactly up to 2^31-1 |
| Utf8.PayloadOf | common/jsoncpp/jsoncpp.cpp:100-126 | the payload bits of an encoded code point are the code point, its first byte announces its length, and no shorter form would do |
| Utf8.CodePointToUtf8 | common/jsoncpp/jsoncpp.cpp:100-126 | the encoding is empty only beyond 0x10FFFF |
| Utf8.DecodesAll | common/jsoncpp/jsoncpp.cpp:100-126 | strict UTF-8 decoding (section 3 of RFC 3629) of encoded scalar values gives the same sequence back |
| Strings.NothingToEscape | common/jsoncpp/jsoncpp.cpp:3120-3135 | the fast path of quoting: what the test finds free of special characters needs no escape |
| Strings.ValueToQuotedString | common/jsoncpp/jsoncpp.cpp:3120-3180 | both paths produce the same quoted text |
| Strings.ScansBody | common/jsoncpp/jsoncpp.cpp:559-569 | the scanner accepts every body in which quotes are escaped, and stops right behind its closing quote |
| Strings.ScannedBody | common/jsoncpp/jsoncpp.cpp:559-569 | and nothing else: what it accepts is such a body and a quote |
| Strings.DecodesWholeBody | common/jsoncpp/jsoncpp.cpp:777-828 | on what the scanner accepts the decoder reads the whole body or reports a bad escape; its quote branch and its "empty escape" error are unreachable |
| Strings.DecodeUnicodeEscapeSequence | common/jsoncpp/jsoncpp.cpp:859-885 | reads four hexadecimal digits of either case, or reports which error |
| Strings.UnicodeCodePoint | common/jsoncpp/jsoncpp.cpp:830-857 | never yields a code point beyond 0x10FFFF, and consumes part of the body |
| Strings.DecodeUnicodeCodePoint | common/jsoncpp/jsoncpp.cpp:830-857 | the cursor version agrees, and stays inside the token |
| Strings.RunDecodeString | common/jsoncpp/jsoncpp.cpp:777-828 | the loop never passes the end of the token, and decodes all of it or reports a bad escape |
| Spellings.HexTextDecodes | common/jsoncpp/jsoncpp.cpp:859-885 | the four digits of a number, taken from the tables of lower-case and upper-case digits in whatever mixture, are read as that number |
| Spellings.DecodesSpelling | common/jsoncpp/jsoncpp.cpp:814-885 | scalar values written as `\u` escapes, with digits of any case and surrogate pairs, decode to their UTF-8 encodings, which decode to the same scalar values |
| Spellings.DecodesIffSpelled | common/jsoncpp/jsoncpp.cpp:777-857 | what a scanned string decodes to, in full: it decodes if and only if it is made of single characters, the eight short escapes of a table, `\u` escapes and surrogate pairs, and then to what these mean one after the other |
| Spellings.EscapesByTable | common/jsoncpp/jsoncpp.cpp:3137-3177 | quoting escapes quotes, backslashes and control characters and nothing else, with the table's letter if there is one and with four digits if not |
| Strings.QuoteRoundTrip | common/jsoncpp/jsoncpp.cpp:3120-3180 | a quoted NUL-free string scans as one token whatever follows, and decodes to the string |
| Values.EqualIsSameTree | common/jsoncpp/jsoncpp.cpp:2032-2070 | `operator==` holds exactly for trees that differ in nothing but offsets |
| Values.LessByKind | common/jsoncpp/jsoncpp.cpp:1979-2024 | values of different kinds are ordered as null, signed, unsigned, double, string, boolean, array, object; those of one kind by their contents, containers by their number of entries first |
| Values.BeforeIsFirstDifference | common/jsoncpp/jsoncpp.cpp:2001-2006 | strings, and names with them, are ordered by the first character in which they differ, a proper prefix before the longer string |
| Values.LessIsThreeWay | common/jsoncpp/jsoncpp.cpp:1987-2024 | `operator<` is the negative side of an independent three-way order: by type, then entry count, then entry by entry |
| Values.ThreeWayTrans | common/jsoncpp/jsoncpp.cpp:1987-2024 | that order is transitive through nested maps |
| Values.StrictTotalOrder | common/jsoncpp/jsoncpp.cpp:1979-2070 | on real-free trees `operator<` is a strict total order, `operator==` is the absence of either order, and `compare` has the matching sign |
| Arrays.PutRefines | common/jsoncpp/jsoncpp.cpp:2392-2410 | a write to the sparse map is a write to the null-padded sequence it stands for |
| Arrays.ArrayValue.SizeOf | common/jsoncpp/jsoncpp.cpp:2306-2321 | the size is the length of the sequence modulo 2^32 |
| Arrays.ArrayValue.Read | common/jsoncpp/jsoncpp.cpp:2419-2435 | a read is the element, or null beyond the end and in gaps |
| Arrays.ArrayValue.Resolve | common/jsoncpp/jsoncpp.cpp:2392-2410 | `operator[]` pads with nulls up to the index, stores an entry there and leaves all other entries and gaps alone |
| Arrays.ArrayValue.Append | common/jsoncpp/jsoncpp.cpp:2517-2517 | appends, or at 2^32 elements replaces the first one |
| Arrays.AppendWraps | common/jsoncpp/jsoncpp.cpp:2517-2517 | a write at the last index followed by an append: the appended value is the first element, and the size 0 |
| Arrays.ArrayValue.Clear | common/jsoncpp/jsoncpp.cpp:2345-2368 | leaves the empty sequence and forgets the offsets |
| Arrays.ArrayValue.Resize | common/jsoncpp/jsoncpp.cpp:2370-2390 | growing pads, shrinking cuts; the closing assertion fails exactly if the last index kept is a gap; at 2^32 elements, where the size wraps, only a resize to 0 has an effect |
| Arrays.ShrinkIntoGap | common/jsoncpp/jsoncpp.cpp:2381-2385 | an instance in which that assertion fails |
| Arrays.StepAgrees | common/jsoncpp/jsoncpp.cpp:2306-2442 | an operation does to the map, and shows of it, what it does to the sequence and shows of it if and only if it neither cuts off behind a gap nor asks for a size that wraps |
| Arrays.RunsAgree | common/jsoncpp/jsoncpp.cpp:2306-2442 | over every run of writes, const reads, sizes, appends, clears and resizes that are so, map and sequence agree in the end and in all that is seen on the way |
| Allocator.BatchAllocator.FindRoom | common/jsoncpp/jsoncpp.cpp:1087-1098 | the search for a batch with room ends, leaves the batches as they are, and adds one new batch exactly if the newest is full |
| Allocator.BatchAllocator.Allocate | common/jsoncpp/jsoncpp.cpp:1079-1102 | never returns a live slot; the slot is the one freed last if there are free ones, else the next of the newest batch or the first of a fresh one, lies inside its batch and becomes the only new live one |
| Allocator.BatchAllocator.Release | common/jsoncpp/jsoncpp.cpp:1107-1111 | the slot leaves the live ones and heads the free list |
| Allocator.SlotsPartition | common/jsoncpp/jsoncpp.cpp:1079-1134 | every aligned place below a batch's end is live, free-listed or unused, never two of them, and slots do not overlap |
| Allocator.StaysInsideIff | common/jsoncpp/jsoncpp.cpp:1087-1101 | no allocation passes the end of its batch if and only if the allocation size divides the page |
| Allocator.PairsOverrun | common/jsoncpp/jsoncpp.cpp:1087-1101 | pairs on the default page of 255 do pass it |
| Tokens.LiteralShape | common/jsoncpp/jsoncpp.cpp:404-473 | every literal token has the form its decoder expects |
| Tokens.ReadToken | common/jsoncpp/jsoncpp.cpp:404-473 | a token is cut out of the text without loss and is empty only at the true end of the text |
| Tokens.LexAppend | common/jsoncpp/jsoncpp.cpp:404-569 | texts put together where no number can grow scan as the concatenation of their tokens |
| Tokens.TokenRestricts | common/jsoncpp/jsoncpp.cpp:404-569 | a token does not depend on the text behind it |
| Characters.BlanksAreSkipped | common/jsoncpp/jsoncpp.cpp:475-483 | blank, tab, carriage return and new line before a token do not count, and no other character is skipped |
| Characters.FixedTokens | common/jsoncpp/jsoncpp.cpp:409-464 | the braces, brackets, comma, colon, the three words and NUL are the tokens they are, whatever follows |
| Characters.BrokenWords | common/jsoncpp/jsoncpp.cpp:485-494 | a letter that only seems to begin a word is an erroneous token by itself |
| Characters.OtherCharacters | common/jsoncpp/jsoncpp.cpp:465-468 | so is a character that begins no token |
| Characters.NumberTokens | common/jsoncpp/jsoncpp.cpp:550-557 | a number token is a digit or minus sign and all the digits, dots, signs and exponent letters behind it |
| Characters.StringTokens | common/jsoncpp/jsoncpp.cpp:559-569 | a string token ends at the first quote that no backslash takes with it |
| Characters.UnclosedStrings | common/jsoncpp/jsoncpp.cpp:559-569 | without that quote the rest of the text is one erroneous token |
| Characters.BlockComments | common/jsoncpp/jsoncpp.cpp:532-539 | a C-style comment ends behind the first `*/`, and is erroneous without one |
| Characters.LineComments | common/jsoncpp/jsoncpp.cpp:541-548 | a comment on a line ends behind the first carriage return or new line, or at the end of the text |
| Characters.LoneSlash | common/jsoncpp/jsoncpp.cpp:496-510 | a slash before anything else is erroneous, together with the character behind it |
| Parser.ReadValue | common/jsoncpp/jsoncpp.cpp:314-385 | reading ends on every text, with no error on success and exactly one on failure |
| Parser.Parse | common/jsoncpp/jsoncpp.cpp:273-312 | the whole parse ends on every byte string, and succeeds exactly if it records no error |
| Parser.ErrorsCounted | common/jsoncpp/jsoncpp.cpp:273-312 | it records one error for a value that cannot be read and one for a root the strict root feature refuses |
| Diagnoses.ErrorsAreExplained | common/jsoncpp/jsoncpp.cpp:887-895 | the error recorded for a document that is not read is at a token of the document, with the offsets of its characters, and names what is wrong with that token |
| Diagnoses.RecoversBehindFirst | common/jsoncpp/jsoncpp.cpp:897-908 | recovery goes on behind the first token of the kind asked for, or the first end of the stream |
| Diagnoses.FailuresLeave | common/jsoncpp/jsoncpp.cpp:571-661 | behind an object that cannot be read reading goes on behind a closing brace or at the end of the stream, behind an array behind a bracket; behind anything else right there |
| Reading.Reader.MatchWord | common/jsoncpp/jsoncpp.cpp:485-494 | the cursor version of the scanner agrees with the function |
| Reading.Reader.ReadComment | common/jsoncpp/jsoncpp.cpp:496-548 | both kinds of comments, up to their ends or the end of the text |
| Reading.Reader.ReadNumber | common/jsoncpp/jsoncpp.cpp:550-557 | swallows exactly the number characters |
| Reading.Reader.ReadString | common/jsoncpp/jsoncpp.cpp:559-569 | stops behind the first quote that is not escaped, or at the end |
| Reading.Reader.NextToken | common/jsoncpp/jsoncpp.cpp:404-473 | leaves the cursor behind the next token |
| Reading.Reader.SkipCommentTokens | common/jsoncpp/jsoncpp.cpp:387-395 | leaves the cursor behind the next token that counts |
| Reading.Reader.RecoverFromError | common/jsoncpp/jsoncpp.cpp:897-908 | skips to the token asked for and drops the errors met on the way |
| Reading.Reader.AddErrorAndRecover | common/jsoncpp/jsoncpp.cpp:887-915 | records exactly one error, then recovers |
| Reading.Reader.ReadValue | common/jsoncpp/jsoncpp.cpp:314-385 | refines the function; the stack below the value is as it was found, on success and on failure |
| Reading.Reader.ReadObject | common/jsoncpp/jsoncpp.cpp:571-624 | refines the function and restores the stack on every path |
| Reading.Reader.ReadArray | common/jsoncpp/jsoncpp.cpp:626-661 | refines the function and restores the stack on every path |
| Reading.Reader.Parse | common/jsoncpp/jsoncpp.cpp:273-312 | result, tree, errors and cursor are those of the function, and only the root is left on the stack |
| Writers.FastWriter.WriteValue | common/jsoncpp/jsoncpp.cpp:3203-3249 | appends exactly the value's text |
| Writers.FastWriter.Write | common/jsoncpp/jsoncpp.cpp:3196-3201 | returns the document text, whatever was written before |
| Writers.StyledWriter.PushValue | common/jsoncpp/jsoncpp.cpp:3388-3393 | goes to the buffer or to the document, never to both |
| Writers.StyledWriter.WriteWithIndent | common/jsoncpp/jsoncpp.cpp:3395-3409 | a new line is begun unless the document ends in a blank or a new line |
| Writers.StyledWriter.WriteValue | common/jsoncpp/jsoncpp.cpp:3268-3318 | through all recursion adds one text to the buffer, or the value to the document, and restores flag and indentation |
| Writers.StyledWriter.WriteArrayValue | common/jsoncpp/jsoncpp.cpp:3320-3361 | prints the array from the shared buffer or anew; the assertion on the buffer's size holds wherever it is made |
| Writers.StyledWriter.WriteElement | common/jsoncpp/jsoncpp.cpp:3330-3343 | an element from the buffer and one written anew come to the same text |
| Writers.StyledWriter.IsMultilineArray | common/jsoncpp/jsoncpp.cpp:3363-3386 | never entered while texts are being collected; whenever the buffer is left non-empty it holds exactly one text per element, in order |
| Writers.StyledWriter.CollectChildValues | common/jsoncpp/jsoncpp.cpp:3373-3384 | the buffer holds the elements' texts in order, and the length is that of the line they make |
| Writers.StyledWriter.Write | common/jsoncpp/jsoncpp.cpp:3257-3266 | returns the styled document, whatever was written before |
| Streams.StyledScans | common/jsoncpp/jsoncpp.cpp:3268-3361 | writing a value on top of a document adds exactly the value's tokens to those of the document |
| Streams.FastScans | common/jsoncpp/jsoncpp.cpp:3203-3249 | what the fast writer prints scans as exactly the value's tokens |
| Streams.SameStream | common/jsoncpp/jsoncpp.cpp:3196-3416 | both writers emit the same token stream for every tree, without comments or scanning errors |
| Factoring.ValuesFactor | common/jsoncpp/jsoncpp.cpp:314-385 | reading a value depends on the token stream alone, also when it fails |
| Factoring.ParsingFactors | common/jsoncpp/jsoncpp.cpp:273-385 | two texts with the same tokens parse to the same tree, flag and kinds of errors; only offsets may differ |
| RoundTrip.ParsesValue | common/jsoncpp/jsoncpp.cpp:314-385 | a text that begins with a value's tokens reads as that value in canonical form, whatever the layout, the features and the text behind it |
| RoundTrip.ParsesDocument | common/jsoncpp/jsoncpp.cpp:273-312 | the root value is read and what follows is ignored; with the strict root feature it succeeds exactly for containers |
| RoundTrip.StyledRoundTrip | common/jsoncpp/jsoncpp.cpp:3257-3416 | parsing a styled document succeeds and yields the canonical form of the tree it was printed from |
| RoundTrip.FastRoundTrip | common/jsoncpp/jsoncpp.cpp:3194-3249 | so does parsing a fast document |
| Canonical.CanonFillsGaps | common/jsoncpp/jsoncpp.cpp:3221-3231 | the canonical form of an array has the same size, the canonical elements and nulls in place of gaps |
| Canonical.CanonTwice | common/jsoncpp/jsoncpp.cpp:3268-3318 | canonical trees are fixed points |
| Canonical.StyledTextStable | common/jsoncpp/jsoncpp.cpp:3257-3266 | a tree and its canonical form print to the same text |
| Pages.StyledIsPage | common/jsoncpp/jsoncpp.cpp:3257-3416 | a styled document consists of the lines of its value, each indented by three blanks a level: an object's members and the elements of an array that does not fit one line stand on lines of their own |
| Pages.OneLineIff | common/jsoncpp/jsoncpp.cpp:3363-3386 | an array of scalars and empty containers is written on one line if and only if it has fewer than 25 elements and that line is shorter than 74 characters |
| Pages.FlatIsFast | common/jsoncpp/jsoncpp.cpp:3203-3318 | scalars and empty containers both writers print alike |
| Pages.FastIsTight | common/jsoncpp/jsoncpp.cpp:3194-3249 | a fast document consists of its value's tokens, one right behind the other |
| Grammar.MemberEndCases | common/jsoncpp/jsoncpp.cpp:613-622 | another member follows exactly behind a comma, or behind a comment and anything but a closing brace |
| Grammar.ValueDerived | common/jsoncpp/jsoncpp.cpp:314-385 | what is read has a derivation in a grammar of token streams, which denotes it |
| Grammar.ValueReads | common/jsoncpp/jsoncpp.cpp:314-385 | what has a derivation is read, as what it denotes and up to its end |
| Grammar.OneDerivation | common/jsoncpp/jsoncpp.cpp:571-661 | no token stream has two derivations |
| Grammar.AcceptedIff | common/jsoncpp/jsoncpp.cpp:314-385 | a value is read if and only if the tokens begin with one that the grammar derives |
| Grammar.DocumentAcceptedIff | common/jsoncpp/jsoncpp.cpp:273-312 | a document is accepted if and only if the grammar derives a beginning of it, and is read as what that denotes |
| Leniency.JsonReadIff | common/jsoncpp/jsoncpp.cpp:314-661 | a text whose tokens begin with those of a JSON value, as RFC 8259 defines it and not by the decoders, is read if and only if every high surrogate in its strings is followed by another escape and every number is a 64-bit integer or is read by the C library |
| JsonTexts.JsonTextReadIff | common/jsoncpp/jsoncpp.cpp:314-661 | the same over characters: every JSON value spelled by the grammar of RFC 8259, with any blanks before, inside and behind it, is one of those texts, and is read if and only if its strings and numbers are so, as what it means, up to its end |
| JsonTexts.JsonDocumentReadIff | common/jsoncpp/jsoncpp.cpp:273-312 | and such a text is parsed as a document if and only if they are so |
| JsonTexts.PrintedIsJson | common/jsoncpp/jsoncpp.cpp:3194-3416 | what either writer prints is the one JSON value and nothing behind it |
| Leniency.StrictIff | common/jsoncpp/jsoncpp.cpp:314-661 | what is read begins with a JSON value in this sense if and only if the one derivation it has is that of a JSON value |
| Leniency.LenientIntegers | common/jsoncpp/jsoncpp.cpp:684-713 | of the tokens read as integers exactly the lone minus sign and those with leading zeros are no JSON numbers |
| Leniency.LoneMinus | common/jsoncpp/jsoncpp.cpp:684-713 | the lone minus sign is the only integer token without a digit, and the document `-` is read as 0 |
| Leniency.LeadingZeros | common/jsoncpp/jsoncpp.cpp:684-713 | the document `007` is read as 7 and is no JSON number |
| Leniency.LenientStrings | common/jsoncpp/jsoncpp.cpp:777-828 | of the string tokens that decode exactly those with raw control characters are no JSON strings |
| Leniency.RawTab | common/jsoncpp/jsoncpp.cpp:777-828 | a quoted raw tab is read as a string and is no JSON string |
| Leniency.JsonStringsDecode | common/jsoncpp/jsoncpp.cpp:830-857 | a JSON string decodes if and only if every high surrogate is followed by another escape |
| Leniency.NumericNames | common/jsoncpp/jsoncpp.cpp:588-592 | where numbers are allowed as names, an integer names a member by its text without leading zeros; elsewhere it is no name |
| Leniency.LoneSurrogate | common/jsoncpp/jsoncpp.cpp:830-857 | the document `"\uD800"` is a JSON string and is not read |
| Leniency.BraceForName | common/jsoncpp/jsoncpp.cpp:576-584 | a closing brace where a name is due ends the object if and only if the name before is empty |
| Leniency.StringsAndNames | common/jsoncpp/jsoncpp.cpp:576-604 | a string value ends before its first NUL; a name keeps what is behind it for the look at a closing brace, and loses it only where its member is stored |
| Leniency.TrailingCommaAccepted | common/jsoncpp/jsoncpp.cpp:582-582 | a document with a trailing comma that is accepted |
| Leniency.CommentForComma | common/jsoncpp/jsoncpp.cpp:613-622 | a document in which, behind a comment, a number is accepted for a comma |
| Formatting.ParsedIsCanonical | common/jsoncpp/jsoncpp.cpp:273-312 | every document that is read, whoever wrote it, gives a canonical, well-formed tree |
| Formatting.BuiltArraysShrink | common/jsoncpp/jsoncpp.cpp:636-641 | arrays the reader builds have no gaps, hence shrinking them never trips the assertion of `resize` |
| Formatting.FormattingIsIdempotent | common/jsoncpp/jsoncpp.cpp:3257-3266 | formatting any accepted document without doubles loses nothing, and formatting it again changes nothing |
| Locality.ValueRestricts | common/jsoncpp/jsoncpp.cpp:314-385 | a value that is read does not depend on the text behind it |
| Locality.ParsedTreeIsLocated | common/jsoncpp/jsoncpp.cpp:332-360 | after a successful parse every value lies inside its parent and clear of its siblings, begins with neither a blank nor a comment, and the text between its offsets reads by itself, entirely, as an equal value |
| Locality.DroppedNull | common/jsoncpp/jsoncpp.cpp:362-370 | where nulls may be dropped, a comma in place of a value is a null and stays unread, with the offsets of the character before it, -1 and 0 at the beginning of a document; elsewhere it is no value |
| Messages.Extracts | corebroker_oldcpp/src/TMessage.cpp:219-233 | the number taken from a text is that of the digits behind blanks and a sign, capped at 2^32 - 1, or its negative modulo 2^32; 0 without digits; unchanged for a blank text |
| Messages.AtoiAddsNothing | corebroker_oldcpp/src/TMessage.cpp:233-240 | the second attempt at the destination, with `atoi`, gives 0 again |
| Messages.ReadsAddresses | corebroker_oldcpp/src/TMessage.cpp:198-251 | name, and sender and destination as numbers or decimal strings, are read as they are written |
| Messages.AsStringIsPrinted | corebroker_oldcpp/src/TMessage.cpp:206-231 | a field's text is the string itself, nothing for null, and for other scalars what the writers print; containers throw |
| Messages.BareDocuments | corebroker_oldcpp/src/TMessage.cpp:198-251 | the document `null` is a message without a name, from 0 to 0, and of all others only objects are messages |
| Messages.UnreadIsError | corebroker_oldcpp/src/TMessage.cpp:112-174 | what does not parse is reported as a message called "error", from 0 to 0 |
| Messages.Message.ParseData | corebroker_oldcpp/src/TMessage.cpp:198-251 | sets name, sender and destination from the parsed root, up to the first field that cannot be converted, or leaves them alone when the text does not parse |
| Messages.Message.FromRawData | corebroker_oldcpp/src/TMessage.cpp:112-181 | the loop over lines gathers the text between the sentinels; result, fields and JSON are those of the function |
| Messages.Message.ToString | corebroker_oldcpp/src/TMessage.cpp:294-306 | the styled document between the two sentinel lines |
| Wire.StyledHashFree | corebroker_oldcpp/src/TMessage.cpp:294-306 | no line of a styled document begins with `#`, hence none is a sentinel |
| Wire.GathersText | corebroker_oldcpp/src/TMessage.cpp:132-168 | a document without such lines is gathered unchanged |
| Wire.FirstFrameWins | corebroker_oldcpp/src/TMessage.cpp:132-178 | whatever stands behind a frame's document, the message received is the one the frame was made from |
| Wire.WireRoundTrip | corebroker_oldcpp/src/TMessage.cpp:112-306 | parsing the line `#begin`, the styled document and the line `#end` gives the canonical form of the same JSON and the same name, sender and destination; a field that cannot be converted throws exactly if it does for the original |
| Wire.ManyFrames | corebroker_oldcpp/src/TMessage.cpp:132-168 | a buffer that begins with a frame yields exactly that frame's message |
| Wire.JunkBeforeFrame | corebroker_oldcpp/src/TMessage.cpp:132-168 | a frame's message is received behind any other lines that hold no sentinel and do not begin with a brace |
| Wire.OpeningUnneeded | corebroker_oldcpp/src/TMessage.cpp:133-143 | a document whose first line is a brace is received as the same message without the opening sentinel |
| Wire.RelayIsStable | corebroker_oldcpp/src/TMessage.cpp:294-306 | what a relay sends on is, character by character, the frame it received, for every tree without doubles |
| Wire.EveryHopIsStable | corebroker_oldcpp/src/TMessage.cpp:294-306 | after any number of hops the text is still the first one |
| Frames.ChunkingInvariance | corebroker_oldcpp/src/TSocketClient.cpp:137-165 | a text is handed over exactly once and whole for every split if and only if no proper prefix holds both sentinels |
| Frames.CompleteIff | corebroker_oldcpp/src/TSocketClient.cpp:155-156 | a buffer is handed over if and only if it holds `#begin` somewhere and `#end` somewhere |
| Frames.FramesReassemble | corebroker_oldcpp/src/TRemoteNode.cpp:186-222 | a frame is handed over exactly once and whole for every split if and only if its document does not contain the end sentinel |
| Splits.CutFails | common/jsoncpp/jsoncpp.cpp:559-569 | a document cut off behind an end sentinel in one of its strings is not read |
| Splits.ArrivesIff | corebroker_oldcpp/src/TSocketClient.cpp:137-165 | a message arrives as it was sent, for every split of its frame, if and only if its document does not contain the end sentinel |
| Splits.SentinelInside | corebroker_oldcpp/src/TSocketClient.cpp:153-154 | the message `{"x": "#end"}` meets the conditions of `Splits.ArrivesIff`, its document contains the sentinel, and some split of its frame does not let it arrive |
| Nodes.ArrivedWellFormed | corebroker_oldcpp/src/TMessage.cpp:112-181 | every message that parses is one that can be sent on |
| Nodes.SocketClient.WriteData | corebroker_oldcpp/src/TSocketClient.cpp:119-127 | hands the whole frame to `write`, and is true exactly if all of it was written |
| Nodes.SocketClient.ReadMessage | corebroker_oldcpp/src/TSocketClient.cpp:129-169 | reads on until a buffer with both sentinels parses, or the connection is lost |
| Nodes.ReceivesSplitFrame | corebroker_oldcpp/src/TSocketClient.cpp:137-165 | a frame that parses and whose document does not contain the end sentinel is received whole, however it is split |
| Nodes.SentIsReceived | corebroker_oldcpp/src/TSocketClient.cpp:119-169 | from `toString` through any split to `readMessage`, name, sender, destination and JSON arrive as sent, unless the document contains the end sentinel |
| Nodes.LoginChangesIdOnce | corebroker_oldcpp/src/TRemoteNode.cpp:118-149 | the id changes only in the step that makes the node accepted |
| Nodes.AcceptedByFirstFrame | corebroker_oldcpp/src/TRemoteNode.cpp:118-149 | the first buffer that parses makes the node accepted, however it was split and whatever follows, if it is complete only at its end |
| Nodes.RemoteNode.CheckLogin | corebroker_oldcpp/src/TRemoteNode.cpp:80-108 | true for every message that parses; the id is set only by a login message |
| Nodes.RemoteNode.WaitForLogin | corebroker_oldcpp/src/TRemoteNode.cpp:118-149 | the loop ends accepted or disconnected, with status, id and buffer as the function says |
| Nodes.RemoteNode.ReceiveOnce | corebroker_oldcpp/src/TRemoteNode.cpp:174-222 | a complete buffer is parsed once and cleared; its message is kept if it is for this node, else routed |
| Nodes.RemoteNode.PopFront | corebroker_oldcpp/src/TRemoteNode.cpp:226-234 | takes the front off a queue that is not empty |
| Nodes.RemoteNode.ReceiveLoop | corebroker_oldcpp/src/TRemoteNode.cpp:164-237 | over any run of reads, the messages routed, the buffer left and the way the loop ends are those of the function, and the queue has lost one message from its front for each pass, as long as there was one |
| Nodes.PassesAll | corebroker_oldcpp/src/TRemoteNode.cpp:164-237 | a loop that goes on has looked at its queue once for every read, and one that ends for all but the last |
| Deliveries.LoopAssembles | corebroker_oldcpp/src/TRemoteNode.cpp:186-222 | over any chunks the loop comes to what the frames that they assemble to come to: their messages are routed, up to the first that throws |
| Deliveries.RoutedOnce | corebroker_oldcpp/src/TRemoteNode.cpp:186-222 | a frame without an end sentinel inside, split anyhow, has its message routed exactly once, at the last chunk, as it was sent |
| Deliveries.RoutedOnceIff | corebroker_oldcpp/src/TRemoteNode.cpp:186-222 | a message for another node is routed exactly once for every split of its frame if and only if its document does not contain the end sentinel |
| Deliveries.HangUpLoses | corebroker_oldcpp/src/TRemoteNode.cpp:118-134 | a connection closed or lost before a message has come stays lost: `readMessage` finds nothing, and the node goes without its login |
| Deliveries.HangUpEnds | corebroker_oldcpp/src/TRemoteNode.cpp:174-186 | the receive loop ends at a read of no length, whatever comes behind it, and goes on at a failed one |
| Trains.FramesSurviveIff | corebroker_oldcpp/src/TRemoteNode.cpp:186-222 | frames sent in a row are handed over one by one as they were sent, with nothing left in the buffer, if and only if every one of them ends where a chunk ends |
| Trains.AlignedTrainIsRouted | corebroker_oldcpp/src/TRemoteNode.cpp:186-222 | the messages of frames that do are all routed, as they were sent and in that order, but for those to the node itself |
| Trains.MessagesSurviveIff | corebroker_oldcpp/src/TRemoteNode.cpp:186-222 | of messages for other nodes, without either sentinel in their documents, as many are routed as were sent if and only if every frame ends where a chunk ends |
| Trains.BeginInside | corebroker_oldcpp/src/TMessage.cpp:133-143 | the begin sentinel has to be excluded for that: behind any message, one with the sentinel inside a document that a brace opens is routed from other chunks too |
| Trains.BeginCarried | corebroker_oldcpp/src/TMessage.cpp:133-143 | the message `{"x": "#begin"}` is one of that kind |
| Nodes.RemoteNode.EnqueueMsg | corebroker_oldcpp/src/TRemoteNode.cpp:45-61 | the message goes to the end of the queue and its frame onto the wire |
| Logins.LoginReceived | corebroker_oldcpp/src/TClientNode.cpp:71-88 | the login put together as text parses, as the message with the login's name, the client's id and the broker's |
| Deliveries.ThrowingFrame | corebroker_oldcpp/src/TMessage.cpp:208-232 | a message with an array or object for a field can be sent, but ends every loop that reads it with an exception, however its frame is split |
| Deliveries.LoginGetsAccepted | corebroker_oldcpp/src/TRemoteNode.cpp:118-149 | the login a client writes gets it accepted under its id, however it is split and whatever follows |
| Deliveries.AnswerDecides | corebroker_oldcpp/src/TClientNode.cpp:100-140 | the client is accepted by what comes back if and only if that is called `MSG_LOGIN_ANSWER` and says something under `correct`, a refusal as well |
| Nodes.ClientNode.LogIn | corebroker_oldcpp/src/TClientNode.cpp:60-147 | writes the login with the client's id, once and only when connected; accepted by any login answer, true only if the answer is "1" |
| Nodes.ClientNode.SendMessage | corebroker_oldcpp/src/TClientNode.cpp:160-171 | hands the frame over exactly if the node is accepted, and is true exactly if all of it was written |
| Nodes.AcceptedIff | corebroker_oldcpp/src/TClientNode.cpp:48-147 | after any sequence of calls the node is accepted if and only if a login was answered behind the last connect that reached the server: every new connect undoes the acceptance |
| Nodes.PostedIff | corebroker_oldcpp/src/TClientNode.cpp:160-171 | a message is handed to the gateway's socket if and only if such a login precedes it |
| Nodes.SocketServer.ReachGateway | corebroker_oldcpp/src/TSocketServer.cpp:75-93 | the gateway is logged in to only when it was reached, and a true result means that it is accepted |
| Nodes.FirstWithIs | corebroker_oldcpp/src/TSocketServer.cpp:266-285 | the route of a destination is the least index with that id, if there is one |
| Nodes.SocketServer.Accept | corebroker_oldcpp/src/TSocketServer.cpp:215-222 | a new node goes to the end of the list |
| Nodes.SocketServer.RouteMessage | corebroker_oldcpp/src/TSocketServer.cpp:247-315 | the message goes to the first node with the destination's id and to no other, else once to the gateway; the broker's own stay |
| Nodes.SocketServer.DeliverFromGateway | corebroker_oldcpp/src/TSocketServer.cpp:318-358 | a message from the gateway goes to the first node with the destination's id, or nowhere, and never back |
| Broker.RouteKept | corebroker_oldcpp/src/TSocketServer.cpp:247-315 | at every step the route mutex is held by exactly the node thread that is routing, if any |
| Broker.QueueKept | corebroker_oldcpp/src/TRemoteNode.cpp:45-61 | at every step each queue mutex is held by exactly the thread that is at work on the queue |
| Broker.PopKept | corebroker_oldcpp/src/TRemoteNode.cpp:224-235 | the unlocked size check never leads to `front()` on an empty queue |
| Broker.WriteKept | corebroker_oldcpp/src/TRemoteNode.cpp:45-61 | what is written to a node lags behind what is enqueued by the one message being written |
| Broker.SuffixKept | corebroker_oldcpp/src/TRemoteNode.cpp:224-235 | a queue is a suffix of everything enqueued |
| Runs.MailKept | corebroker_oldcpp/src/TSocketServer.cpp:247-315 | every message received has exactly one outcome or exactly one carrier, step by step |
| Runs.RunsKeepInv | corebroker_oldcpp/src/TRemoteNode.cpp:110-238 | all invariants hold after every run |
| Runs.CountsAddUp | corebroker_oldcpp/src/TSocketServer.cpp:247-358 | in every reachable state the messages with an outcome and those in transit are disjoint and together all those received |
| Runs.OutcomesAreKept | corebroker_oldcpp/src/TSocketServer.cpp:266-309 | a message settled as enqueued is in the queue history of exactly that node, once; the gateway is offered exactly the messages settled so, once each, and none it sent |
| Runs.DeliveredToAddressee | corebroker_oldcpp/src/TSocketServer.cpp:266-285 | whatever is enqueued at a node is addressed to its id, or to 0 if that was its id before it logged in; only the gateway's messages can be for the broker's own id |
| Walks.FoundFirstIff | corebroker_oldcpp/src/TSocketServer.cpp:266-285 | over every run, the node a search finds is the first with the destination's id if and only if no node it has passed logged in with that id; it never lies behind the match there was at the beginning |
| Walks.GivenUpIff | corebroker_oldcpp/src/TSocketServer.cpp:264-301 | when a message is given up to the gateway or dropped, there is no node with its destination's id if and only if the search has not been so overtaken |
| Walks.EverySearchBegan | corebroker_oldcpp/src/TSocketServer.cpp:264-268 | every search in a reachable state began at the front of the list in a reachable state |
| Walks.NotTheFirstMatch | corebroker_oldcpp/src/TSocketServer.cpp:266-285 | a run in which a message goes to the second of two nodes with its destination's id |
| Walks.DroppedDespiteMatch | corebroker_oldcpp/src/TSocketServer.cpp:287-309 | a run in which a message is dropped although a node has its destination's id |
| Contents.FullInvKept | corebroker_oldcpp/src/TRemoteNode.cpp:110-238 | with the characters added to the threads, every event keeps all invariants: what each thread has read, assembled, understood and written, and in which order |
| Contents.CoreIsReachable | corebroker_oldcpp/src/TSocketServer.cpp:247-358 | the threads with their characters run as without them: every state reached so is reachable there, hence all that is proved about routing, mutexes and outcomes holds |
| Threads.ThreadsRunTheLoops | corebroker_oldcpp/src/TRemoteNode.cpp:110-238 | in every attainable state a node's thread stands where the loops of its class come to on what it has read: so many reads for the login, which gives it its id, and the others for the receive loop, which has routed those of the messages received that are for other nodes |
| Passages.WrittenAsReceived | corebroker_oldcpp/src/TRemoteNode.cpp:45-61 | in every such state what has been written to a node is, one for one, the text printed of messages received from complete buffers and addressed to the node |
| Passages.WrittenInOrder | corebroker_oldcpp/src/TRemoteNode.cpp:174-222 | messages of one sender are written to a node in the order in which they were received |
| Passages.LettersOfTrain | corebroker_oldcpp/src/TRemoteNode.cpp:118-222 | if a client's frames end where chunks end, the messages received from it are those frames behind its login, each whole, none missing, in order; the gateway's are all its frames |
| Passages.WrittenAsSent | corebroker_oldcpp/src/TRemoteNode.cpp:45-222 | in every such state what is written of a sender's messages is, character by character, the frame it sent |
| Passages.WrittenInOrderSent | corebroker_oldcpp/src/TRemoteNode.cpp:45-222 | and two of them are written to a node in the order in which they were sent |
| Passages.EveryFrameHasAFate | corebroker_oldcpp/src/TSocketServer.cpp:247-358 | every such frame handed over has one outcome or is in transit, and is queued for a node, once, exactly if that is its outcome |
| Passages.FatesAreDecided | corebroker_oldcpp/src/TRemoteNode.cpp:198-206 | in every such state a message settled was kept by its sender if and only if that node has its destination's id, by the broker if and only if a node sent it to the broker, and queued for a node if and only if it stands once in what was queued there; the others went to the gateway, if there is one, or nowhere |
| Passages.MessageArrives | corebroker_oldcpp/src/TRemoteNode.cpp:110-238 | a run for every sender and every message to another client: both log in, one sends the message, and its frame is written to the other |
| Runs.RouteMonotone | corebroker_oldcpp/src/TRemoteNode.cpp:80-149 | a step never removes the route of a destination other than 0 and never moves it back |
| Runs.RoutesOnlyImprove | corebroker_oldcpp/src/TSocketServer.cpp:218-221 | nor does any run from any reachable state |
| Runs.QueuesInOrder | corebroker_oldcpp/src/TRemoteNode.cpp:45-61 | in every reachable state a node's writes are in enqueue order, at most one behind, and its queue is a suffix |
| Runs.QueuesLoseOnePerPop | corebroker_oldcpp/src/TRemoteNode.cpp:226-234 | over every run a node's queue has lost one message for each pop, those in front |
| Runs.LooksBeforeReading | corebroker_oldcpp/src/TRemoteNode.cpp:174-237 | a node reads again only behind a look at its queue, which was empty or has lost its front since |
| Runs.NoDeadlock | corebroker_oldcpp/src/TSocketServer.cpp:247-315 | behind every busy thread there is one that can go on, at most two mutexes away |
| Runs.NeverDeadlocked | corebroker_oldcpp/src/TRemoteNode.cpp:45-61 | no reachable state deadlocks |

## Left out

- Doubles: reading and printing them is left to the C library (`scanDouble`, `printDouble`), the order of
  doubles is not modelled, and the round trips are about trees without them.
- Comment collection and comment printing; parsing is modelled with `collectComments` false, as `TMessage` calls it.
- Error texts, the `extra` location of an error, and the line and column of a location.
- `allowDroppedNullPlaceholders_`: it is part of the parser and of its termination, but the offsets of such a
  null lie outside it, so `Locality.ParsedTreeIsLocated` is about readers without the feature; likewise
  `dropNullPlaceholders` of the fast writer in `RoundTrip.FastRoundTrip`, which prints text that is not JSON.
- The node stack as pointers into one tree: it holds the values themselves and writes a value back into its
  parent when it is popped, which does not show aliasing.
- Sizes beyond 32 bits in the writers: `lineLength` and the `int` sizes of arrays of more than 715,827,882 elements, and
  strings of 2^31-1 bytes and more.
- Null-pointer strings and `CZString` memory ownership.
- Messages.Extracts: the extraction operator of the C++ library is written out as the GNU library defines it.
- Messages.Message.ToString: objects whose keys or strings contain NULs are excluded, since the value class cannot hold them.
- `fromFile`, the setters and copy operations of `TMessage`, and `sendLoginAnswer`, which writes without the queue mutex.
- Exceptions: a field that is an array or object ends `fromRawData` with `thrown` or `Exception`; that an uncaught
  one ends the process is not modelled.
- Chunks: what `read` returns is clean data of any length without NULs; the uninitialised buffer before the first read is not modelled.
- In the transition system, appending to the node list and a login's change of id and status are atomic steps, and `start()` comes
  before a node's first read. The logging in of the gateway client is not part of the transition system.
- Passages.WrittenAsSent: what is written is what `EnqueueMsg` writes; login answers, and what goes out to the gateway, are
  not part of it. An exception, which ends the process, ends the run.
- Runs.RouteMonotone: destination 0 is excluded, because a node loses the id 0 when it logs in.
- Nodes.RemoteNode.ReceiveOnce: the call of `routeMessage` is not made in it; it returns the message to be routed,
  and the transition system takes the step.
- Nodes.RemoteNode.EnqueueMsg: the wire records the frames handed to `write`; a short write, which the code does not
  notice there, is not modelled.
- The non-blocking thread of `TClientNode`, which queues the address of one local message: a message from the
  gateway is an arbitrary one.
- Sockets, thread creation, sleeps, pauses, logging, file reading, configuration and the CAN device code.
- `StyledStreamWriter`, `Path`, iterators, the disabled internal maps, and the other copies of jsoncpp.cpp.
- The boost version of the broker under `corebroker/`.

# A verified model of liblql

liblql is a one-pass, bounded-memory JSON query engine written in C, with a Lua facade. This project models the parts of
it that have a short meaning and a long implementation, and proves that the implementation has that meaning. Text is
`string`, one character per byte.

* **JSON texts** (`JsonSyntax`, `JsonParse`, `JsonRoundTrip`, `JsonStrings`, `JsonTokens`, `JsonNumber`): the grammar of RFC 8259 as
  a datatype that keeps every byte of white space, a printer, and a reader that is proved to be its exact inverse. All
  scanners are specified against this reader, and lemmas about literal texts say what it reads: which character an
  escape or a surrogate pair stands for, which words, blanks and line ends it takes.
* **The streaming scanner** (`Reader`, `Emitter`, `Scanner`, with `ScanEffect`, `Query`, `Terms`, `TextMatch`, `Kmp`,
  `NumberHits`, `DateTerms`): the classes `Input`, `Output`, `TextMatcher` and `Scanner` hold the fields of the C scanner.
  For every text, set of terms and writer, one record's hits are exactly the terms whose path reaches a node that satisfies
  them, and the emitted bytes are the record without its white space.
* **Capture spans** (`Captures`, `CaptureKeys`, `CaptureTurns`): the same scan marks a capture key found exactly when its
  path leads somewhere, and the span it leaves cuts the compact text of the last such value out of the emitted bytes.
* **Numbers** (`Digits`, `NumberText`, `NumberCompare`, `NumberSummary`, `NumberStream`, `NumberLimits`): schoolbook arithmetic on digit
  buffers, the exact comparison as the sign of a difference of rationals, and the comparator that never stores the whole
  token, with the tokens it orders wrongly.
* **Text** (`Utf8`, `CaseFold`, `PlainAscii`): UTF-8, lowercasing by a table of ranges, and the word-at-a-time ASCII scan
  on 64-bit words.
* **Ownership** (`Lifetime`): the reference counts, active methods and deferred destructions of the Lua facade as a
  state with an invariant that every step keeps, and the class `Facade` whose methods take those steps.
* **Selectors as JSON** (`Selectors`, `SelectorText`, `SelectorWriter`, `SelectorParser`, `SelectorRoundTrip`,
  `SelectorFields`, `SelectorReading`, `SelectorSpellings`): the recursive writer, the parser with its stack of frames, the
  exact condition under which reading undoes writing, and the other spellings that the parser takes for what the writer
  writes: short keys, words for the case flag, alternatives between bars, quoted numbers.
* **Dates** (`Calendar`, `Timestamp`), **the spool** (`Spool`), **the quota allocator** (`Allocator`), and **mutation
  expressions** (`MutationPath`, `PointerText`, `Mutations`, `Shorthand`, `ClauseForms`).

Code that changes things in place is modelled by classes and methods with loops; each is proved against a function or
predicate on values, and the lemmas say what that function means.

## Where the code does not keep its promise

* The bounded-memory comparison of a token that does not fit its buffer answers for adjusted exponents kept in the `long`
  range (`SummaryOrdersSeen`), and so orders two numbers wrongly exactly when those exponents do not order them as the exact
  ones do (`Misleads`). `LongTokenMisjudged` runs it over a token that is ten times a bound and gets "equal". An exponent
  of exactly `-LONG_MAX` counts as one less than it is: `LongestNegativeExponentMisleads` names two equal numbers of which
  the first is taken for less.
* A string with a NUL behind a date is taken for that date (`NulHidesTheRest`); every other string that fits the buffer
  is taken for a date exactly when it is one (`DatesExactly`).
* An array with elements at exactly the 128th level is refused by the scanner and taken by the skipper (`AtTheLimit`).
* An append to the spool after a read overwrites: it appends exactly when nothing was read since the last append, or it
  is empty (`Append`); `ReadThenAppend` reads one byte and then loses data.
* A selector field that ends in a slash loses that slash when its JSON is read back, so writing and reading is the
  identity exactly on selectors without such a field (`ReadWritesBack`).

## Model

| member | source | states |
|---|---|---|
| Scanner.Scanner.Record | src/lql_json_scan.c:5090-5153 | for every input, terms and writer: a record is delivered exactly when one parses and ends with its line (with a writer: and no array opens the last level); its hits are the terms whose path reaches a satisfying node, the spool is the record without white space, and it is marked compact exactly when the two are equal; a capture key is found exactly when its path leads somewhere, and its span cuts the last value there out of the spool |
| Scanner.Scanner.ScanValue | src/lql_json_scan.c:4801-4830 | a value adds to hits, compactness, output and spans exactly what the value's tree says, restores depth and active paths, and stops where the reader stops |
| Scanner.Scanner.ObjectMember | src/lql_json_scan.c:4083-4404 | a key, its value and the space after it: the terms carried down are those whose segment matches the decoded key, the others are as before |
| Scanner.Scanner.ObjectKey | src/lql_json_scan.c:4139-4171 | fast key match and slow key match both give the terms whose segment is the decoded key or an object wildcard, and the capture keys whose segment is the decoded key |
| Scanner.Scanner.MemberValue | src/lql_json_scan.c:4239-4400 | a value adds what its terms find; the capture keys that end here span its text, those that go on are followed below, and the paths above stay |
| Scanner.Scanner.ArrayElement | src/lql_json_scan.c:4470-4565 | the same for an element at its index |
| Scanner.Scanner.MatchedString | src/lql_json_scan.c:3700-3745 | a string hits exactly the text and date terms that its decoded text satisfies |
| Captures.SpansAreFound | src/lql_json_scan.c:4383-4394 | the spans of a whole record: found exactly when some route follows the key's segments, and then the span cuts out the value at the route that no other comes after |
| Captures.CaughtIsLast | src/lql_json_scan.c:4243-4270 | below any value: an active key is caught exactly when the rest of its path leads somewhere, and its span is that value's text, from the offset of the value on |
| Captures.LastIsLast | src/lql_json_scan.c:4383-4394 | searching members from the back gives the last route in document order, or there is none |
| CaptureTurns.CaptureRunGoesOn | src/lql_json_scan.c:4043-4422 | one more member: the spans so far and those of the rest are the spans of the whole, later ones over earlier ones |
| CaptureKeys.Collector.MatchIndex | src/lql_json_scan.c:1762-1785 | the capture keys that go on through an element are those whose segment writes its index |
| TextMatch.TextMatcher.CompleteKeys | src/lql_json_scan.c:1745-1760 | the capture keys reported are exactly those whose segment is the text that was fed |
| TextMatch.TextMatcher.CompleteDates | src/lql_json_scan.c:1682-1729 | the date terms reported are exactly those that the text that was fed, however it was cut, satisfies |
| DateTerms.InBounds | src/lql_json_scan.c:1707-1726 | a date passes exactly when it lies within all bounds, days compared as days for equality |
| DateTerms.DatesExactly | src/lql_json_scan.c:1682-1693 | a string that fits is taken for a date exactly when it is one, if and only if it is no date followed by a NUL |
| DateTerms.NulHidesTheRest | src/lql_json_scan.c:1690-1693 | any date with a NUL and anything behind it is no literal and is taken for the date |
| CaptureKeys.DigitsMatchIndex | src/lql_json_scan.c:2029-2071 | a numeric segment matches exactly the index it writes, also when it overflows size_t |
| Scanner.Scanner.SegmentMatchesIndex | src/lql_json_scan.c:2890-2902 | so does a path segment, and an array wildcard matches every index |
| Scanner.Scanner.MatchedValue | src/lql_json_scan.c:3685-3842 | a value that completes paths: exists and valueless terms, scalars and containers, and the shortcut that skips a value no term looks at |
| Scanner.Scanner.StringToken | src/lql_json_scan.c:3515-3681 | a string is accepted exactly when it is well-formed; its raw bytes are emitted and its decoded bytes are matched, however spans, escapes and multi-byte characters alternate |
| JsonStrings.PairDecodes | src/lql_json_scan.c:3612-3637 | for every v above the basic plane, the two escapes of 0xd800 + (v - 0x10000) / 1024 and 0xdc00 + (v - 0x10000) % 1024, digits in either case, decode as the character v |
| JsonStrings.CodeDecodes | src/lql_json_scan.c:3603-3616 | the escape of any other code unit decodes as that character, whichever case each of its digits has |
| JsonStrings.EscapeDecodes | src/lql_json_scan.c:3578-3598 | the eight two-byte escapes decode as the eight characters of section 7 of RFC 8259 |
| JsonStrings.OtherEscapesFail | src/lql_json_scan.c:3599-3602 | a backslash before any other byte makes the string no string |
| Scanner.LinesEnd | src/lql_json_scan.c:4778-4803 | a record ends at the end of the input, a line feed, or a carriage return and a line feed, blanks in front |
| Scanner.RecordIsFound | src/lql_json_scan.c:5105-5153 | what the scan accumulated is what the record callback is promised |
| Scanner.ReachedIsFound | src/lql_json_scan.c:4043-4578 | the recursion over active paths finds exactly the terms for which some route of keys and indexes reaches a satisfying node |
| Query.UnderIsReach | src/lql_json_scan.c:4043-4578 | the recursive search below a value is the existence of a route through the tree that follows the path's segments |
| Query.StepsByName | src/lql_json_scan.c:2827-2929 | "*" follows every member, "[]" every element, "**" both; any other segment the member of that name or the element of that number |
| Query.RangesAreByValue | src/lql_json_scan.c:1464-1646 | a number is in a range exactly when its value lies within each of the four bounds that is there |
| Query.EqualityIsByValue | src/lql_json_scan.c:1464-1646 | a number equals a term exactly when their values are equal |
| ScanEffect.MemberIs | src/lql_json_scan.c:4083-4404 | the effect of a member is its key's, then its value's, then its white space's |
| ScanEffect.ScannerAcceptsWhatParses | src/lql_json_scan.c:4464-4468 | down to 127 levels the scanner accepts exactly what the skipper accepts |
| Reader.Input.SkipValue | src/lql_json_scan.c:3490-3513 | the fast skipper accepts exactly the values of RFC 8259 with well-formed UTF-8 and paired surrogates, down to the depth limit, and stops behind them |
| Reader.Input.SkipString | src/lql_json_scan.c:3289-3406 | a string is skipped exactly when it is well-formed, to the byte behind its quote |
| Reader.Input.SkipNumber | src/lql_json_scan.c:3408-3447 | a number is skipped exactly when it is one, to its last byte |
| Emitter.Output.Write | src/lql_json_scan.c:198-228 | everything written is kept in order across flushes of the fixed buffer |
| JsonRoundTrip.ReadExactlyWhatIsPrinted | src/lql_json_scan.c:4593-4776 | the texts read to their end are exactly the printed values of the allowed depth, and no text is two values |
| JsonRoundTrip.CompactTextReadsBack | src/lql_json_scan.c:3197-3220 | compacting is idempotent and keeps the value |
| JsonRoundTrip.AtTheLimit | src/lql_json_scan.c:4464-4468 | the input on which scanner and skipper differ |
| JsonTokens.WordsRead | src/lql_json_scan.c:4593-4630 | the three words are the three literals |
| JsonTokens.EmptiesRead | src/lql_json_scan.c:4073-4090 | braces or brackets with nothing but white space between them are the empty object or array |
| JsonTokens.KeysRead | src/lql_json_scan.c:4139-4237 | a key is a string and a colon with white space on either side, and white space is tab, line feed, carriage return and space |
| JsonSyntax.CompactTextIsText | src/lql_json_scan.c:5136-5141 | the compact text equals the source text exactly when there was no white space |
| JsonStrings.UnitByContinuations | src/lql_json_scan.c:3371-3391 | the bounds on continuation bytes accept exactly the UTF-8 of section 4 of RFC 3629 |
| TextMatch.TextMatcher.Complete | src/lql_json_scan.c:2534-2579 | the terms reported are exactly those that the fed text satisfies: equality, prefix, substring, and both after lowercasing |
| TextMatch.TextMatcher.Byte | src/lql_json_scan.c:2420-2532 | one more byte keeps every term's state in step with the text fed so far |
| TextMatch.TextMatcher.Span | src/lql_json_scan.c:2325-2398 | a span of ASCII leaves the same state as its bytes one by one |
| TextMatch.FoldingHits | src/lql_json_scan.c:2230-2258 | a term that ignores case hits exactly when its lowercase needle occurs in, or starts, the lowercase of the whole text |
| Kmp.Step | src/lql_json_scan.c:2216-2225 | the automaton's position stays the longest needle prefix that ends the input, and it reports exactly the bytes at which the needle ends |
| Kmp.BuildFailure | src/lql_stream_flat_eq.c:453-485 | the failure table holds the longest proper border of every prefix |
| NumberHits.NumberHit | src/lql_json_scan.c:1464-1646 | a number hits a term exactly as its comparisons answer, by exact order for a token that fits and by seen order for one that does not; where they are exact, exactly when it is in the term's range |
| NumberHits.NumberAnswersExactly | src/lql_json_scan.c:1393-1421 | where no pair misleads, what a term is told is what its numbers say |
| NumberCompare.CompareJson | src/lql_number.c:510-548 | succeeds exactly on two JSON numbers, with the sign of the exact difference of their values, for any length and exponent |
| NumberCompare.CompareAbs | src/lql_number.c:464-508 | the sign of the difference of two magnitudes |
| NumberCompare.AdjustedExponent | src/lql_number.c:291-346 | exponent plus adjustment as the shortest decimal text of the exact sum |
| NumberCompare.AddDigits | src/lql_number.c:201-242 | the carry loop writes the shortest text of the sum |
| NumberCompare.SubDigits | src/lql_number.c:244-289 | the borrow loop writes the shortest text of the difference |
| NumberCompare.DecimalParse | src/lql_number.c:372-462 | succeeds exactly on JSON numbers and takes them apart without loss |
| NumberText.TextIsNumber | src/lql_number.c:372-462 | every text put together from a sign, an integer, a fraction and an exponent is a JSON number, worth its digits with the point moved |
| NumberText.NumberIsText | src/lql_number.c:372-462 | and every JSON number is such a text |
| NumberCompare.ComparePlainInteger | src/lql_number.c:164-199 | where the integer shortcut answers, it answers the exact order |
| NumberSummary.SummaryOrdersSeen | src/lql_json_scan.c:974-1019 | the summaries order two numbers as the values they stand for: the digits with the adjusted exponent kept in the long range |
| NumberSummary.SummaryOrderExactly | src/lql_json_scan.c:974-1019 | they order them correctly if and only if those exponents do not order two numbers of one sign the other way |
| NumberSummary.CollapseIs | src/lql_json_scan.c:432-450 | but for an exponent of -LONG_MAX: the exponents differ, clamp to the same end of the long range, and the digits order the other way |
| NumberStream.NumberMatch.constructor | src/lql_json_scan.c:1021-1107 | the first token length that does not fit is the limit that the bounds set, or the capacity an earlier token left |
| NumberStream.NumberMatch.CompareCurrent | src/lql_json_scan.c:1393-1421 | a token shorter than that compares exactly; a longer one, with unclamped exponents, by the values the summaries stand for |
| NumberStream.SeenOrderExactly | src/lql_json_scan.c:974-1019 | that is the exact order if and only if the pair does not mislead |
| NumberStream.NumberMatch.Byte | src/lql_json_scan.c:1122-1209 | every byte keeps the summary, the buffer and all digit cursors in step with the token so far |
| NumberStream.CompareBuffered | src/lql_json_scan.c:749-790 | the three integer shortcuts agree with the exact comparison |
| NumberLimits.LongExponentsMislead | src/lql_json_scan.c:992-997 | two tokens, one ten times the other, that the summaries order as equal |
| NumberLimits.LongTokenMisjudged | src/lql_json_scan.c:1122-1224 | the comparator run over such a token of more than 8192 bytes answers that it equals the bound |
| NumberLimits.LongestNegativeExponentMisleads | src/lql_json_scan.c:416-430 | two equal tokens, the first with an exponent of -LONG_MAX, that the summaries order as less |
| CaseFold.SimpleLower | src/lql_unicode_lower.c:181-201 | binary search over sorted ranges equals looking at every range |
| CaseFold.PairsLower | src/lql_unicode_lower.c:195-196 | in an alternating range every code point at an even distance from the first becomes its successor, every one at an odd distance stays |
| CaseFold.PairsLowerOnce | src/lql_unicode_lower.c:195-196 | lowercasing an alternating range of whole pairs twice is lowercasing it once |
| CaseFold.RangeLowers | src/lql_unicode_lower.c:195-199 | in any other range a code point moves by the range's delta |
| CaseFold.LettersLower | src/lql_unicode_lower.c:181-186 | A to Z become a to z, whatever the table holds |
| CaseFold.OthersStay | src/lql_unicode_lower.c:181-201 | outside all ranges and A to Z nothing changes |
| CaseFold.Utf8Lower | src/lql_unicode_lower.c:299-325 | the lowercase of the whole text, or failure on malformed text or when it does not fit |
| CaseFold.FoldIsLowerText | src/lql_json_scan.c:2230-2258 | lowercasing byte by byte equals lowercasing the whole text |
| Utf8.Decode | src/lql_unicode_lower.c:203-247 | succeeds exactly on a well-formed sequence, with its value and its end |
| Utf8.DecodeOfEncode | src/lql_unicode_lower.c:257-283 | encoding a scalar value and decoding gives it back |
| Utf8.EncodeOfDecode | src/lql_unicode_lower.c:203-283 | decoding a well-formed sequence and encoding gives it back |
| PlainAscii.StopsExactly | src/lql_json_scan.c:3058-3090 | the add, subtract and mask tests on a word stop exactly when one of its bytes is a quote, a backslash, a control or a high byte |
| PlainAscii.Span | src/lql_json_scan.c:3091-3111 | word-at-a-time gives the same length as byte-at-a-time for every buffer |
| Lifetime.ReleaseKeeps | lua/lql_lifetime.h:64-69 | giving back a reference keeps the counts exact and frees the owner with its last one |
| Lifetime.DestroyKeeps | lua/lql_lifetime.h:82-89 | disposing keeps the invariant: nothing is destroyed twice, after its context, or closed inside a method of its owner |
| Lifetime.CloseIdleKeeps | lua/lql_lifetime.h:91-102 | closing an idle owner's handle disposes of it at once |
| Lifetime.DeferKeeps | lua/lql_lifetime.h:91-102 | closing while a method of the owner runs only defers |
| Lifetime.TrackKeeps | lua/lql_lifetime.h:142-167 | a new native object counts as a reference and as a temporary of the innermost scope |
| Lifetime.TakeKeeps | lua/lql_lifetime.h:169-191 | handing an object out moves it from the scope's list |
| Lifetime.EnterKeeps | lua/lql_lifetime.h:332-371 | entering a method keeps its owner alive and counts it active |
| Lifetime.LeaveKeeps | lua/lql_lifetime.h:296-330 | leaving gives that back |
| Lifetime.DrainKeeps | lua/lql_lifetime.h:306-312 | the outermost method's exit disposes of what was deferred |
| Lifetime.ForsakeKeeps | lua/lql_core.c:1946-1960 | collecting the client handle keeps the counts exact |
| Lifetime.NothingLeaks | lua/lql_lifetime.h:64-102 | when no owner is left, every native object ever made was destroyed exactly once and before its context |
| Lifetime.Facade.Exit | lua/lql_lifetime.h:296-330 | exactly the scope's temporaries and, at the outermost exit, the deferred resources are disposed of, each with its reference to the owner; the method's own reference goes last, the owner with the last one, and nothing else changes |
| Lifetime.Facade.Run | lua/lql_lifetime.h:332-389 | any sequence of steps, as a trace: each step does exactly what it names where the program can take it and nothing otherwise, and the invariant stays: counts exact, nothing destroyed early, twice or late |
| SelectorParser.Parser.Parse | src/lql_selector.c:2796-2876 | the cursor and frame stack compute exactly that selector, or fail exactly when there is none |
| SelectorParser.Parser.ScanValue | src/lql_selector.c:2758-2794 | a value changes only the top frame, as its tree says, and fails exactly on text that is no value or that the frame refuses |
| SelectorParser.Parser.ScanChars | src/lql_selector.c:2465-2595 | the text buffer holds the decoded string, whatever the chunks |
| SelectorSpellings.RenamedTextsReadTheSame | src/lql_selector.c:433-488 | two texts of one operator, one with the short keys f, v, a, b, ic or ignorecase and one with the long names, read as the same selector; a is after for a date and any elsewhere |
| SelectorSpellings.RenamedPredicateIsTheSame | src/lql_selector.c:2083-2170 | the same for a predicate object wherever one may stand |
| SelectorSpellings.LongNamesNameTheirSlots | src/lql_selector.c:433-488 | field, value, any, ignoreCase, the four bounds, after, before and since each fill what they name |
| SelectorSpellings.CaseWords | src/lql_selector.c:2083-2170 | the case flag takes "true" and "t" as true, "false" and "f" as false, and no other text |
| SelectorSpellings.BarsAreAnArray | src/lql_selector.c:590-646 | alternatives between bars are the array of those scalars, white space around each dropped, except that "in" refuses padded ones |
| SelectorSpellings.ScalarsAreText | src/lql_selector.c:2225-2321 | an operator that looks for text takes a number, true, false or null as the text that spells it |
| SelectorSpellings.ScalarsKeepTheirKind | src/lql_selector.c:2225-2321 | equality keeps the kind of the scalar |
| SelectorSpellings.QuotedNumbersAreBounds | src/lql_selector.c:688-777 | a number in quotes, white space around it, is the same bound as the number |
| SelectorSpellings.SinceWords | src/lql_selector.c:778-850 | now, today and yesterday, in any case, are taken behind since and nowhere else |
| SelectorSpellings.EmptySearchesMatchAll | src/lql_selector.c:1179-1206 | the searches that stand for every record |
| SelectorWriter.Writer.Write | src/lql.c:1219-1352 | the bytes written are the print of the selector's tree |
| SelectorWriter.Writer.String | src/lql.c:835-890 | every byte is spelt as the escapes demand |
| SelectorText.QuoteMeansItself | src/lql.c:835-890 | the escaped text of a well-formed string is a JSON string that means it |
| SelectorRoundTrip.WrittenReadsBack | src/lql.c:942-1352 | reading what was written gives the selector with not-equal as the negation of equal, kinds and texts of literals and bounds kept, fields normalized again |
| SelectorReading.ReadWritesBack | src/lql_selector.c:1844-2321 | every selector read from JSON can be written, and reading that text gives it back if and only if no field ends in a slash it could lose |
| SelectorReading.TakingIsOk | src/lql_selector.c:1844-2321 | whatever the text, every frame stays one whose literals, bounds, dates and fields can be written |
| SelectorFields.NormalizeTwice | src/lql_selector.c:361-419 | normalizing again changes a normalized field exactly when it ends in a slash |
| SelectorFields.NormalizePath | src/lql_selector.c:361-419 | the loops compute the normalized path, and refuse exactly what is no pointer |
| Calendar.DaysFromCivilCounts | src/lql_temporal.c:81-92 | the code counts days as the calendar does |
| Calendar.DaysFromCivilIncreases | src/lql_temporal.c:81-92 | later dates have larger numbers |
| Calendar.CivilInvertsDays | src/lql_temporal.c:81-122 | from a valid date to its number and back is the identity |
| Calendar.DaysInvertCivil | src/lql_temporal.c:94-122 | from a day to its date and back is the identity, and only days outside the years 0 to 9999 are refused |
| Timestamp.ReadingInvertsPrinting | src/lql_temporal.c:241-352 | reading a printed literal gives it back to the last field |
| Timestamp.PrintingInvertsReading | src/lql_temporal.c:143-352 | an accepted text is the print of what it says, so no two texts say the same |
| Timestamp.FieldsAreRead | src/lql_temporal.c:143-235 | year, month, day, hour, minute, second and fraction are what the decimal digits at their places say |
| Timestamp.ZonesShift | src/lql_temporal.c:209-235 | for every date, clock time and fraction: with +hh:mm the seconds of the same text with Z minus the offset, with -hh:mm plus it, without a zone the same |
| Timestamp.NanosecondsFit | src/lql_temporal.c:187-208 | a fraction counts as the whole nanoseconds that fit into it |
| Timestamp.FormattingRoundTrips | src/lql_temporal.c:396-438 | what the formatter writes, the RFC 3339 parser reads back as the same seconds and nanoseconds |
| Timestamp.Format | src/lql_temporal.c:396-438 | succeeds exactly when the text fits and the instant lies in the years 0 to 9999, and writes the instant |
| Timestamp.ParseFast | src/lql_temporal.c:141-239 | the fast parser accepts exactly the literals without white space around them, with their meaning |
| Timestamp.Parse | src/lql_temporal.c:241-352 | the general parser accepts exactly the allowed literals; where the fast one accepts, the value is the same |
| Timestamp.ExactIsLiteral | src/lql_temporal.c:143-352 | what the fast reading accepts the general reading accepts as the same |
| Spool.Spool.Append | src/lql_json_spool.c:107-145 | fails exactly when the size would overflow; otherwise the contents grow by the data if and only if nothing was read since the last append or the data is empty, and else the data overwrites the file where the last read stopped |
| Spool.Spool.ReadThenAppend | src/lql_json_spool.c:136 | a byte read from a large spool and an append behind it leave a file that is not what was appended |
| Spool.Spool.Reset | src/lql_json_spool.c:63-74 | empties the spool, ready to fill |
| Spool.Spool.ByteAt | src/lql_json_spool.c:204-252 | from memory, cache or file: the byte of the contents |
| Spool.Spool.WriteSlice | src/lql_json_spool.c:157-202 | the chunks that the writer receives make up the slice |
| Spool.Spool.FindStringEnd | src/lql_json_spool.c:289-356 | the end of the string, wherever chunks are cut |
| Spool.StringEndIsFirst | src/lql_json_spool.c:254-287 | that end is the first quote that an even number of backslashes precedes |
| Allocator.Process.NewReceiver | src/lql.c:112-137 | a new instance pays for itself and its receiver, or nothing changes |
| Allocator.Process.Alloc | src/lql_allocator.c:15-39 | refuses exactly over quota, on overflow or without memory; otherwise the block is charged to its instance, whether or not its receiver still lives |
| Allocator.Process.Calloc | src/lql_allocator.c:41-51 | the same for a product, also when it overflows |
| Allocator.Process.Realloc | src/lql_allocator.c:53-93 | refuses exactly for another owner's block, on overflow, over quota or without memory, and then changes nothing; size zero frees, no block allocates, else the charge changes by the difference |
| Allocator.Process.Free | src/lql_allocator.c:95-118 | whichever receiver frees, the block's owner is credited, and an idle instance of a gone receiver is released |
| Allocator.Process.DestroyReceiver | src/lql.c:268-280 | the receiver's block goes and is credited; the instance goes with it, or later with its last block, once |
| Allocator.Process.Run | src/lql_allocator.c:15-118 | any sequence of steps, as a trace: each allocates, resizes, frees, opens or retires exactly what it names; the books balance within the limit, and every instance was released exactly once if its receiver is gone and no block of it remains, and not at all otherwise |
| Allocator.Process.NothingLeft | src/lql_allocator.c:201-207 | with every block freed, receivers' included, every instance ever made was released |
| MutationPath.ParsePath | src/lql_direct_actions.c:213-350 | the loops compute the segments, and refuse exactly what is no path |
| MutationPath.SegmentsJoin | src/lql_direct_actions.c:213-350 | the segments of two paths written one after the other are the two lists joined |
| PointerText.PathReadsAsItsNames | src/lql_direct_actions.c:213-350 | a slash and any names, escaped as in section 3 of RFC 6901 and joined by slashes, is a path and reads as those names, white space around it or not |
| PointerText.OthersAreNoPaths | src/lql_direct_actions.c:213-350 | a text that does not start with a slash, or is the slash alone, is no path |
| PointerText.BracketsAreSegments | src/lql_direct_actions.c:213-350 | brackets behind a name are segments of their own |
| Mutations.ClauseUnder | src/lql_direct_actions.c:611-715 | a clause read alone reads, with a prefix written in front of its path, as the same action under the prefix's segments |
| Shorthand.ShorthandMeansItsClauses | src/lql_direct_actions.c:833-984 | every expression the parser takes denotes, in order, the actions of its clauses written out with their full paths, to any depth |
| Shorthand.Mutation.ParseExpression | src/lql_direct_actions.c:833-984 | the recursive parser appends exactly those actions, on strictly shorter texts, or fails |
| ClauseForms.PlusPlusIncrements | src/lql_direct_actions.c:667-671 | a path and ++ is the one action that increments the path's segments |
| ClauseForms.MinusMinusDecrements | src/lql_direct_actions.c:672-676 | a path and -- the one that decrements them |
| ClauseForms.RemovalRemoves | src/lql_direct_actions.c:651-666 | rm:, remove:, delete: and del: and a path the one that removes them |
| ClauseForms.EqualAssigns | src/lql_direct_actions.c:677-715 | a path, an equals sign and a text the one that assigns what the text is read as |
| ClauseForms.CommandAssigns | src/lql_direct_actions.c:634-650 | with time:, file:, textfile: or base64file: in front, what that command reads the text as |
| ClauseForms.BracesDistribute | src/lql_direct_actions.c:833-984 | clauses between braces, with commas or line breaks between them, are each clause on its own, in order, under the path in front |
| Shorthand.Mutation.ParseList | src/lql_direct_actions.c:986-1104 | so does the loop over a list of expressions |
| Shorthand.ScanClause | src/lql_direct_actions.c:873-934 | the scan with its quote, brace and bracket state ends where the clause ends |

## Left out

- Recursive path segments, and the slots that carry them from level to level: no source file states what they are to mean.
- Stop-on-hit: with it, hits that are not needed may be missing.
- The compilation of selectors into terms and capture keys; terms are taken well-formed, with correct failure tables.
- Selector segments with `~0` or `~1` while keys are matched: a segment is compared as it stands.
- NumberStream.NumberMatch.CompareCurrent: with exponents that clamp, the answer is left open, because the comparison of clamped exponents returns before it looks at the digits.
- NumberHits.NumberHit: says nothing where an exponent clamps, for the same reason.
- Scanner.Scanner.Record: promises the hits only for numbers whose comparisons are exact; for the others NumberHit says what a term is told.
- The 328 ranges of the case table: any sorted table that maps no other character to ASCII is allowed.
- Objects longer than LONG_MAX bytes, failures of memory, files and callbacks other than those of the quota, and cancellation.
- Floating point: the `double` value of a number, a bound or a delta; texts of numbers are kept and compared exactly.
- The Lua stack, scratch buffers, registry roots and handles borrowed from other owners; only the ownership steps are kept.
- Selectors and JSON: the text syntax of selectors, and nodes updated through pointers; frames hold the selectors they build as values.
- SelectorRoundTrip.WrittenReadsBack: holds for selectors whose texts are well-formed UTF-8, which only the JSON parser ensures.
- Mutations: what a value text means (numbers, times, files) is a parameter; a clause that is refused only because its path is the root may be accepted when it is written out under a prefix.
- Shorthand.ShorthandMeansItsClauses: each clause is an expression of its own; joined into one text, a path that ends in a comma would be cut there.
- Argument checks, error messages, streams of several inputs, projections, the command line and the examples.

# iperf3 core, modelled and proved

This project models the parts of iperf3 whose correctness is hard to see from the code, and proves what they are for:

- the cJSON text codec and its linked trees, which carry every parameter and result message;
- the control protocol between client and server, down to single bytes and partial reads and writes;
- the pairing of streams and the exchange of their results;
- the timer package over the microsecond clock;
- UDP sequence numbers and loss accounting;
- interval statistics, sender pacing and the server's rate limit;
- the `getopt_long` of the Windows port.

Code that changes state is a class or a method here, with the same fields, branches and loops; its contract ties the new
state to a function of the old one, and the theorems are about those functions. System calls are parameters: what a
`read`, `write`, `select`, `malloc` or a clock returned. Everything is checked by `dafny verify dfyconfig.toml`.

## Layout

| files | contents |
|---|---|
| `Bytes`, `ByteOrder`, `Arithmetic`, `Sequences` | byte strings, network byte order, small facts |
| `JsonString`, `JsonText`, `JsonGrammar` | string literals, the rendering of a tree, the parser as functions of the text |
| `JsonSyntax`, `JsonRoundTrip` | the grammar of what the parser accepts, in both directions; the printed text in that grammar, the round trip |
| `JsonParse`, `JsonPrint`, `JsonTree` | the parse buffer, the growing print buffer, the linked nodes |
| `IperfTime`, `TimerRun`, `TimerCatchUp`, `TimerResets`, `Timer` | the clock, one pass over the timers as a function, when it catches up, the pass with callbacks that reset timers, the linked timer lists |
| `UdpLoss`, `UdpNumbers`, `UdpStream` | loss accounting against the set of numbers received; the numbers a sender uses; header, sender and receiver |
| `Statistics`, `Pacing`, `RateWindow` | interval records, the throttle, the cyclic rate window |
| `GetOpt` | the option tokenizer, the rendering it undoes |
| `Framing` | partial reads and writes, length-prefixed documents |
| `ControlProtocol`, `ControlHandlers`, `ControlInvariant`, `ControlTheorems` | the two processes and their steps, the same as objects with a driver, the invariant, the theorems |
| `StreamPairing`, `ResultsExchange`, `ResultsDocument`, `DocumentSizes` | stream identities, the exchange, its documents and their sizes |

## What the proofs found

- `cJSON_PrintPreallocated` succeeds exactly when the buffer has room for the text and two bytes more
  (`JsonPrint.PrintPreallocated`); the header's advice of five more is sufficient.
- `parse_string` accepts more than section 7 of RFC 8259 allows. An accepted literal conforms if and only if it is sound: no
  control bytes, and four hexadecimal digits behind every `\u` (`JsonString.AcceptedConformsIff`). Neither is checked: a
  broken `\u` is read as a NUL byte and a control byte as itself (`JsonString.LaxLiterals`). Broken escapes put the second
  pass over a string out of step with the first, and still nothing is written outside the allocation
  (`JsonString.LiteralFitsAllocation`).
- The parser accepts exactly one grammar, of which RFC 8259 is a part (`JsonSyntax.ReadIffSpelled`,
  `JsonSyntax.ConformingIsRead`). Beyond that RFC it takes any byte up to 32 for space, leading zeros, and a point without digits
  on one side. A number of more than 63 digits is cut after 63, and at the top of a document the rest is left unread without an
  error (`JsonSyntax.LongNumberCut`). What is printed conforms (`JsonRoundTrip.PrintedConforms`).
- `JSONStream_Output` frees all it made if and only if it could make no event, or the event was printed and the reference, if
  it was made, got its key (`JsonTree.StreamOutput`): a reference without a key is lost, and so is a whole event that cannot
  be printed.
- With an allocator that cannot enlarge a block, printing reads one byte behind an empty first buffer, and only then
  (`JsonPrint.PrintBuffered`, `JsonPrint.OverreadHappens`).
- A timer that is late by its period or more is visited again in the same pass exactly if its successor is not due after
  its next expiry (`TimerCatchUp.FiresAgainIff`). A pass leaves nothing due exactly if every timer that is still due after it
  fired is visited again (`TimerCatchUp.NothingDueIff`). Where no two timers expire together, that is if and only if between
  any two consecutive due expiries of a periodic timer another timer expires (`TimerCatchUp.NothingDueBefore`). Each due timer
  fires once with nothing left exactly if every due periodic timer is late by less than its period
  (`TimerCatchUp.OnceEachIff`).
- A callback that resets the timer behind its own makes the pass end there, so that due timers further on wait for the next
  pass (`TimerResets.PassedOver`). As long as due timers do not reset due timers none is missed (`TimerResets.DueAllFire`); it
  cannot happen with any list if and only if a callback that resets a timer resets all others
  (`TimerResets.NonePassedOverIff`).
- With several datagrams in a send, a send that fails gives back one number of several, and the receiver reports the others as
  lost although nothing was. It reports no such loss if and only if each send carries one datagram, or none failed in front of
  an accepted one (`UdpNumbers.PhantomLosses`, `UdpNumbers.NoPhantomIff`).
- A duplicate can hide a loss (`UdpLoss.DuplicateHidesLoss`). The loss counter is exact if and only if no duplicate has come
  since the last moment when nothing was missing (`UdpLoss.ExactIff`); it is off by at most one per duplicate
  (`UdpLoss.CountersBound`).
- After an omit reset, interval bytes start at the reset but interval packets at the interval before it. The two agree
  exactly when no packet was counted in between (`Statistics.Stream.PacketsSinceReset`).
- The throttle divides by the elapsed time; at time zero the quotient is undefined, and the pacing bound holds exactly
  for those readings of it that keep the light red (`Pacing.GreenIsSafe`); with any other, two rounds at time zero break it
  (`Pacing.RunsAhead`).
- The server's rate limit rounds down: an average above the limit by less than one bit per second goes unnoticed
  (`RateWindow.AgreesWithAverage`, `RateWindow.AboveLimitUnnoticed`).
- The server takes a flag for set if the member is there, whatever it says: told `"reverse": false` it sends
  (`ControlInvariant.FlagFalse`).
- A long option that lacks its required argument at the end of the line does not advance the cursor, so a caller that
  goes on gets the same error for ever; this is the only call without progress (`GetOpt.Progress`,
  `GetOpt.StarvedForever`). A value given to a long option that takes none is dropped (`GetOpt.UnwantedValueDropped`).
- `JSON_write` takes a short write for a success, and cuts a text to its length modulo 2^32: a result of zero means that
  the frame went out exactly if neither write was stopped half way and the text is shorter than 2^32 bytes
  (`Framing.JsonWrite`, `Framing.ShortIff`, `Framing.ShortFrame`, `Framing.HugeFrame`). From 2^31 bytes on, what goes out whole
  is reported as a failure.
- Another client that calls while the server is creating streams can end the test: the server sets the type of service on
  the connection it has just closed, it asks the system whether that connection is closed, and a hard error on it is taken
  for one of the test. The server fails exactly if it accepts such a caller (`ControlTheorems.Synchronised`). Callers that do
  not break off can end no run of a test if and only if the client asked for no type of service and the system reports
  closed descriptors, or the client asked for no streams (`ControlTheorems.Isolation`, `ControlTheorems.StrangerEndsTest`).
  Outside that moment callers change nothing (`ControlTheorems.OthersDoNotMatter`).
- The server reads the client's results before it sends its own. For a stream on which the server sends, the errors and
  jitter it then reports are the client's own; the row is unaltered exactly if the stream receives or the values agree.
  The client does not use the altered fields, so both sides still end up with what their peer measured
  (`ResultsExchange.SentAfterReading`, `ResultsExchange.PairExchanged`).

## Model

| member | source | states |
|---|---|---|
| `JsonString.ParseHex4` | src/cjson.c:626-661 | the four digits' value, and 0 exactly as the code gives it for a byte that is no hex digit |
| `JsonString.HexMeaning` | src/cjson.c:626-661 | four bytes are taken for a number if and only if they are digits of the tables 0-9, A-F and a-f, in any mixture of case, and then for the number they spell in base sixteen; anything else yields 0 |
| `JsonString.Utf8Meaning` | src/cjson.c:727-775 | the encoding of every code point decodes, by the bits section 3 of RFC 3629 assigns, to that code point, and is the shortest |
| `JsonString.CombineMeaning` | src/cjson.c:674-713 | every code point beyond the first plane has exactly one pair of surrogates, its upper and lower ten bits above 0xD800 and 0xDC00 |
| `JsonString.SimpleEscapeTable` | src/cjson.c:845-868 | the eight letters of the one-byte escapes, `\/` among them, with their bytes; no other letter is one |
| `JsonString.TurnPays` | src/cjson.c:797-888 | every turn of the second pass writes no more than the bytes it consumes less the escapes the first scan counted in them, in step with that scan or not |
| `JsonString.DecodeFits` | src/cjson.c:797-888 | from any point of the second pass, all it still writes fits what the first scan reserved, also if it then rejects the literal |
| `JsonString.LiteralFitsAllocation` | src/cjson.c:784-910 | for every input, accepted or rejected, what the second pass writes fits the allocation, and what is accepted is what was written |
| `JsonString.LiteralMeaning` | src/cjson.c:784-910 | every well-formed literal is read as the bytes that section 7 of RFC 8259 and section 3 of RFC 3629 assign, surrogate pairs combined, and exactly the literal is consumed |
| `JsonString.AcceptedConformsIff` | src/cjson.c:784-910 | an accepted literal is one of section 7 of RFC 8259 if and only if it holds no control byte and four hexadecimal digits stand behind each `\u` that the first scan opens |
| `JsonString.ConformsIff` | src/cjson.c:784-910 | a literal that follows the grammar is accepted and read as section 7 of RFC 8259 and section 3 of RFC 3629 assign; it follows the grammar if and only if the walk over its units reaches its end |
| `JsonString.TurnExact` | src/cjson.c:832-885 | each turn of the second pass reads a unit of the grammar as its meaning; anything else it accepts is a raw control byte, a `\u` without four digits, or lies across the quote the first scan stopped at |
| `JsonString.LaxLiterals` | src/cjson.c:626-661 | accepted literals that do not conform: any four bytes that are no hexadecimal number behind `\u`, read as NUL, and any bare control byte |
| `JsonString.BrokenEscapeReadsAsNul` | src/cjson.c:832-885 | wherever they stand in a literal, the second pass reads a `\u` without four hexadecimal digits as a NUL byte and a control byte as itself |
| `JsonText.StringRoundTrip` | src/cjson.c:913-1032 | reading the printed form of any byte string returns it and consumes exactly that form |
| `JsonText.DecimalDigits` | src/cjson.c:556-624 | an integer is printed in decimal digits, the last for the remainder by ten |
| `JsonGrammar.IntegerRoundTrip` | src/cjson.c:316-391 | the text of every integer up to 2^53 in size is read back as it, up to the byte behind it |
| `JsonGrammar.NumberRoundTrip` | src/cjson.c:316-391 | number text of up to 63 bytes that the conversion takes whole, with a fraction or an exponent too, is read whole, up to the byte behind it |
| `JsonGrammar.RenderNulFree` | src/cjson.c:1378-1449 | the text of a printable tree holds no NUL, so `strlen` and the parser see all of it |
| `JsonSyntax.NumConverts` | src/cjson.c:316-391 | a number of the grammar of up to 63 bytes is converted whole |
| `JsonSyntax.NumRead` | src/cjson.c:316-391 | what is converted is a number of the grammar: section 6 of RFC 8259, leading zeros, and a point without digits on one side |
| `JsonSyntax.LiteralShift` | src/cjson.c:784-910 | whether a text is a string literal, and its value, do not depend on what stands around it |
| `JsonSyntax.TreeRead` | src/cjson.c:1323-1375 | at any offset and depth, with any space between its parts, the text of a tree of the grammar is read as what it means and consumed exactly, if and only if it nests within what is left of 1000 |
| `JsonSyntax.ItemsRead` | src/cjson.c:1452-1547 | the same for the element loop of an array |
| `JsonSyntax.EntriesRead` | src/cjson.c:1612-1722 | the same for the member loop of an object |
| `JsonSyntax.TreeFound` | src/cjson.c:1323-1375 | whatever is accepted as a value is the text of a tree of the grammar that means that value and does not nest too deep |
| `JsonSyntax.ReadIffSpelled` | src/cjson.c:1106-1183 | the reader accepts exactly the texts that the grammar spells, byte order mark and any space included, as what they mean, if and only if containers nest at most 1000 deep |
| `JsonSyntax.LongNumberCut` | src/cjson.c:328-345 | of more than 63 digits the first 63 are the value and the rest is left |
| `JsonSyntax.ConformingIsRead` | src/cjson.c:1106-1183 | every text of RFC 8259, with numbers of up to 63 bytes, is read as what it means if and only if it nests at most 1000 deep |
| `JsonRoundTrip.TreeOfPrints` | src/cjson.c:1378-1449 | every text the printer produces, formatted or not, is spelled by a tree of the grammar that means the value printed |
| `JsonRoundTrip.PrintedConforms` | src/cjson.c:1378-1449 | it is a text of RFC 8259 if the numbers that the C library wrote are |
| `JsonRoundTrip.PrintedByte` | src/cjson.c:971-1027 | the printed form of each byte: a short escape, `\u00` and two lower-case digits for other control bytes, else the byte |
| `JsonRoundTrip.RoundTrip` | src/cjson.c:1106-1183 | parsing the printed text of a tree, numbers with fractions included, formatted or not, returns the tree and stops at its end, if and only if containers nest at most 1000 deep |
| `JsonRoundTrip.DeepestRead` | src/cjson.h:137-139 | 1000 brackets around a value are read and 1001 are not |
| `JsonParse.EncodeUtf8` | src/cjson.c:727-775 | the bytes written from last to first are the UTF-8 form of the code point, and those in front of them stay |
| `JsonParse.ParseBuffer.SkipWhitespace` | src/cjson.c:1049-1072 | the offset moves to the first byte above a space |
| `JsonParse.ParseBuffer.SkipByteOrderMark` | src/cjson.c:1075-1088 | a byte order mark at the start is skipped |
| `JsonParse.ParseBuffer.FindClosingQuote` | src/cjson.c:797-828 | the first scan finds the closing quote and counts the escapes |
| `JsonParse.ParseBuffer.UnescapeTurn` | src/cjson.c:832-885 | one turn of the second pass decodes what `DecodeTurn` says, inside the allocation |
| `JsonParse.ParseBuffer.Unescape` | src/cjson.c:830-888 | the loop writes exactly the decoded text, inside the allocation |
| `JsonParse.ParseBuffer.ParseString` | src/cjson.c:784-910 | the buffer form reads exactly the literal of the grammar |
| `JsonParse.ParseBuffer.ParseNumber` | src/cjson.c:316-391 | the buffer form reads exactly the number of the grammar |
| `JsonParse.ParseBuffer.ParseValue` | src/cjson.c:1323-1375 | value, offset and depth after it, or failure, are those of the grammar |
| `JsonParse.ParseBuffer.ParseElements` | src/cjson.c:1486-1524 | the element loop reads the elements of the grammar in order |
| `JsonParse.ParseBuffer.ParseArray` | src/cjson.c:1452-1547 | an array is read as the grammar says; the depth is given back |
| `JsonParse.ParseBuffer.ParseMembers` | src/cjson.c:1645-1700 | the member loop reads the members of the grammar in order |
| `JsonParse.ParseBuffer.ParseObject` | src/cjson.c:1612-1722 | an object is read as the grammar says; the depth is given back |
| `JsonParse.ParseBuffer.Parse` | src/cjson.c:1106-1188 | the whole text, from mark and blanks to the end of the value |
| `JsonPrint.NewSize` | src/cjson.c:478-501 | the new size is enough and at most SIZE_MAX |
| `JsonPrint.PrintBuffer.Ensure` | src/cjson.c:450-533 | succeeds exactly if the demand fits or may be allocated; then there is room for one byte more than asked, and what was written is kept; a byte behind the block is read exactly when an empty block is copied by hand |
| `JsonPrint.PrintBuffer.Put` | src/cjson.c:450-533 | a byte is written only behind the offset and inside what `ensure` reserved |
| `JsonPrint.PrintBuffer.UpdateOffset` | src/cjson.c:536-546 | the offset ends behind the text just printed |
| `JsonPrint.PrintBuffer.PrintNumber` | src/cjson.c:556-624 | appends the number's text, of an integer or of a double as the C library wrote it |
| `JsonPrint.PrintBuffer.CountEscapes` | src/cjson.c:940-970 | the first pass computes exactly the length of the escaped string |
| `JsonPrint.PrintBuffer.PrintString` | src/cjson.c:913-1032 | appends the quoted, escaped string |
| `JsonPrint.PrintBuffer.PrintValue` | src/cjson.c:1378-1449 | appends exactly the rendering, inside what was reserved, and keeps offset below length; it succeeds if the rendering and two bytes fit |
| `JsonPrint.PrintBuffer.PrintArray` | src/cjson.c:1550-1609 | the same for arrays |
| `JsonPrint.PrintBuffer.PrintItems` | src/cjson.c:1573-1597 | the same for the loop over elements |
| `JsonPrint.PrintBuffer.PrintObject` | src/cjson.c:1725-1836 | the same for objects |
| `JsonPrint.PrintBuffer.PrintMembers` | src/cjson.c:1752-1816 | the same for the loop over members |
| `JsonPrint.PrintTree` | src/cjson.c:1198-1260 | what is returned is exactly the rendering; memory for twice the text is enough |
| `JsonPrint.PrintBuffered` | src/cjson.c:1273-1300 | what is returned is exactly the rendering, from any size of starting buffer, and a byte behind a block was read exactly if that was zero and the allocator cannot enlarge |
| `JsonPrint.OverreadHappens` | src/cjson.c:508-530 | that happens for every tree |
| `JsonPrint.PrintPreallocated` | src/cjson.c:1303-1320 | succeeds exactly if the block has room for the text and two bytes more, and then holds the text and a NUL |
| `JsonTree.Node.GetItem` | src/cjson.c:1862-1879 | the element at an index of the list the links describe, or null |
| `JsonTree.Node.Size` | src/cjson.c:1839-1860 | the length of the list |
| `JsonTree.Node.Append` | src/cjson.c:1967-1998 | a detached item is appended; the head points back at the new tail |
| `JsonTree.Node.Detach` | src/cjson.c:2198-2232 | the item is taken out, links stay consistent and its own are cleared |
| `JsonTree.Node.DetachAt` | src/cjson.c:2234-2242 | the same by index; a negative or too large one changes nothing |
| `JsonTree.Node.Insert` | src/cjson.c:2274-2301 | the item stands at the index, or at the end if the list is shorter; a negative index is refused |
| `JsonTree.Node.Replace` | src/cjson.c:2303-2350 | the replacement stands where the item stood; the item is detached |
| `JsonTree.Node.Reference` | src/cjson.c:1946-1965 | a detached node marked as a reference that shares children and string value and has no key |
| `JsonTree.Delete` | src/cjson.c:264-285 | every node reachable without passing through a reference is freed once, and with it its key unless constant and its string value unless it is a reference; no other memory is touched |
| `JsonTree.Node.Name` | src/cjson.c:2033-2056 | an item gets its key, constant or copied, unless the copy fails, which changes nothing; an old key is freed unless constant |
| `JsonTree.CreateString` | src/cjson.c:2466-2481 | a node with a copy of the string, or nothing and nothing left over |
| `JsonTree.MakeReference` | src/cjson.c:2080-2088 | a reference with its key; one that gets no key stays allocated and is not returned |
| `JsonTree.StreamOutput` | src/iperf_api.c:3100-3125 | the printed event holds its name, if there was memory for it, and behind it the children and the string of the object itself, if there was memory for the reference; whatever allocations fail, the object, all it owns and its string value stay unchanged and alive; all that was made is freed if and only if no event was made, or it was printed and the reference, if made, got its key |
| `IperfTime.AddUsecs` | src/iperf_time.c:92-99 | the result is normalised and its microseconds are the sum modulo the clock's range |
| `IperfTime.PlusInUsecs` | src/iperf_time.c:92-105 | adding is addition of microseconds modulo the clock's range |
| `IperfTime.SecondsCarry` | src/iperf_time.c:92-99 | a million microseconds carry into the seconds, which wrap at 2^32; whole seconds leave the microseconds alone |
| `IperfTime.CompareIsOrder` | src/iperf_time.c:121-133 | the comparison is the order of the microseconds |
| `IperfTime.Diff` | src/iperf_time.c:143-174 | the distance in microseconds, and which of the two is earlier |
| `TimerRun.RunFiresInOrder` | src/timer.c:177-199 | a pass fires in nondecreasing order of expiry, none that is not due |
| `TimerRun.RunFiresAllDue` | src/timer.c:177-199 | every timer due at entry fires |
| `TimerRun.RunClearsOneShots` | src/timer.c:177-199 | no due one-shot stays active |
| `TimerRun.RunMovesByPeriods` | src/timer.c:177-199 | each periodic timer moves by its period times the number of its firings; others do not change |
| `TimerRun.RunKeepsStrangersOut` | src/timer.c:177-199 | only active timers fire or stay |
| `TimerRun.PassGuarantees` | src/timer.c:177-199 | the above for a whole pass over a sorted list, which stays sorted |
| `TimerCatchUp.AheadIff` | src/timer.c:177-199 | after a firing the timer stands ahead of the walk if and only if its successor is not due after its next expiry |
| `TimerCatchUp.FiresAgainIff` | src/timer.c:177-199 | a due periodic timer fires again in the same pass if and only if it is ahead of the walk and still due |
| `TimerCatchUp.NothingDueIff` | src/timer.c:177-199 | a pass leaves nothing due if and only if every timer that is still due after it fired is visited again |
| `TimerCatchUp.NothingDueBefore` | src/timer.c:177-199 | a pass leaves nothing due if between any two consecutive due expiries of a periodic timer another timer expires; only if so with the earlier expiry included; and if and only if so where no two timers expire together |
| `TimerCatchUp.OnceEachIff` | src/timer.c:177-199 | each due timer fires exactly once and nothing due is left if and only if every due periodic timer is late by less than its period |
| `TimerCatchUp.LateTimerFiresTwice` | src/timer.c:177-199 | a concrete late timer that fires twice in one pass and is still late |
| `TimerResets.ResetAllKeeps` | src/timer.c:203-211 | resets in a callback give exactly the named timers a new expiry, their interval from now, keep the list sorted and make it no later |
| `TimerResets.NoResetsIsRun` | src/timer.c:177-199 | without resets the pass is that of `TimerRun`, so all its guarantees hold |
| `TimerResets.FiresOnTime` | src/timer.c:177-199 | whatever callbacks reset, no timer fires before it is due, only timers of the list fire or stay, and it stays sorted |
| `TimerResets.DueAllFire` | src/timer.c:177-199 | if no callback of a due timer resets a due timer, every timer due at entry fires |
| `TimerResets.PassedOver` | src/timer.c:177-199 | of three due timers of which the first resets the second, the third neither fires nor is reset |
| `TimerResets.NonePassedOverIff` | src/timer.c:177-199 | no pass over any list leaves a due timer behind that has neither fired nor been reset if and only if every callback that resets a timer resets all others |
| `TimerPackage.TimerList.FindPlace` | src/timer.c:61-97 | the place in front of the first timer that expires later, so behind its equals |
| `TimerPackage.TimerList.ListAdd` | src/timer.c:61-97 | the list stays linked both ways and sorted, first come first served on ties |
| `TimerPackage.TimerList.ListRemove` | src/timer.c:100-108 | the timer is taken out, links stay consistent |
| `TimerPackage.TimerList.ListResort` | src/timer.c:112-118 | a timer with a new time moves to its place |
| `TimerPackage.TimerList.Create` | src/timer.c:122-150 | a timer from the free list or from memory is added at its place, or null if there is neither |
| `TimerPackage.TimerList.Timeout` | src/timer.c:154-173 | null exactly without active timers; else the exact time to the earliest expiry of all, 0 if past |
| `TimerPackage.TimerList.Reset` | src/timer.c:203-211 | the timer expires its interval from now, at its place |
| `TimerPackage.TimerList.Cancel` | src/timer.c:215-223 | the timer moves from the active to the free list |
| `TimerPackage.TimerList.FireAt` | src/timer.c:177-199 | one turn of the loop is one firing of the pass, and the saved successor is where the pass says |
| `TimerPackage.TimerList.Run` | src/timer.c:177-199 | the loop ends and is exactly the pass `TimerRun.Run` |
| `TimerPackage.TimerList.ResetAll` | src/iperf_server_api.c:418-432 | exactly the resets of `TimerResets.ResetAll` happen to the linked list, which stays sorted, linked and of the same timers |
| `TimerPackage.TimerList.RunResetting` | src/timer.c:177-199 | with callbacks that reset other timers, so that the saved successor moves, the loop ends and is exactly the pass `TimerResets.RunFrom`; every timer is on the active or the free list afterwards |
| `TimerPackage.TimerList.Destroy` | src/timer.c:227-245 | both lists are empty |
| `UdpLoss.MissingStep` | src/iperf_udp.c:172-203 | how one arrival changes the set of missing numbers |
| `UdpLoss.CountersBound` | src/iperf_udp.c:172-203 | for every arrival sequence: packet count is the highest number, out-of-order count the late arrivals, and the loss count the missing numbers less at most one per duplicate |
| `UdpLoss.ExactIff` | src/iperf_udp.c:172-203 | the loss count is the number of missing numbers if and only if no duplicate has come since the last moment when nothing was missing |
| `UdpLoss.CountersExact` | src/iperf_udp.c:172-203 | without duplicates the loss count is the number of missing numbers, and received plus lost is the packet count |
| `UdpLoss.DuplicateHidesLoss` | src/iperf_udp.c:172-203 | with a duplicate, a loss can go uncounted |
| `ByteOrder.BigEndianRoundTrip` | src/iperf_udp.c:293-325 | a number written in k bytes reads back modulo 256 to the k |
| `ByteOrder.FourBytes` | src/iperf_api.c:3016-3022 | a 32-bit length is four bytes, the most significant first |
| `UdpStream.HeaderRoundTrip` | src/iperf_udp.c:130-165 | the receiver decodes the header the sender encoded, 32 or 64 bits of counter |
| `UdpStream.HeaderLayout` | src/iperf_udp.c:300-325 | the header byte by byte: seconds, microseconds, number, each most significant byte first |
| `UdpNumbers.NumbersGoUp` | src/iperf_udp.c:280-342 | the numbers on accepted datagrams go up, none comes twice, and the counter is ahead of their count by all but one of the numbers of each failed send |
| `UdpNumbers.OneByOne` | src/iperf_udp.c:280-342 | with one datagram in each send they are 1, 2, 3, ... with no gap |
| `UdpNumbers.PhantomLosses` | src/iperf_udp.c:172-203 | with every accepted datagram delivered in order, the receiver counts as lost all but one of the numbers of every failed send in front of an accepted one, and nothing else |
| `UdpNumbers.NoPhantomIff` | src/iperf_udp.c:334-337 | so it reports no loss if and only if each send carries one datagram or none failed in front of an accepted one |
| `UdpStream.Sender.Send` | src/iperf_udp.c:280-352 | with any number of datagrams in a send, those the network accepted carry the numbers of `UdpNumbers` and their times, each in its field; a failed send gives one number back; bytes count only when sent |
| `UdpStream.Receiver.Account` | src/iperf_udp.c:172-203 | the branches on a sequence number are one step of the accounting |
| `UdpStream.Receiver.Receive` | src/iperf_udp.c:97-203 | every header in what was read is accounted for in order, and bytes only while the test runs |
| `UdpStream.NumbersOfMany` | src/iperf_udp.c:120-205 | a read that returned several datagrams of one size holds their numbers in order, and a shorter piece at the end none |
| `UdpStream.NothingLost` | src/iperf_udp.c:128-203 | with all datagrams of a sender delivered in order, the receiver reports exactly the phantom losses |
| `UdpStream.EndToEnd` | src/iperf_udp.c:128-203 | through a network that drops and reorders, received plus counted losses is the receiver's packet count, at most the sender's |
| `UdpStream.Deliver` | src/iperf_udp.c:60-203 | a fresh receiver that is handed a sender's datagrams, some of them in any order and none twice, counts received plus lost as its packet count, at most the sender's, and all bytes |
| `RateWindow.RateLimiter.Store` | src/iperf_api.c:2167-2173 | the array holds the last samples, the newest over the oldest |
| `RateWindow.FullCycle` | src/iperf_api.c:2172-2181 | from the n-th sample on, the sum over the array is the sum of the last n samples |
| `RateWindow.ExceedsMeans` | src/iperf_api.c:2183-2189 | the test with its rounding is met exactly from one bit per second above the limit |
| `RateWindow.AgreesWithAverage` | src/iperf_api.c:2183-2189 | it agrees with "average above the limit" exactly outside that last bit |
| `RateWindow.AboveLimitUnnoticed` | src/iperf_api.c:2183-2189 | a concrete average above the limit that is not noticed |
| `RateWindow.WindowsGrow` | src/iperf_api.c:2166-2191 | a new sample adds one window and changes none |
| `RateWindow.RateLimiter.CheckTotalRate` | src/iperf_api.c:2157-2193 | the flag is up exactly if some n consecutive samples were over the limit; a finished test or no limit changes nothing |
| `Pacing.GreenMeans` | src/iperf_api.c:2100-2110 | green exactly while bits are below rate times time, in spite of the rounding |
| `Pacing.RoundedGreen` | src/iperf_api.c:2100-2110 | with a quotient off by a bounded factor, as that of two doubles, green and red mean below and at the rate but for that factor |
| `Pacing.GreenIsSafe` | src/iperf_api.c:2100-2110 | green implies "not ahead of the rate" if and only if time has passed, nothing was sent, or the undefined quotient reads high |
| `Pacing.RunsAhead` | src/iperf_api.c:2196-2263 | otherwise a run of two rounds checked at time zero goes beyond the bound, for every rate and block size |
| `Pacing.RoundMeaning` | src/iperf_api.c:2229-2252 | a round turn by turn: no message once the goal is met but for the last of a round, none after an error, and what is returned |
| `Pacing.Pacer.CheckThrottle` | src/iperf_api.c:2081-2110 | the light as computed, unchanged when the test is done or has no rate |
| `Pacing.Pacer.SendMt` | src/iperf_api.c:2196-2263 | at every moment of every run whose checks were safe, bits sent are at most rate times time plus one round of blocks; which checks are safe; how many messages a round has, which of them are sent, with which bytes, and what it returns; when the light is set |
| `Statistics.Telescopes` | src/iperf_api.c:3790-3803 | interval packet changes add up to the last snapshot |
| `Statistics.TelescopesFrom` | src/iperf_api.c:3790-3803 | from any interval on they add up to the difference of two snapshots |
| `Statistics.Stream.TcpSend` | src/iperf_tcp.c:93-117 | total and interval count grow together, the pending block shrinks; an error counts nothing |
| `Statistics.Stream.TcpRecv` | src/iperf_tcp.c:56-85 | bytes count in both counts while the test runs, else in neither |
| `Statistics.Stream.UdpCount` | src/iperf_udp.c:118-119 | a datagram's bytes count in both counts |
| `Statistics.Stream.AddToIntervalList` | src/iperf_api.c:3133-3148 | the new record takes the place of the last one |
| `Statistics.Stream.CloseInterval` | src/iperf_api.c:3736-3836 | one record is added that says what was counted since the last close, or the start: bytes, the change in each packet counter, the counters themselves, from when to when, and whether it is omitted; packets of all records then add up to the counters; closed intervals since the reset plus the open one stay the stream's count |
| `Statistics.Stream.Reset` | src/iperf_api.c:3692-3708 | after an omit reset the stream counts from zero and conservation holds from there |
| `Statistics.Stream.PacketsSinceReset` | src/iperf_api.c:3683-3710 | packets in all intervals are the counters at the last close; those since the reset are those since the last interval before it; the omitted count, which is the counters at the reset, cuts them off exactly if and only if none came in between |
| `Statistics.Test.StatsCallback` | src/iperf_api.c:3720-3843 | every stream gets such a record, with all its packets in closed intervals, and the rate limit's sample is exactly the bytes of the records closed |
| `Statistics.Test.ResetStats` | src/iperf_api.c:3683-3710 | every stream and the test's counters start from zero |
| `GetOpt.Parser.OptRequiresArg` | windows/compat/src/getopt_long.c:13-26 | whether an option takes an argument and whether it is optional |
| `GetOpt.Parser.FindOption` | windows/compat/src/getopt_long.c:37-39 | the first entry whose whole name matches |
| `GetOpt.Parser.HandleLong` | windows/compat/src/getopt_long.c:28-69 | result and new globals are those of the step function |
| `GetOpt.Parser.TakeShort` | windows/compat/src/getopt_long.c:98-132 | the same for a letter of a cluster |
| `GetOpt.Parser.GetoptLong` | windows/compat/src/getopt_long.c:71-133 | the same for a whole call |
| `GetOpt.ShortsRun` | windows/compat/src/getopt_long.c:98-132 | a cluster of flags with any ending is returned letter by letter |
| `GetOpt.LongRun` | windows/compat/src/getopt_long.c:28-69 | a long option in any of its forms is returned with its argument, and `longindex` is its place in the table |
| `GetOpt.RoundTrip` | windows/compat/src/getopt_long.c:71-133 | repeated calls undo any rendering of options: in order, with arguments, every word consumed once, no error recorded |
| `GetOpt.StopsAt` | windows/compat/src/getopt_long.c:86-92 | the end is reported at the end of the line, at an operand or after `--`, and nothing but the cursor and `optarg` changes |
| `GetOpt.EndIff` | windows/compat/src/getopt_long.c:85-92 | if no option is declared with the value -1, a call returns it if and only if no cluster is pending and the cursor is at the end of the line, at an operand or at `--` |
| `GetOpt.DeclaredArity` | windows/compat/src/getopt_long.c:13-26 | what a letter takes is said by none, one or two colons behind its first place |
| `GetOpt.UnknownLetter` | windows/compat/src/getopt_long.c:98-105 | a letter that is not declared yields `?` and is `optopt`; the letters behind it are next |
| `GetOpt.LetterLacksArgument` | windows/compat/src/getopt_long.c:116-122 | a letter that lacks the argument it requires yields `?` and is `optopt`; its word is consumed |
| `GetOpt.UnknownName` | windows/compat/src/getopt_long.c:67-68 | a name that is not declared yields `?`; its word, value and all, is consumed and `optopt` stays |
| `GetOpt.NameLacksArgument` | windows/compat/src/getopt_long.c:43-51 | a name that lacks the argument it requires yields `?` with its value in `optopt`; the cursor stays |
| `GetOpt.StartsOver` | windows/compat/src/getopt_long.c:80-83 | an `optind` of zero starts over behind the program's name |
| `GetOpt.CommandLine` | windows/compat/src/getopt_long.c:71-133 | on a whole command line the caller gets the options, then -1, with the cursor at the first operand |
| `GetOpt.Progress` | windows/compat/src/getopt_long.c:71-133 | every call that does not report the end moves on, except exactly when the last word is a long option without its required argument |
| `GetOpt.StarvedForever` | windows/compat/src/getopt_long.c:43-51 | there every further call reports the same error and moves nothing |
| `GetOpt.UnwantedValueDropped` | windows/compat/src/getopt_long.c:52-56 | a value given to an option that takes none is dropped |
| `Framing.Nwrite` | src/net.c:648-680 | what goes out is a prefix of the text, as long as the loop's outcome says |
| `Framing.WritesAll` | src/net.c:648-680 | however writes are cut, all bytes go out if each takes some |
| `Framing.WritesNoMore` | src/net.c:648-680 | never more than the text; a result that is not negative is the number of bytes written |
| `Framing.WriteStops` | src/net.c:654-678 | exactly where the system first stops taking bytes the call ends, with what it took until then: -1 for a transient stop or no buffers, -2 for an error, the count if some had gone out |
| `Framing.ShortIff` | src/net.c:648-680 | a write ends short with a result that is not negative if and only if the system refuses for now after some bytes and not all |
| `Framing.ShortFrame` | src/iperf_api.c:3008-3030 | a concrete frame of which half the length is missing and for which success is reported |
| `Framing.HugeFrame` | src/iperf_api.c:3008-3030 | of a text of exactly 2^32 bytes only a length of zero goes out, success is reported, and no reader accepts it |
| `Framing.Nrecv` | src/net.c:414-505 | bytes are taken from the front of the stream in order and all handed over; the rest stays |
| `Framing.ReadsAll` | src/net.c:446-504 | however the stream is cut, a reader that is not timed out gets the whole count |
| `Framing.ReadsNoMore` | src/net.c:446-504 | never more than the count or than there is |
| `Framing.ReadStops` | src/net.c:446-504 | exactly where reading first does not go on the call ends: -2 for an error of the read or of the wait, a short count for the end of the stream, a timeout or a transient error |
| `Framing.JsonWrite` | src/iperf_api.c:3008-3030 | success exactly if neither write's result is negative as an `int`; then the whole frame went out if and only if neither was stopped half way and the text is shorter than 2^32 bytes |
| `Framing.JsonRead` | src/iperf_api.c:3034-3092 | a document is returned only of a frame of an accepted length that is there whole, and is its text parsed, the bytes behind it staying; a length of zero or above the limit is taken from the wire alone and refused |
| `Framing.FrameRoundTrip` | src/iperf_api.c:3008-3092 | a framed tree is read back as itself if and only if it nests at most 1000 deep |
| `ControlHandlers.Session.Perform` | src/iperf_client_api.c:303-415 | whatever action the client, the server or another caller takes, the objects stay where a run of the protocol leads, each having read a prefix of what the other wrote; the client never fails |
| `ControlHandlers.Session.Choose` | src/iperf_server_api.c:629-1000 | until both are done one of the two sides can act, by one byte |
| `ControlHandlers.Session.Complete` | src/iperf_server_api.c:629-1000 | left to themselves from wherever they are, with no caller waiting that could end the test, both sides come to the end, hold each other's results and agree on the streams |
| `ControlInvariant.TermsCross` | src/iperf_api.c:2456-2461 | the document says `parallel`, `reverse`, `bidirectional` and `TOS` exactly as the client settled on them |
| `ControlInvariant.TermsAgree` | src/iperf_api.c:2456-2461 | the server waits for as many streams as the client connects, runs in the opposite direction, or both, and takes over its type of service |
| `ControlInvariant.TermsMissing` | src/iperf_api.c:2596-2601 | without these members the server expects one stream and receives |
| `ControlInvariant.FlagFalse` | src/iperf_util.c:452-461 | a flag is set by its member even if that is false: such a server sends |
| `ControlInvariant.LowerMeans` | src/cjson.c:139-160 | keys are compared but for the case of letters |
| `ControlInvariant.StateCrosses` | src/iperf_api.c:2067-2081 | a state is one byte on the wire, negative ones too, and is read as itself |
| `ControlInvariant.ClientAnswers` | src/iperf_client_api.c:319-415 | which states a client expects, what it answers to each, and that any other ends it |
| `ControlInvariant.ServerAnswers` | src/iperf_server_api.c:239-314 | the same for the server |
| `ControlInvariant.ServerLimits` | src/iperf_api.c:2543-2557 | a cookie has 37 bytes; parameters are refused if empty or above 8192 bytes |
| `ControlInvariant.TakesMessage` | src/iperf_api.c:2366-2425 | a complete read is exactly the next message the peer wrote |
| `ControlInvariant.ReadsDocument` | src/iperf_api.c:3034-3092 | a complete document is read as what was written |
| `ControlInvariant.ClientHears` | src/iperf_client_api.c:319-327 | a state byte read by the client is the state the server wrote next |
| `ControlInvariant.ServerHears` | src/iperf_server_api.c:248-262 | a state byte read by the server is the state the client wrote next |
| `ControlInvariant.NoStreamLate` | src/iperf_server_api.c:750-776 | a stream of the client's is in the queue only while streams are being created |
| `ControlInvariant.StepKeepsInv` | src/iperf_server_api.c:629-1000 | every step of either side, of any size, and every call by others keeps the invariant, unless it ends the test |
| `ControlInvariant.FatalStep` | src/iperf_server_api.c:779-794 | a caller that ends the test stops the server and changes nothing else |
| `ControlInvariant.RunInv` | src/iperf_server_api.c:629-1000 | the invariant holds in every run but for a server that was ended, which it was if and only if a step was fatal |
| `ControlTheorems.Synchronised` | src/iperf_api.c:2366-2425 | in every run each side has read a prefix of the messages the other wrote; the client never fails, and the server if and only if it accepted a caller that ends the test |
| `ControlTheorems.HalfDuplex` | src/iperf_api.c:2366-2425 | the two sides never have bytes to write at the same time |
| `ControlTheorems.NoDeadlock` | src/iperf_client_api.c:645-829 | with buffers of any size from one byte on, until both sides are done or the server was ended, one of them can take a step |
| `ControlTheorems.WorkShrinks` | src/iperf_client_api.c:645-829 | every step leaves less to do, a call by another client one more |
| `ControlTheorems.RunsAreBounded` | src/iperf_server_api.c:629-1000 | a run has no more steps than there was work, and two per call by another client |
| `ControlTheorems.TestEndOnce` | src/iperf_client_api.c:761-827 | TEST_END is written at most once, and before results are asked for |
| `ControlTheorems.Agreement` | src/iperf_server_api.c:629-1000 | when both are done, everything said was read: 9, 10, 1, 2, 13, results and 14 by the server, cookie, parameters, 4, results and 16 by the client; each side holds the other's results, the server runs in the opposite mode, and its k-th stream is the client's k-th |
| `ControlTheorems.DisturbanceChangesNothing` | src/iperf_server_api.c:215-230 | another client that does not end the test gets ACCESS_DENIED and changes nothing else |
| `ControlTheorems.OtherStepsSame` | src/iperf_server_api.c:629-1000 | every other step is the same with and without other clients |
| `ControlTheorems.OthersDoNotMatter` | src/iperf_server_api.c:629-1000 | whatever other clients did, as long as the server was not ended, the two sides are where a run without them leads |
| `ControlTheorems.QuietIsHarmless` | src/iperf_server_api.c:779-797 | without a type of service, on a system that reports closed descriptors, callers that do not break off end no test |
| `ControlTheorems.StrangerEndsTest` | src/iperf_server_api.c:779-797 | in any other test that creates streams, or if it breaks off, one caller is enough to end it |
| `ControlTheorems.Isolation` | src/iperf_server_api.c:779-797 | callers that do not break off can end no run if and only if there is no type of service and the system reports closed descriptors, or there are no streams |
| `StreamPairing.StreamList.AddStream` | src/iperf_api.c:5027-5052 | the stream is appended with the next identity of 1, 3, 4, 5, ... |
| `StreamPairing.StreamList.CreateStreams` | src/iperf_client_api.c:100-178 | n streams of one direction are appended |
| `StreamPairing.StreamList.CreateForMode` | src/iperf_client_api.c:341-351 | the client's streams in each mode, sending ones first |
| `StreamPairing.Acceptor.Accept` | src/iperf_server_api.c:872-899 | receiving streams are counted first, then sending ones; complete exactly when all are there |
| `StreamPairing.Pairing` | src/iperf_api.c:5027-5052 | the k-th streams of both sides have the same unique identity, 1, 3, 4, 5, ..., and opposite directions in every mode; in a bidirectional test the client sends on the first half |
| `ResultsExchange.Rows` | src/iperf_api.c:2770-2796 | one row for each stream with its own measurements |
| `ResultsExchange.Stream.GetRow` | src/iperf_api.c:2923-2970 | what a stream takes over from a row, as sender and as receiver, with and without omitted counts |
| `ResultsExchange.GetRows` | src/iperf_api.c:2882-2974 | every row goes to the first stream with its identity; success exactly if all rows are readable and known |
| `ResultsExchange.BadRowSkipped` | src/iperf_api.c:2904-2922 | a row that cannot be read, or is about no stream, changes nothing, and the rows behind it are read all the same |
| `ResultsExchange.WithoutOmitted` | src/iperf_api.c:2927-2962 | from a peer that does not count what it omits, a sender takes its own omitted packets and, if there are any, -1 for unknown errors; a receiver takes all packets for omitted |
| `ResultsExchange.EachItsOwn` | src/iperf_api.c:2882-2974 | with unique identities in order each stream gets its own row |
| `ResultsExchange.SentAfterReading` | src/iperf_api.c:2407-2425 | what the server sends after reading is unaltered if and only if the stream receives or the values agree; bytes and packets never change |
| `ResultsExchange.AlteredRow` | src/iperf_api.c:2921-2925 | for a sending stream the server reports the client's error count |
| `ResultsExchange.PairExchanged` | src/iperf_api.c:2407-2425 | both ends of a stream hold their peer's bytes, packets and duration, at the sending end its errors and jitter, at the receiving end what it sent again, or -1 if unknown, as measured before the exchange, and keep their own |
| `ResultsExchange.AllExchanged` | src/iperf_api.c:2407-2425 | the same for all streams, matched by identity |
| `ResultsExchange.Exchange` | src/iperf_api.c:2407-2425 | the same for all streams, with objects updated in place |
| `ResultsDocument.RowRoundTrip` | src/iperf_api.c:2776-2786 | a row that was written is read as that row |
| `ResultsDocument.RowLacking` | src/iperf_api.c:2885-2903 | a row that lacks a member is refused, one of the omitted counts included, unless it is one of the times: then there is no time |
| `ResultsDocument.OlderRow` | src/iperf_api.c:2885-2903 | a row without both omitted counts is read |
| `ResultsDocument.DocumentRoundTrip` | src/iperf_api.c:2815-2905 | a results document is read as its rows |
| `ResultsDocument.DocumentReadIff` | src/iperf_api.c:2852-2880 | a document is read if and only if it has a figure for each of the four members in front and an array of streams |
| `ResultsDocument.RowsCross` | src/iperf_api.c:2407-2425 | at the end of every run of the protocol each side has read the rows the other sent |
| `ResultsDocument.TestDelivers` | src/iperf_api.c:2407-2425 | from the first byte to the last: when both are done, the server's streams being those of the mode and number it took from the parameters, its k-th stream is the client's k-th connection, and with what they read both hold what the other measured and what they measured themselves |
| `DocumentSizes.ResultsFit` | src/iperf_api.c:2706-2810 | every results document for up to 800,000 streams, with up to fifty million bytes in front of them such as the server's output, is within what the other side reads |
| `DocumentSizes.ParamsFit` | src/iperf_api.c:2430-2540 | parameters with up to 7000 bytes besides the terms are within what the server reads |
| `DocumentSizes.RealTestsQualify` | src/iperf_api.c:2430-2810 | tests with such parameters and results meet the assumption of the protocol theorems |
| `DocumentSizes.TestsExist` | src/iperf_api.c:2706-2810 | there are such tests, with processor times and jitter that are no integers and results that the other side accepts |

## Left out

- Doubles: which text `sprintf` gives a double and which double `strtod` makes of a text is the C library's. A double is represented by its text of at most 25 bytes; infinities and NaN, which print as `null`, are not represented.
- The parser builds trees as values. The linking of nodes is modelled on its own in `JsonTree`, and the position reported after a parse error is not modelled.
- JsonTree.Node.Replace: the replaced item is detached; that it is then deleted is `JsonTree.Delete`.
- JsonPrint.PrintTree: the final trimming of the block to the text is not modelled.
- JsonPrint.PrintBuffer.PrintString: a NULL string, which prints as `""`, is not modelled.
- Raw JSON items, NULL strings, `cJSON_Minify`, `cJSON_Compare`, `cJSON_Duplicate` and the constructors of arrays of numbers.
- JSON input without a final NUL: iperf only calls `cJSON_Parse`.
- Sockets, threads, signals, clocks, files, authentication, SCTP and socket setup: their results are parameters or absent.
- Error paths of the control protocol: SERVER_ERROR, timeouts and closed connections. Runs are error-free but for callers from outside.
- ControlTheorems.OthersDoNotMatter: `accept` itself does not fail; if it does, in `iperf_accept` too, the server ends the test whatever its state.
- ControlTheorems.DisturbanceChangesNothing: `accept` itself does not fail.
- ControlTheorems.Isolation: `accept` itself does not fail.
- The protocol model connects streams over TCP, where the listener is shared. The handshake of UDP streams and the re-opening of the listener for special socket options are not modelled.
- ControlTheorems.Agreement: the other parameters (`get_parameters` reads about forty) are carried as an unread document; only the stream count, the direction and the type of service are interpreted, and only as integers.
- TimerPackage.TimerList.Run: timer intervals are not negative, and expiries stay inside the 32-bit range of seconds.
- TimerPackage.TimerList.RunResetting: callbacks reset active periodic timers other than their own; they do not create or cancel timers.
- UdpStream.Sender.Send: a datagram holds a whole header, 16 bytes, and a send that takes some of its bytes takes all its datagrams.
- UdpStream.Receiver.Receive: jitter is not modelled.
- Pacing.Pacer.SendMt: the branches that sleep are not modelled; counters do not wrap, and the rate and the quotient stay below 2^63. The quotient is exact; `Pacing.RoundedGreen` says what the rounding of doubles adds.
- Pacing.GreenMeans: the quotient is exact; once rate times microseconds passes 2^53 a double cannot tell "at the rate" from "one bit above".
- RateWindow.ExceedsMeans: the quotient is exact; a double may be off by its relative error, in `RateWindow.AgreesWithAverage` too.
- RateWindow.RateLimiter.CheckTotalRate: the window is at most as long as the array, which the argument parser does not establish; byte counters do not wrap.
- Statistics.Stream.CloseInterval: TCP_INFO and SCTP fields, retransmits and jitter are not modelled.
- GetOpt.Parser.GetoptLong: a caller that changes `optind` in the middle of a cluster is not considered in `GetOpt.Progress`; setting it to zero restarts the scan as in the code.
- Report printing, argument validation, getters and setters, `diskfile_send`, the Windows service and pthread shims: they would add easy members.

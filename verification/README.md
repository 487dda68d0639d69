# A verified model of the chat server's core logic

The project models, in Dafny, the parts of the backend whose correctness is decided by the code itself, and
proves what they promise for every input, every run and every interleaving.

- **Calendar and recurrence** (`Calendar`, `Text`, `Iso8601`, `Recurrence`, `EventSeries`, `WeekWalk`,
  `PlainExpansion`, `WeeklyExpansion`, `RRuleParser`, `CalendarHandler`): civil dates as day numbers built
  from the month-length table, `timegm`/`gmtime_r` as that function and its inverse, the text forms, the
  RRULE parser, both expansion loops, and the exception merge of the list-events route. What an event
  means is a `Series`: an ascending sequence of base dates, a listing predicate, UNTIL and COUNT. The loops
  are proved to return exactly that meaning, and the meaning is proved additive over display windows.
- **Byte codecs and parsers** (`Radix`, `Base64Url`, `Base32`, `Cbor`, `AuthData`, `Bytes`, `Zip`):
  base64url (RFC 4648 section 5) and base32 (section 6) as one change of base over an accumulator that is
  never masked, the CBOR reader (RFC 8949 section 3), COSE keys (RFC 9053 section 7.1.1), authenticator
  data (WebAuthn Level 2 sections 6.1 and 6.5.1), and the ZIP writer (APPNOTE sections 4.3.7, 4.3.12 and
  4.3.16) against an independent reader.
- **LLM stream reassembly** (`LlmStream`, `Sse`): line buffer, tool-call accumulator and end-of-stream callbacks.
- **Rate limiting** (`RateLimiting`): lazily refilled token buckets with eviction against an ideal limiter
  that never forgets.
- **Chunked uploads** (`Upload`): any number of instances stepping one shared session table.
- **File tree and versions** (`FileTree`, `FileRequests`, `FolderSizes`, `Versions`): recursive queries, soft and
  hard deletion, moves, requests that check in one transaction and act in another, folder sizes, version
  rows and the purge of old versions.
- **Connection pool** (`Pooling`): the queue, the condition variable and the RAII handles as an
  interleaved step system, beside the objects themselves.

Code that changes state is modelled by methods and classes that are proved against specification functions;
the theorems are about those functions.

Where the code and what is said about it differ, the model follows the code, and these are stated as theorems:

- The weekly loop returns from inside the loop over days, so it is exact on all events and windows if and
  only if BYDAY is listed from Monday on (`WeeklyExpansion.MondayFirstIsNeeded`).
- Windows add up if and only if the two parts together stay within 1000 results
  (`EventSeries.Series.RangeAdditivity`).
- The ISO text restores a time if and only if its year has at most four characters
  (`Iso8601.FormatParseRoundTrip`); the end of an occurrence is subject to the same limit
  (`CalendarHandler.DurationKept`).
- Below 4 GiB an archive reads back if and only if it holds fewer than 65536 files with names shorter than
  65536 bytes, each below 4 GiB before compression (`Zip.ReadBackExact`). The size called approximate in the code is exact (`Zip.ArchiveLength`).
- Stream content behind `[DONE]` is dropped or processed depending on how the bytes were cut. Cutting does
  not matter if and only if the lines behind the first `[DONE]` are silent (`LlmStream.CutsAgreeExactly`).
- A refund restarts the refill clock without crediting the time passed, so a late refund makes eviction
  visible (`RateLimiting.RefundUncoversEviction`); the exact condition is that it finds its bucket or fills
  it (`RateLimiting.EvictionUnobservable`).
- An exception row can match two occurrences, but only where BYDAY repeats a day
  (`CalendarHandler.ExceptionHitsOneExactly`).
- Completing a chunked upload checks its parent folder no more: the file goes live below a folder deleted
  meanwhile, and a later soft delete of a folder around it misses it (`FileRequests.LateUploadEscapes`).
- A move's check and its update are separate transactions: two moves at a time can close a cycle
  (`FileRequests.OverlappingMovesCloseCycle`). When exactly either happens is `FileRequests.ReachableExactly`.
- A comment in `release` expects a later release to repair a lost slot. No release does: the number of lost
  slots is the number of failed replacements, for ever, and `size_in_use` counts them as checked out
  (`Pooling.ReachableIsSound`); a pool that has lost all of them serves nobody again
  (`Pooling.AllLostIsFinal`).
- An override without a start time of its own shows the master event's start, not the occurrence's
  (`CalendarHandler.ApplyExceptions`).

## Model

| member | source | states |
|---|---|---|
| `Calendar.MonthLengths` | backend/src/recurrence.cpp:177-185 | every month is as long as the way to the first of the next one in a closed form of the calendar by divisions, leap years included |
| `Calendar.TmBeforeIsTotalOrder` | backend/src/recurrence.cpp:67-83 | the field-by-field comparison is a strict total order |
| `Calendar.TwelveMonthsMakeAYear` | backend/src/recurrence.cpp:177-185 | the twelve lengths add up to 366 days in years divisible by 400, or by 4 and not by 100, and to 365 in all others |
| `Calendar.DayNumberClosed` | backend/src/recurrence.cpp:56-65 | the day number of every civil date is the closed form 365y + y/4 - y/100 + y/400 + (153m + 2)/5 + d - 1 - 719468 with years counted from March |
| `Calendar.WeekdaysRun` | backend/src/recurrence.cpp:282-306 | weekdays follow each other, and 1 January 2000 was a Saturday |
| `Calendar.GmTimeInverse` | backend/src/recurrence.cpp:56-65 | breaking any instant into fields and converting back gives the instant; day number and second of day are its quotient and remainder by 86400 |
| `Calendar.TimeGmInverse` | backend/src/recurrence.cpp:56-65 | converting valid fields to an instant and back restores all six fields |
| `Calendar.TmOrderIsTimeOrder` | backend/src/recurrence.cpp:67-83 | comparing fields is comparing instants, both ways, and equal instants have equal fields |
| `Calendar.AddDaysFields` | backend/src/recurrence.cpp:188-221 | shifting by whole days moves the day number by exactly that many and keeps the time of day |
| `Text.SafeStoiPrintf` | backend/src/recurrence.cpp:13-21 | a number printed with any zero padding is read back unchanged when it fits an int |
| `Iso8601.FormatParseRoundTrip` | backend/src/recurrence.cpp:23-54 | format then parse restores a valid time if and only if its year is between -999 and 9999 |
| `Iso8601.FormatExample` | backend/src/recurrence.cpp:41-54 | the form is that of ISO 8601, down to its separators |
| `Iso8601.OtherFormsRead` | backend/src/recurrence.cpp:23-39 | a text with the fields at the same places reads the same, whatever stands between and behind them; a date alone is the start of its day |
| `Iso8601.TextOrderIsTimeOrder` | backend/src/recurrence.cpp:41-74 | for years 0 to 9999 the lexicographic order of the texts is the order of the times |
| `RRuleParser.ComputeSplit` | backend/src/recurrence.cpp:96-104 | the splitting loop returns the non-empty pieces between delimiters |
| `RRuleParser.SplitJoined` | backend/src/recurrence.cpp:96-104 | splitting what was joined returns the pieces, in order |
| `RRuleParser.ParseRRule` | backend/src/recurrence.cpp:106-174 | the parsing loop computes the rule that folding the parts from the defaults means |
| `RRuleParser.ParsedWellFormed` | backend/src/recurrence.cpp:106-174 | for every text whatsoever: interval at least 1, count not negative, months in 1..12, no month day zero |
| `RRuleParser.ParsedWritten` | backend/src/recurrence.cpp:106-174 | a rule written out in RRULE syntax is parsed back to the same rule, field by field, list order included |
| `RRuleParser.PrefixedReads` | backend/src/recurrence.cpp:110-112 | so is one with the RRULE: prefix |
| `RRuleParser.UntilDateAlone` | backend/src/recurrence.cpp:136-148 | an UNTIL that is a date alone means the last second of that day |
| `RRuleParser.OrdinalIgnored` | backend/src/recurrence.cpp:149-158 | an ordinal in front of a day is read and ignored |
| `Recurrence.VisitOrder` | backend/src/recurrence.cpp:188-221 | base date k lies at least k - j days after base date j, for every frequency and interval |
| `Recurrence.SeriesAscends` | backend/src/recurrence.cpp:341-368 | every parsed rule gives valid base dates that start at dtstart and strictly ascend |
| `PlainExpansion.Advance` | backend/src/recurrence.cpp:188-221 | the in-place edit with month carry and clamping computes the stepped date |
| `PlainExpansion.NoDrift` | backend/src/recurrence.cpp:341-368 | after k turns of advance, restore and clamp the loop stands exactly k intervals from dtstart, on dtstart's day or the month's last |
| `PlainExpansion.ComputeMatches` | backend/src/recurrence.cpp:224-269 | the three filter scans decide exactly membership in BYMONTH, BYMONTHDAY (from either end) and BYDAY |
| `Recurrence.MonthDayMeans` | backend/src/recurrence.cpp:231-249 | day d of the month for positive d, and for negative d the day that lies -d days before the first of the next month |
| `PlainExpansion.ExpandPlain` | backend/src/recurrence.cpp:340-370 | the second loop ends for every rule and window and returns the rule's meaning over the window |
| `EventSeries.Series.BeyondHorizon` | backend/src/recurrence.cpp:341-368 | past the horizon no base date is before the window's end, which is why the loop ends even when nothing matches |
| `EventSeries.Series.StopIsFinal` | backend/src/recurrence.cpp:341-368 | once UNTIL, COUNT or the window's end stops the loop, no later base date belongs to the result |
| `EventSeries.Series.StoppedExpansion` | backend/src/recurrence.cpp:341-368 | what has been collected at such a stop is the whole expansion |
| `EventSeries.Series.FullExpansion` | backend/src/recurrence.cpp:271-371 | what has been collected when the cap is reached is the whole expansion |
| `EventSeries.Series.ExpansionExact` | backend/src/recurrence.cpp:271-371 | results strictly ascend and are exactly the listed dates not after UNTIL, with fewer than COUNT listed dates before them, in [from, to), or the first 1000 of these |
| `EventSeries.Series.SelectWithinCount` | backend/src/recurrence.cpp:341-368 | no window ever shows more occurrences than COUNT |
| `EventSeries.Series.RangeAdditivity` | backend/src/recurrence.cpp:271-371 | expanding [a,c) is expanding [a,b) and then [b,c), if and only if the parts together have at most 1000 results |
| `EventSeries.Series.RangeAdditivityBelowCap` | backend/src/recurrence.cpp:271-371 | in particular whenever [a,c) has fewer than 1000 results |
| `WeekWalk.Walk.HaltsByBound` | backend/src/recurrence.cpp:282-338 | the weekly scan stops within a bound set by dtstart and the window's end, for days in any order |
| `WeekWalk.Walk.InStep` | backend/src/recurrence.cpp:282-338 | candidate by candidate, the scan's count and results are those of the ascending day series |
| `WeekWalk.Walk.FollowsExactly` | backend/src/recurrence.cpp:282-338 | a scan whose candidates are exactly the listed days in ascending order returns the series' expansion |
| `WeeklyExpansion.ListedIsCandidate` | backend/src/recurrence.cpp:282-338 | every listed weekday of every interval-th Monday-based week from dtstart's is visited by the nested loops |
| `WeeklyExpansion.CandidateIsListed` | backend/src/recurrence.cpp:282-338 | and the loops visit no other day on or after dtstart |
| `WeeklyExpansion.ExpandWeekly` | backend/src/recurrence.cpp:282-338 | the nested loops end for every list of days and return the scan's outcome |
| `WeeklyExpansion.WeeklyExact` | backend/src/recurrence.cpp:282-338 | with BYDAY Monday-first the outcome is the rule's meaning, cut by UNTIL, COUNT, window and cap |
| `WeeklyExpansion.MondayFirstIsNeeded` | backend/src/recurrence.cpp:282-338 | the loops are exact on all events and windows if and only if BYDAY is Monday-first without repeats |
| `CalendarHandler.ExpandRRule` | backend/src/recurrence.cpp:271-371 | whichever loop runs, the texts returned are those of the specified start times, for every range text |
| `CalendarHandler.ExpandedIsExpansion` | backend/src/recurrence.cpp:271-371 | except for unordered BYDAY lists, both loops return the one meaning of the rule |
| `CalendarHandler.ExpandedAdditive` | backend/src/recurrence.cpp:271-371 | additivity over windows for the function as a whole, with its exact condition |
| `CalendarHandler.OccurrencesReadBack` | backend/src/handlers/calendar_handler.cpp:121-163 | every occurrence text the route parses again reads back as the time it was written from |
| `CalendarHandler.ApplyExceptions` | backend/src/handlers/calendar_handler.cpp:121-149 | the scan with its flags and break applies the first matching row only: deleted, or overridden field by field |
| `CalendarHandler.ListRecurring` | backend/src/handlers/calendar_handler.cpp:113-173 | for every rule text the loop ends, and lists one entry per occurrence that is not deleted, in order |
| `CalendarHandler.EntryShows` | backend/src/handlers/calendar_handler.cpp:121-166 | what is listed for one occurrence, field by field: nothing, the first exception's values and the master event's where it states none, or the master event at the occurrence's time |
| `CalendarHandler.SameMinuteIsMinute` | backend/src/handlers/calendar_handler.cpp:130-133 | an exception and an occurrence match exactly when they fall in one minute |
| `CalendarHandler.DurationKept` | backend/src/handlers/calendar_handler.cpp:153-163 | an occurrence ends exactly the master event's duration after its start, and its end text says so if and only if the end's year fits the text |
| `CalendarHandler.ExceptionHitsOne` | backend/src/handlers/calendar_handler.cpp:127-149 | unless BYDAY repeats a day, an exception row matches at most one occurrence of any expansion |
| `CalendarHandler.ExceptionHitsOneExactly` | backend/src/handlers/calendar_handler.cpp:127-149 | a weekly rule with BYDAY keeps that promise on all events and windows if and only if no day is repeated |
| `Radix.RoundTrip` | backend/src/auth/webauthn.cpp:31-79 | regrouping bytes into groups of 1 to 8 bits and back is the identity |
| `Radix.Feed` | backend/src/auth/webauthn.cpp:31-79 | shifting bits into the never-masked 32-bit accumulator keeps the number read: only the low bits matter |
| `Radix.Emit` | backend/src/auth/webauthn.cpp:57-64 | taking a group out leaves digits and remaining bits that still make up the number read |
| `Base64Url.EncodeBase64Url` | backend/src/auth/webauthn.cpp:51-79 | the encoder's loops write the 6-bit groups of the input in the URL-safe alphabet without padding |
| `Base64Url.DecodeBase64Url` | backend/src/auth/webauthn.cpp:31-49 | the decoder returns the whole bytes of the alphabet characters, leftover bits dropped |
| `Base64Url.EncodeThenDecode` | backend/src/auth/webauthn.cpp:31-79 | decode after encode returns every byte string, and the text has no plus, slash or padding |
| `Base64Url.DecodingSeesAlphabetOnly` | backend/src/auth/webauthn.cpp:31-49 | characters outside the alphabet do not influence decoding |
| `Base64Url.AlphabetIs` | backend/src/auth/webauthn.cpp:20-29 | the alphabet is that of section 5 of RFC 4648; the plus and slash of section 4 are read too, padding and line breaks are not characters |
| `Base32.EncodeBase32` | backend/src/auth/totp.cpp:15-32 | the loop with its wrapping signed accumulator writes the 5-bit groups of the input |
| `Base32.DecodeBase32` | backend/src/auth/totp.cpp:34-60 | the decoder returns the whole bytes of the alphabet characters in either case |
| `Base32.EncodeThenDecode` | backend/src/auth/totp.cpp:15-60 | decode after encode returns every byte string |
| `Base32.DecodingSeesAlphabetOnly` | backend/src/auth/totp.cpp:34-60 | case, spaces and any other character do not influence decoding |
| `Cbor.CborReader.ReadAdditional` | backend/src/auth/webauthn.cpp:125-144 | the argument widths and the errors of the reader, with the position they leave |
| `Cbor.CborReader.ReadInt` | backend/src/auth/webauthn.cpp:147-155 | reads the integer at the position and moves behind it, or fails as specified |
| `Cbor.CborReader.ReadBstr` | backend/src/auth/webauthn.cpp:158-171 | reads the byte string at the position and moves behind it, or fails as specified |
| `Cbor.CborReader.ReadMapHeader` | backend/src/auth/webauthn.cpp:174-182 | reads the entry count of the map at the position, or fails as specified |
| `Cbor.CborReader.Skip` | backend/src/auth/webauthn.cpp:185-211 | ends on the bytes that remain, never leaves the data, and moves as the specification says |
| `Cbor.HeadInverse` | backend/src/auth/webauthn.cpp:125-144 | every major type with an argument in any supported width is read back |
| `Cbor.SkipInverse` | backend/src/auth/webauthn.cpp:185-211 | on any encoded item, nested to any depth and anywhere in the data, skip lands exactly behind it |
| `Cbor.SkipSound` | backend/src/auth/webauthn.cpp:185-211 | conversely, a skip that succeeds has passed over the encoding of some item |
| `AuthData.ParseCoseEcKey` | backend/src/auth/webauthn.cpp:220-249 | the parsing loop computes the key its specification reads, or its error |
| `AuthData.KeyInverse` | backend/src/auth/webauthn.cpp:220-249 | an encoded key is read entry by entry whatever bytes follow it |
| `AuthData.KeyRecovered` | backend/src/auth/webauthn.cpp:220-249 | kty, alg, crv, x and y come back from any entry order, any widths, any further entries and trailing bytes; a missing label leaves 0 or nothing |
| `AuthData.ParseAuthData` | backend/src/auth/webauthn.cpp:263-319 | the parser computes the fields its specification reads, or its errors |
| `AuthData.AssertionRecovered` | backend/src/auth/webauthn.cpp:263-319 | with flags whose bit 0x40 is not set, an assertion's hash, flags and counter are recovered, and nothing else is read |
| `AuthData.RegistrationRecovered` | backend/src/auth/webauthn.cpp:263-319 | with bit 0x40 set, a registration is accepted if and only if its key is an ES256 key with coordinates of 32 bytes, and then its credential id, decoded again, and its public key are recovered, with any other flags and extensions |
| `AuthData.ShortIsRefused` | backend/src/auth/webauthn.cpp:263-290 | data that end before the credential id does are refused |
| `Zip.Output.Put16` | backend/src/zip_builder.h:83-86 | appends the low 16 bits, low byte first |
| `Zip.Output.Put32` | backend/src/zip_builder.h:87-92 | appends the low 32 bits, low byte first |
| `Zip.Output.WriteLocalHeader` | backend/src/zip_builder.h:94-107 | appends the local header record and nothing else |
| `Zip.Output.WriteCentralHeader` | backend/src/zip_builder.h:109-128 | appends the directory record with the local offset |
| `Zip.Output.WriteEnd` | backend/src/zip_builder.h:130-139 | appends the end record |
| `Zip.ZipBuilder.AddFile` | backend/src/zip_builder.h:14-38 | appends one entry with sizes cut to 32 bits and keeps the earlier ones |
| `Zip.ZipBuilder.Build` | backend/src/zip_builder.h:41-69 | the two loops write the archive, of exactly the reserved length |
| `Zip.ArchiveLength` | backend/src/zip_builder.h:43-49 | the reserved size is the archive's length exactly |
| `Zip.ReadBackExact` | backend/src/zip_builder.h:14-139 | an archive below 4 GiB reads back, from its last 22 bytes and by a reader of version 2.0 that refuses encrypted members, unknown flags and further disks, as the added files in order with name, checksum, sizes and compressed bytes, if and only if there are fewer than 65536 of them, with names shorter than 65536 bytes, each smaller than 4 GiB before compression |
| `LlmStream.Receiver.Receive` | backend/src/ai/llm_client.cpp:213-362 | one chunk processes the complete lines of buffer and chunk and keeps the rest; it stops the transfer only on an API error |
| `LlmStream.Receiver.AddOne` | backend/src/ai/llm_client.cpp:323-357 | one fragment updates its own index: id and name replaced when present, arguments appended |
| `LlmStream.Receiver.AfterStream` | backend/src/ai/llm_client.cpp:364-393 | transport error, HTTP error and normal end make the callbacks the specification says |
| `LlmStream.ChatCompletion` | backend/src/ai/llm_client.cpp:207-393 | the callbacks of a whole call |
| `LlmStream.SplittingDoesNotMatter` | backend/src/ai/llm_client.cpp:212-362 | for every way of cutting the bytes, the callbacks up to the first line that ends the call are those of the uncut stream, and without one the buffers agree |
| `LlmStream.DrainIsLineByLine` | backend/src/ai/llm_client.cpp:216-259 | draining a buffer is processing its complete lines one by one |
| `LlmStream.LinesLoseNothing` | backend/src/ai/llm_client.cpp:216-220 | complete lines and the trailing partial line make up the stream, and none of them holds a newline |
| `LlmStream.ReceiverIsLineByLine` | backend/src/ai/llm_client.cpp:212-362 | for every cut the receiver equals line-by-line processing up to the first line that ends the call; behind a [DONE] it goes on to the end or stops at a further [DONE]; with no such line the buffer is exactly the trailing partial line |
| `LlmStream.CutsAgreeExactly` | backend/src/ai/llm_client.cpp:207-393 | all ways of cutting a stream make the same callbacks over the whole call, a stopped request failing, if and only if the complete lines behind its first [DONE] are silent: no content, no API error that is reported, no tool call that a finish or the end would hand over |
| `LlmStream.UsualEndAgrees` | backend/src/ai/llm_client.cpp:227-253 | with only blank lines, comments, other fields and further [DONE]s behind the first, cutting never matters |
| `LlmStream.BehindDoneItMatters` | backend/src/ai/llm_client.cpp:240-253 | a concrete pair of cuts that differ: a content line behind [DONE] is dropped in the same chunk and processed in a later one |
| `LlmStream.AccumAssembles` | backend/src/ai/llm_client.cpp:321-358 | for any interleaving, each index holds the concatenation of its own fragments in arrival order |
| `LlmStream.CallsAssembled` | backend/src/ai/llm_client.cpp:242-247 | each index is handed over exactly once, in ascending order, complete |
| `LlmStream.AnswerDelivered` | backend/src/ai/llm_client.cpp:207-393 | over a whole call and for every cut, an answer with silent lines behind its finish delivers its content in order, then each index exactly once, ascending, assembled from all its fragments, then the end |
| `Sse.PayloadExactly` | backend/src/ai/llm_client.cpp:222-237 | a line carries a payload if and only if it starts with "data: ", and the payload is the rest without one carriage return at its end |
| `Sse.AnswerFromPayloads` | backend/src/ai/llm_client.cpp:207-393 | an answer written as server-sent events from a list of payloads, with LF or CR LF and with blank lines, comments and other fields between, delivers for every cut the content, each tool call once, assembled, and the end |
| `Sse.ErrorFromPayloads` | backend/src/ai/llm_client.cpp:264-276 | an API error delivers the content before it and its message, and stops the request |
| `LlmStream.OnDoneFiresOnce` | backend/src/ai/llm_client.cpp:207-393 | on_done fires at most once in every run, and exactly once when it is installed, the status is 200 and the receiver did not stop the request |
| `RateLimiting.RateLimiter.Allow` | backend/src/rate_limit.h:35-66 | the new buckets, the decision and the retry estimate are the specified ones |
| `RateLimiting.RateLimiter.Refund` | backend/src/rate_limit.h:71-77 | a known key gains one token up to the burst; an unknown key changes nothing |
| `RateLimiting.RateLimiter.EvictIdle` | backend/src/rate_limit.h:81-91 | the erasing loop removes exactly the buckets that are full by now |
| `RateLimiting.EvictionUnobservable` | backend/src/rate_limit.h:35-91 | for all keys, times, sweeps and refunds, the limiter agrees after every step with one that never forgets if and only if every refund fits: it finds its bucket, or one more token fills it; then all answers and estimates are the same |
| `RateLimiting.PromptRefundsUnobservable` | backend/src/rate_limit.h:35-91 | so it is, from an empty limiter, when each refund comes within the refill time of one token after its admission, with no other call of the key in between |
| `RateLimiting.EvictionUnobservableWithoutRefunds` | backend/src/rate_limit.h:35-91 | and in every run without refunds, with no condition left |
| `RateLimiting.RefundUncoversEviction` | backend/src/rate_limit.h:71-77 | a late refund does show: a run from an empty limiter with two different outcomes |
| `RateLimiting.ChargesArePaid` | backend/src/rate_limit.h:35-77 | in every run what a key is charged is covered by its level plus what refills |
| `RateLimiting.WindowBound` | backend/src/rate_limit.h:35-77 | in every span of every run, admissions less refunds of a key are at most burst + refill * elapsed seconds, and every bucket stays between 0 and burst |
| `RateLimiting.TwiceTheAttempts` | backend/src/handlers/auth_handler.cpp:61-65 | under the login settings, with all callers sharing the limiter and whatever the others do, a key that is not refunded is admitted at most twice max_attempts times in one window |
| `RateLimiting.RetryIsExact` | backend/src/rate_limit.h:58-65 | after every run of other keys' calls and sweeps, a denied caller who next calls after d milliseconds is admitted if and only if burst is at least 1 and d reaches the estimate |
| `Upload.ComputeTokensToJson` | backend/src/upload_manager.cpp:9-20 | the loop writes each token under its index as text, none lost |
| `Upload.JsonRoundTrip` | backend/src/upload_manager.cpp:9-34 | the staging state survives the trip through its database column |
| `Upload.UploadDatabase.RecordUploadChunk` | backend/src/db/database.cpp:4557-4581 | one UPDATE adds the index once and sets just its token; the count, or -1 when the session is gone |
| `Upload.UploadDatabase.ReapStaleUploadSessions` | backend/src/db/database.cpp:4590-4605 | a session stays, unchanged, if and only if it is not older than the limit; the states of the others are returned |
| `Upload.UploadManager.CreateSession` | backend/src/upload_manager.cpp:50-82 | the new row is stored unless its id is in use, and of the other sessions exactly those of the last hour stay, unchanged |
| `Upload.UploadManager.StoreChunkErr` | backend/src/upload_manager.cpp:101-121 | stores a chunk that the backend accepts, and otherwise reports the error and changes nothing |
| `Upload.StoreChunkRefines` | backend/src/upload_manager.cpp:101-121 | a worker of the step system that nobody interrupts does to the table what that method promises |
| `Upload.ReachableIsSound` | backend/src/upload_manager.cpp:101-163 | in every interleaving, received indices are distinct, in range and exactly the keys of part_tokens |
| `Upload.RemovedStaysRemoved` | backend/src/upload_manager.cpp:143-163 | a removed or reaped session never reappears, whatever late requests are on their way |
| `Upload.LiveSessionStays` | backend/src/upload_manager.cpp:143-163 | in every interleaving, a session that is not removed and is young enough at every reap is still there with all its chunks |
| `Upload.RecordsCommute` | backend/src/db/database.cpp:4561-4577 | chunks of different indices commute, so no instance overwrites another's token; a chunk stored again after others counts once and has its last token |
| `Upload.CompleteExactly` | backend/src/upload_manager.cpp:131-135 | is_complete holds if and only if every chunk has been received |
| `Upload.CompleteHasEveryToken` | backend/src/upload_manager.cpp:131-141 | once is_complete holds, every state loaded later while the session lives has a token for every chunk |
| `FileTree.RecursiveQuery` | backend/src/db/database.cpp:3788-3803 | the rounds of the recursive query end and list every descendant once, level by level |
| `FileTree.SoftDeleteMarks` | backend/src/db/database.cpp:3766-3782 | soft deletion marks the target and live descendants only, and all of them if and only if none sits behind a deleted node, as is always so where live nodes have live parents |
| `FileTree.FileTable.SoftDeleteSpaceFile` | backend/src/db/database.cpp:3766-3782 | marks what the recursive query reaches, on any tree without cycles |
| `FileTree.FileTable.HardDeleteSpaceFile` | backend/src/db/database.cpp:3784-3837 | removes exactly the target and everything below it; no row goes while another names it as its parent |
| `FileTree.FileTable.GetSpaceFilePath` | backend/src/db/database.cpp:3918-3939 | the walk up the parents ends and lists exactly the nodes that the given one lies at or under, root first |
| `FileTree.FileTable.CheckMove` | backend/src/handlers/space_file_handler.cpp:1611-1699 | the route's checks accept exactly the moves of a live node onto a live folder that does not lie at or below a moved folder |
| `FileTree.FileTable.MoveSpaceFile` | backend/src/db/database.cpp:3755-3764 | the update moves the row without a check; a parent that is gone is refused |
| `FileTree.MoveExactly` | backend/src/db/database.cpp:3755-3764 | a move keeps a tree of folders and files if and only if its target is a folder not at or below the node, and live nodes below live nodes if and only if, besides, a live node gets a live parent |
| `FileTree.FileTable.CreateSpaceNode` | backend/src/db/database.cpp:3536-3628 | the insert makes no check of its own; a parent that is gone is refused |
| `FileTree.CreateExactly` | backend/src/db/database.cpp:3536-3628 | a new node keeps a tree of folders and files if and only if its parent is a folder, and live nodes below live nodes if and only if that folder is live |
| `FileTree.ChildBehindParent` | backend/src/db/database.cpp:3826-3829 | in the query's order every child stands behind its parent, so the reverse deletes children first |
| `FileTree.LiveAncestors` | backend/src/db/database.cpp:3766-3782 | where live nodes have live parents, a live node has only live ancestors, at every distance |
| `FileRequests.ReachableExactly` | backend/src/db/database.cpp:3536-3837 | from an empty table, in every interleaving of checks, inserts, moves and deletions, late upload completions included: the rows stay a tree of folders and files throughout if and only if no move is applied onto a node that has come to lie at or below the moved one, and live nodes stay below live nodes throughout if and only if, besides, nothing live is put below a folder deleted since its check |
| `FileRequests.SerialKeeps` | backend/src/handlers/space_file_handler.cpp:1611-1713 | requests that act directly behind their check keep all of it |
| `FileRequests.MovesApartIsSound` | backend/src/handlers/space_file_handler.cpp:1611-1713 | the rows stay a tree whatever is interleaved, as long as no move is applied between another one's check and its update |
| `FileRequests.LateUploadEscapes` | backend/src/handlers/space_file_handler.cpp:857-907 | an upload checked before its folder is soft-deleted and completed afterwards leaves a live file below a deleted folder, which a later soft delete further up does not mark |
| `FileRequests.OverlappingMovesCloseCycle` | backend/src/handlers/space_file_handler.cpp:1611-1713 | two moves that both check before either is applied close a cycle |
| `FolderSizes.ListedSizeAdds` | backend/src/db/database.cpp:3630-3678 | a folder's listed size is the sum over its live child files plus its live child folders' listed sizes |
| `FolderSizes.CreatedSizeAdds` | backend/src/db/database.cpp:3630-3678 | a new file adds its size to what is listed for its folder and every folder that one lies in by a live path, and to no other |
| `Versions.VersionTables.NextNumber` | backend/src/db/database.cpp:4089-4092 | one more than the highest number of the file, or 1 |
| `Versions.VersionTables.CreateSpaceFolder` | backend/src/db/database.cpp:3536-3570 | a folder row without versions, with the tables still in agreement |
| `Versions.VersionTables.CreateSpaceFile` | backend/src/db/database.cpp:3572-3628 | one file row and its version 1, with the tables still in agreement |
| `Versions.VersionTables.CreateFileVersion` | backend/src/db/database.cpp:4081-4122 | the new version is the file's newest and the row repeats it; without a file row nothing changes |
| `Versions.VersionTables.DeleteOldestFileVersions` | backend/src/db/database.cpp:4182-4201 | the loop deletes exactly the shortest oldest-first prefix of the candidates whose sizes reach the target, or all |
| `Versions.VersionTables.OldVersions` | backend/src/db/database.cpp:4186-4193 | the candidates are exactly the space's versions below their file's highest, by age |
| `Versions.NewestStays` | backend/src/db/database.cpp:4182-4201 | the purge never removes a file's highest version |
| `Versions.KeptWhenEnough` | backend/src/db/database.cpp:4193-4199 | a candidate stays only if what was deleted reaches the target, and would not without its last deletion; then everything deleted is at least as old |
| `Versions.OtherSpacesStay` | backend/src/db/database.cpp:4186-4193 | versions of files in other spaces are not purged, and no file row changes |
| `Versions.TotalSizeAdds` | backend/src/db/database.cpp:4194-4199 | what counts as freed is the sum of the stored sizes of the deleted versions |
| `Versions.NothingToFree` | backend/src/db/database.cpp:4194-4199 | with nothing to free nothing is deleted |
| `Versions.ReachableIsSound` | backend/src/db/database.cpp:3572-4201 | from empty tables, through every run numbers are unique per file and each file row repeats its highest version |
| `Versions.NumbersNeverReused` | backend/src/db/database.cpp:4081-4122 | a later version of a file has a higher number than any it ever had, purges in between included |
| `Pooling.StepConserves` | backend/src/db/connection_pool.cpp:62-117 | each step keeps idle + on their way + held + lost equal to the pool size |
| `Pooling.StepKeepsWakeUps` | backend/src/db/connection_pool.cpp:62-117 | while somebody sleeps, at least as many threads are about to test the queue as connections are idle |
| `Pooling.StepKeepsDistinct` | backend/src/db/connection_pool.cpp:9-117 | no connection is ever in two places |
| `Pooling.BrokenNeverReturns` | backend/src/db/connection_pool.cpp:80-106 | a connection once found broken is never idle, on its way or held again |
| `Pooling.TestMeans` | backend/src/db/connection_pool.cpp:62-77 | a waiter takes a connection if there is one, even after its deadline, and otherwise gives up if and only if the deadline has passed |
| `Pooling.DeadlineNeedsExpire` | backend/src/db/connection_pool.cpp:62-74 | without a limit, or before its deadline passes, no waiter is ever told that it timed out |
| `Pooling.StepKeepsReleasedOnce` | backend/src/db/connection_pool.cpp:9-38 | through construction, moves and destruction every checkout is released at most once and never while held |
| `Pooling.StepKeepsAccount` | backend/src/db/connection_pool.cpp:9-38 | and none is forgotten: checkouts made are those released plus those held |
| `Pooling.ReachableIsSound` | backend/src/db/connection_pool.cpp:9-129 | in every interleaving from a new pool all of these hold; idle, moving and held slots are the pool size less the failed replacements so far; when all inside acquire sleep nothing is idle; size_in_use is the number checked out if and only if no slot is on its way or lost |
| `Pooling.AllLostIsFinal` | backend/src/db/connection_pool.cpp:99-117 | a pool that has lost every slot stays empty |
| `Pooling.ConnectionPool.Acquire` | backend/src/db/connection_pool.cpp:76-96 | the front of the queue, replaced if broken, leaves in a handle; if that fails no handle is made and one more connection may fill the slot |
| `Pooling.AcquireRefines` | backend/src/db/connection_pool.cpp:62-97 | the step system's test, validation and repair leave handles and queue as that method promises |
| `Pooling.ConnectionPool.Release` | backend/src/db/connection_pool.cpp:99-117 | an open connection, or its replacement if one can be made, goes to the end of the queue |
| `Pooling.PooledConnection.MoveFrom` | backend/src/db/connection_pool.cpp:19-22 | the connection moves over and the source is left empty |
| `Pooling.PooledConnection.MoveAssign` | backend/src/db/connection_pool.cpp:24-38 | what the target held is released once, what the source held moves over, self-assignment changes nothing |
| `Pooling.PooledConnection.Destroy` | backend/src/db/connection_pool.cpp:9-17 | a held connection is released once, an empty handle releases nothing |
| `Pooling.MoveAssignRefines` | backend/src/db/connection_pool.cpp:24-38 | the step system's move assignment, run with its release, leaves handles and queue as the object's method promises and logs the overwritten checkout once |
| `Pooling.DestroyRefines` | backend/src/db/connection_pool.cpp:9-17 | and so does its destructor |

## Left out

- HTTP routing, WebSocket delivery, logging, metrics, permissions, RSVP lookups and the front end: I/O
  without an invariant of their own.
- Database failures, and transactions that interleave inside themselves: each SQL statement of the upload
  code and each transaction of the file and version code is one atomic step.
- JSON: what a payload parses to is a given total function; payloads whose fields have unexpected types,
  which make the library throw inside the receiver, are not modelled.
- `Upload.ReachableIsSound`: upload ids are taken never to repeat (they are 128 random bits), and the storage
  backend is taken to accept only indices from 0 up to the chunk count, as both backends check. Staged
  bytes, assembly and aborts are not modelled.
- `Upload.JsonRoundTrip`: keys that `std::stoi` would read from a number followed by other text; the code
  never writes such keys.
- `RateLimiting.EvictionUnobservable`: times are positive, since time zero marks a fresh bucket.
- `RateLimiting.RetryIsExact`: doubles are reals, and the estimate is not cut to an int.
- `LlmStream.AnswerDelivered`: a delta on a chunk that also has a finish_reason is ignored, as the code does.
- Machine overflow: huge intervals, dates and sizes are unbounded integers, except where the code cuts or
  wraps them (`put16`, `put32`, the codec accumulators, the COSE integers, `safe_stoi`).
- `CalendarHandler.ListRecurring`: the stored start and end times are valid dates; the ranges and the rule are
  any text.
- `WeeklyExpansion.WeeklyExact`: the weekly loop ignores BYMONTH and BYMONTHDAY, so its meaning does too. RFC
  5545 is not the oracle for MONTHLY and YEARLY, where the code clamps and filters instead of expanding.
- `Iso8601.FormatParseRoundTrip`: years with more than fifty digits, which would be cut by the format buffer.
- `Zip.ReadBackExact`: zlib and the checksum are given; archives of 4 GiB and more.
- `Cbor.CborReader.Skip`: the depth of the C++ call stack.
- `FileRequests.ReachableExactly`: names, spaces, permissions and renames are not part of the tree, and node ids
  are taken never to repeat. A recursive query on a tree that a cycle has closed does not end.
- `FileTree.FileTable.DeleteRow`: the schema's ON DELETE CASCADE, which a deletion in this order never triggers.
- `Versions.ReachableIsSound`: hard deletion of files, which takes all their versions along, and the collected blob ids.
- `Pooling.ReachableIsSound`: a handle is used by one thread at a time, so a move and the release inside it are one
  step for the handles; notify_one wakes one sleeper, further wake-ups count as spurious.
- Lookup helpers of the database, session assembly, TOTP codes, attestation formats and signature checks:
  single-branch or cryptographic code.

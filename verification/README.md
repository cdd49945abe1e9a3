# Verified model of fixmon and fixmon-chat

fixmon watches FIX engines: adapters tail the engines' logs, mask what must not leave the host, and
feed one bounded queue; a single consumer keeps session state, metrics and an event store.
fixmon-chat lets an operator ask questions about it through a model that may call tools. This
project models the parts where a mistake would be quiet, and proves what they promise.

| files | what they model |
|---|---|
| `Capacity`, `MpmcRing`, `MpmcRuns`, `MpmcQueue` | the bounded MPMC ring: every atomic load, compare-and-swap and store as one step of any number of threads; then the class as one caller sees it |
| `Pipeline` | adapters, the retrying and dropping sink, the consumer, the drain at shutdown, on top of that ring |
| `Secrets`, `FreeText`, `FixTags`, `FixBody`, `FixBodyMeaning` | which names are secrets, the free-text scrubber, the FIX body masker |
| `FixFields`, `Calendar`, `Timestamp`, `LogLine`, `MessageLog` | the FIX field reader, FIX timestamps, and one line of a message log |
| `TailReader` | following a log file through chunked reads, polls and rotations |
| `Sessions`, `SessionRuns` | the session registry and what its runs come to |
| `Labels`, `Metrics`, `MetricFamilies`, `Bookkeeping`, `Consumer` | label printing, the metric registry under concurrent callers, and the second bookkeeping of the same events |
| `QuickFixLines`, `QuickFixSettings`, `QuickFixMeaning` | the engine settings reader |
| `ChatHistory`, `Chat`, `Wire`, `Gemini` | chat history, trimming, the request loop, and both wire formats |

Each part has the same shape. Code that changes things step by step is a method with loops, or a
class, proved equal to a specification function on values; what the program promises is then proved
of that function, over all inputs or all runs, against an independent description: field lists for
the masker, white-space-separated words for the scrubber, lines of a byte stream for the tail
reader, last assignments for the settings reader, sequential service for the metric registry, event
counts for the two bookkeepers, paired turns for the history.

Run `dafny verify dfyconfig.toml` here to check everything.

## Results that are not what one would expect

- Masking a masked body again can change it: tag 354 keeps the length of the text it announced.
  `FixBodyMeaning.MaskTwiceExactlyWhen` says when, `MaskTwiceCanDiffer` gives a body.
- A settings line whose credential name opens with `[` and whose value ends in `]` reads as a section
  header, so the value ends up in a warning. `QuickFixLines.ValueIrrelevantExactlyWhen` has both directions.
- Credential names outside `[DEFAULT]` and `[SESSION]` are reported by the next session block
  (`QuickFixMeaning.SettingsMean`, through `ReportedIn`).
- The log-line fallback for builds that omit the padding around the colon never recognises a timestamp:
  the first colon of such a line is inside the timestamp (`LogLine.RecognisedExactlyWhenPadded`,
  `LogLine.BareColonIsNotRecognised`). The comment beside that code promises more; the model follows the code.
- A false `try_pop` does not mean the queue was empty: a push may be between its claim and its
  publication (`MpmcRuns.PopFailsDuringWrite`).
- Label lists whose names are not legal label names can share a series (`Labels.OddNamesCollide`).
- A logon of our own ends the live state of a session that is stale, but not of one that is logged on
  (`SessionRuns.LiveExactlyWhileLogonStands`).
- An event log line that no rule matches is counted as a parse error and passed on all the same, so the
  lines of event and message logs add up differently (`Pipeline.EveryLineAccountedFor`).

## Model

| member | source | states |
|---|---|---|
| Capacity.NextPow2 | fix_monitor/src/config.cpp:41-45 | for v up to 2^63 the result is the least power of two that is at least v and 2, and fits 64 bits |
| Capacity.SlotDistinct | fix_monitor/include/fixmon/mpmc_queue.hpp:40-46 | tickets less than a lap apart use different cells |
| Capacity.WindowCovers | fix_monitor/include/fixmon/mpmc_queue.hpp:40-46 | every window of one lap has a ticket for every cell |
| Capacity.SlotIsRemainder | fix_monitor/include/fixmon/mpmc_queue.hpp:40-46 | masking the position is taking it modulo the capacity |
| MpmcRing.InitInv | fix_monitor/include/fixmon/mpmc_queue.hpp:24-31 | a new ring with any number of idle threads satisfies the invariant |
| MpmcRing.StepInv | fix_monitor/include/fixmon/mpmc_queue.hpp:36-80 | every atomic step of every thread, spurious failures included, keeps the invariant over cells, threads and histories |
| MpmcRing.Exclusive | fix_monitor/include/fixmon/mpmc_queue.hpp:36-80 | threads past their compare-and-swap own different cells |
| MpmcRuns.EveryRunInv | fix_monitor/include/fixmon/mpmc_queue.hpp:36-80 | the invariant holds after every interleaving |
| MpmcRuns.CellTellsPhase | fix_monitor/include/fixmon/mpmc_queue.hpp:36-80 | each cell has exactly one ticket of the current lap, and its sequence number alone says whether that ticket is free, being written, published or still being read from the lap before |
| MpmcRuns.NothingLost | fix_monitor/include/fixmon/mpmc_queue.hpp:36-80 | a value whose push returned true is in its cell, or with the one pop that took it, or was returned by it |
| MpmcRuns.PoppedOnceAsPushed | fix_monitor/include/fixmon/mpmc_queue.hpp:36-80 | a pop returns the value pushed on its own ticket, and no ticket is returned twice |
| MpmcRuns.OneOwnerPerCell | fix_monitor/include/fixmon/mpmc_queue.hpp:36-80 | in every reachable state no two threads work on one cell |
| MpmcRuns.PushFailsExactlyWhen | fix_monitor/include/fixmon/mpmc_queue.hpp:48-49 | a push gives up iff, at its load, its position is current and the ticket one lap back was not yet returned |
| MpmcRuns.PopFailsExactlyWhen | fix_monitor/include/fixmon/mpmc_queue.hpp:71-72 | a pop gives up iff its position is current and no push has returned true for that ticket |
| MpmcRuns.PopFailsDuringWrite | fix_monitor/include/fixmon/mpmc_queue.hpp:59-80 | a reachable state in which a pop finds nothing although a push holds a ticket |
| MpmcRuns.SizeApproxBounded | fix_monitor/include/fixmon/mpmc_queue.hpp:82-86 | whatever runs between its two loads, the answer is at most the capacity and the tickets outstanding at the second load |
| MpmcRuns.ProducerOrder | fix_monitor/include/fixmon/mpmc_queue.hpp:36-57 | each thread's pushes return true in ticket order |
| MpmcRuns.PoppedIsPrefix | fix_monitor/include/fixmon/mpmc_queue.hpp:59-80 | with one consumer the popped values are always a prefix of the pushed ones in claim order |
| MpmcRuns.RefusedPushFindsRingFull | fix_monitor/include/fixmon/mpmc_queue.hpp:48-49 | with one consumer a refused push means at least capacity - 1 tickets are outstanding |
| MpmcQueue.MpmcQueue.constructor | fix_monitor/include/fixmon/mpmc_queue.hpp:24-31 | an empty queue of the given capacity |
| MpmcQueue.MpmcQueue.TryPush | fix_monitor/include/fixmon/mpmc_queue.hpp:36-57 | undisturbed, appends the value iff there is room, else changes nothing |
| MpmcQueue.MpmcQueue.TryPop | fix_monitor/include/fixmon/mpmc_queue.hpp:59-80 | undisturbed, removes and returns the oldest value iff there is one |
| Pipeline.MoveKeeps | fix_monitor/src/main.cpp:435-445 | every move of message and event log adapters, sinks, consumer and shutdown keeps the pipeline invariant |
| Pipeline.AttemptEndsOneWay | fix_monitor/src/main.cpp:435-445 | an attempt ends with the same event on a ticket of its own and counted, or with the sink still holding that event |
| Pipeline.NotedBalances | fix_monitor/src/event_log_adapter.cpp:160-174 | a line counted and passed on, or not, keeps the balance of its kind of adapter: an event log line that no rule matched is an error and an event |
| Pipeline.EveryLineAccountedFor | fix_monitor/src/message_log_adapter.cpp:126-139 | in every state, of a message log: lines read = parse errors + accepted + dropped + the one still in the sink; of an event log: lines read = accepted + dropped + the one in the sink; parse errors are the lines not understood, or not matched; at most wait_ms + 1 refusals |
| Pipeline.StagedIsPrefix | fix_monitor/src/main.cpp:485-497 | what was applied and staged is always a prefix of the pushes in ticket order, which is each adapter's own order |
| Pipeline.DrainedMeansEmpty | fix_monitor/src/main.cpp:571-579 | once the adapters are joined a pop that finds nothing leaves nothing |
| Pipeline.ExitLosesNothing | fix_monitor/src/main.cpp:571-579 | at exit the staged sequence is exactly the accepted events, and the lines of every adapter add up as its kind counts them |
| Secrets.SameShapeSameSecret | fix_monitor/src/redact.cpp:123-134 | putting in or leaving out a separator, or changing the case of a letter, does not change whether a name is a secret; a name is one iff its folded form is |
| Secrets.MarkerIsNoSecret | fix_monitor/src/redact.cpp:10-51 | the redaction marker is not itself a secret name, with its brackets or without |
| Secrets.HarmlessName | fix_monitor/src/redact.cpp:123-134 | a name of common letters that cannot spell "secret" is no secret |
| FreeText.RedactFreeText | fix_monitor/src/redact.cpp:289-361 | the windowed loop over tokens computes the word-by-word specification |
| FreeText.PendingIsExposed | fix_monitor/src/redact.cpp:289-361 | the window is open at a word iff an earlier credential noun is separated from it only by punctuation and at most three stop words |
| FreeText.WordFate | fix_monitor/src/redact.cpp:289-361 | a keyed secret keeps its key, a plain word is replaced iff exposed, every other word is kept |
| FreeText.ScrubMeaning | fix_monitor/src/redact.cpp:289-361 | the scrubbed text has the same words in number, the same white space, and each word met by its fate |
| FreeText.RedactedTwice | fix_monitor/src/redact.cpp:289-361 | scrubbing is idempotent on every text |
| FreeText.RedactedAddsNothing | fix_monitor/src/redact.cpp:289-361 | every character of the result is of the text or of the marker |
| FreeText.RedactedKeepsEmptiness | fix_monitor/src/redact.cpp:289-361 | the result is empty iff the text is |
| FixBody.FindEnd | fix_monitor/src/redact.cpp:216-232 | where a field's value ends: the declared length when it applies, else the next separator |
| FixBody.MaskFixBody | fix_monitor/src/redact.cpp:198-287 | the scanner computes the recursive specification on every body, well formed or not |
| FixBodyMeaning.MaskingIsFieldwise | fix_monitor/src/redact.cpp:198-287 | masking the rendering of a well-formed field list is rendering the masked fields, data values with embedded separators included |
| FixBodyMeaning.HiddenValuesDoNotShow | fix_monitor/src/redact.cpp:235-266 | well-formed messages that differ only in non-empty values of credentials, opaque texts or, when asked, business fields mask to the same body |
| FixBodyMeaning.MaskSeparators | fix_monitor/src/redact.cpp:198-287 | masking never adds a separator |
| FixBodyMeaning.MisCutChanges | fix_monitor/src/redact.cpp:222-280 | a second pass that cuts a data field at a stale length changes the body |
| FixBodyMeaning.MaskTwiceExactlyWhen | fix_monitor/src/redact.cpp:198-287 | a second masking changes nothing iff no EncodedTextLen left by the first is stale and short enough to be believed |
| FixBodyMeaning.MaskTwiceWithoutEncodedText | fix_monitor/src/redact.cpp:198-287 | well-formed bodies without tag 354 may be masked any number of times |
| FixBodyMeaning.MaskTwiceCanDiffer | fix_monitor/src/redact.cpp:222-280 | a well-formed body on which a second masking differs |
| FixFields.ParseFixFields | fix_monitor/src/fix_parser.cpp:11-58 | the cursor loop computes the recursive reading, on every body |
| FixFields.ParseIsFirstValue | fix_monitor/src/fix_parser.cpp:26-58 | on a rendered list of plain fields each tag reads its first value |
| FixFields.ParseAfterMask | fix_monitor/src/message_log_adapter.cpp:54-108 | reading a masked body gives the masked form of every value, and the very value for tags outside the masked classes |
| Calendar.YearsCounted | fix_monitor/src/fix_parser.cpp:86-94 | the year terms of the POSIX formula count the days of all years since 1970 |
| Calendar.TimegmCounts | fix_monitor/src/fix_parser.cpp:79-94 | on valid times the formula is the count of seconds made month by month and year by year |
| Calendar.NanosClimb | fix_monitor/src/fix_parser.cpp:94-109 | later on the calendar is strictly more nanoseconds |
| Calendar.OnlyEpochIsZero | fix_monitor/src/fix_parser.cpp:60-63 | only the Epoch counts as 0, the mark of no timestamp |
| Calendar.FitsInt64 | fix_monitor/src/fix_parser.cpp:94 | through the year 2261 the count fits 64 signed bits |
| Timestamp.ParseTimestamp | fix_monitor/src/fix_parser.cpp:60-110 | the loops compute the specification on every text, malformed ones included |
| Timestamp.PrintedParsesExactly | fix_monitor/src/fix_parser.cpp:60-110 | a timestamp of 1970 to 2261 printed with 0 to 9 fraction digits parses to the exact nanosecond |
| Timestamp.ParsingKeepsOrder | fix_monitor/src/fix_parser.cpp:60-110 | however finely printed, timestamps of 1970 to 2261 parse in calendar order |
| Timestamp.StampBehindParses | fix_monitor/src/fix_parser.cpp:60-110 | a text that begins with a timestamp after the Epoch never parses to 0, whatever follows |
| Timestamp.ParsingStaysInRange | fix_monitor/src/fix_parser.cpp:60-110 | the result for 1970 to 2261 fits 64 signed bits, and is 0 iff the time is the Epoch |
| LogLine.SplitLogLine | fix_monitor/src/fix_parser.cpp:112-139 | the method computes the specified split on every line |
| LogLine.PaddedLineSplits | fix_monitor/src/fix_parser.cpp:112-139 | timestamp, padded colon and payload come apart into exact time and payload |
| LogLine.UnpaddedIsNeverRecognised | fix_monitor/src/fix_parser.cpp:118-131 | without a padded colon near the front no timestamp is recognised and the line stays whole |
| LogLine.RecognisedExactlyWhenPadded | fix_monitor/src/fix_parser.cpp:112-139 | a line that begins with a timestamp after the Epoch is recognised iff a padded colon stands within its first 33 letters |
| LogLine.BareColonIsNotRecognised | fix_monitor/src/fix_parser.cpp:118-131 | timestamp, bare colon and payload, the fallback's own case, stay whole and without time |
| MessageLog.FindBody | fix_monitor/src/message_log_adapter.cpp:46-49 | the first place a FIX body starts, or none |
| MessageLog.ParseLine | fix_monitor/src/message_log_adapter.cpp:41-112 | an event iff the first body has a tag 35: a FIX message of the adapter's session from the message log, its time from the prefix, its columns from the body as logged, its raw body masked |
| MessageLog.LiftSurvivesMasking | fix_monitor/src/message_log_adapter.cpp:54-109 | the columns lifted before masking are the ones the masked body still yields |
| TailReader.TailReader.constructor | fix_monitor/src/tail_reader.cpp:38-41 | opens the file at its end or its beginning |
| TailReader.TailReader.Open | fix_monitor/src/tail_reader.cpp:47-60 | opens what the path names, at its end or start, and drops the carry; a failed open keeps the rest |
| TailReader.TailReader.Rotate | fix_monitor/src/tail_reader.cpp:62-76 | reopens from the start iff another file is under the name or the file is shorter than last seen |
| TailReader.TailReader.Poll | fix_monitor/src/tail_reader.cpp:78-123 | a poll in chunks of any size delivers the lines and leaves the state of one read of all unread bytes |
| TailReader.DeliverLines | fix_monitor/src/tail_reader.cpp:97-111 | the inner loop delivers the non-empty, CR-stripped lines and keeps the unterminated rest |
| TailReader.MoreBytes | fix_monitor/src/tail_reader.cpp:78-123 | lines of a stream are those of its first part and of the carried rest with what follows |
| TailReader.ChunkingDoesNotMatter | fix_monitor/src/tail_reader.cpp:78-123 | any chunking delivers the lines of the whole and carries its unfinished end |
| TailReader.PollsKeep | fix_monitor/src/tail_reader.cpp:47-123 | the reader's invariant holds over any number of polls and noticed changes of the disk |
| TailReader.GenerationsStayApart | fix_monitor/src/tail_reader.cpp:47-123 | the bytes of every generation, finished ones included, stood in one stretch of one file at some poll |
| TailReader.EveryGenerationExact | fix_monitor/src/tail_reader.cpp:47-123 | through any rotations each generation's delivered lines are exactly those of its bytes, which stood in one stretch of one file, and the carry is the current one's unfinished end |
| TailReader.AppendIsNoticed | fix_monitor/src/tail_reader.cpp:62-76 | appending is within what the runs allow |
| TailReader.ReplaceIsNoticed | fix_monitor/src/tail_reader.cpp:62-76 | a new file under the name makes the reader rotate |
| TailReader.ShrinkIsNoticed | fix_monitor/src/tail_reader.cpp:62-76 | a file shorter than last seen makes the reader rotate |
| Sessions.SessionRegistry.constructor | fix_monitor/src/session_state.cpp:17-18 | an empty registry; a multiple below 1 becomes 2 |
| Sessions.SessionRegistry.RegisterSession | fix_monitor/src/session_state.cpp:20-25 | sets one session's name and interval and changes no other |
| Sessions.SessionRegistry.CountMessage | fix_monitor/src/session_state.cpp:51-70 | the branches as written count a message and give its gap as the specification that `SessionRuns.GapsTelescope` accounts for |
| Sessions.SessionRegistry.MoveByMessage | fix_monitor/src/session_state.cpp:72-97 | the branches on the message type make the specified transition and counts |
| Sessions.SessionRegistry.MoveByNarration | fix_monitor/src/session_state.cpp:101-152 | the branches on the session event make the specified transition and counts |
| Sessions.SessionRegistry.Apply | fix_monitor/src/session_state.cpp:36-154 | moves the event's own session by the specified step, returns the gap it reveals, changes no other session |
| Sessions.SessionRegistry.EvaluateStaleness | fix_monitor/src/session_state.cpp:156-172 | re-evaluates every session, whatever the order of the sweep |
| Sessions.SessionRegistry.Evaluate | fix_monitor/src/session_state.cpp:159-170 | the branches on one session make the specified re-evaluation that `SessionRuns.StaleExactlyAfterSilence` tells from the inputs |
| SessionRuns.SessionsDoNotInterfere | fix_monitor/src/session_state.cpp:27-172 | in the shared map every session stands as if run alone on its own inputs |
| SessionRuns.GapsTelescope | fix_monitor/src/session_state.cpp:51-65 | over every run: last number + 1 + steps back = first number + messages + gaps returned; the next number expected is the last + 1; seq_gaps counts the positive gaps |
| SessionRuns.GapsAreTheMissing | fix_monitor/src/session_state.cpp:58-64 | with no step back the gaps add up to the number of missing sequence numbers |
| SessionRuns.TimesAreHistory | fix_monitor/src/session_state.cpp:40-68 | the times and the interval the clock looks at are the latest inbound message's, the greatest of all, and the latest enrolment's |
| SessionRuns.LiveExactlyWhileLogonStands | fix_monitor/src/session_state.cpp:72-172 | a session is logged on or stale iff, told from the inputs alone, its latest inbound logon has no later lowering event and no logon of our own came when the latest look at the clock since had found it silent |
| SessionRuns.StaleExactlyAfterSilence | fix_monitor/src/session_state.cpp:72-172 | it is stale iff, besides, the latest look since that logon found it silent beyond its tolerance |
| SessionRuns.LogonTimeIsLatest | fix_monitor/src/session_state.cpp:72-111 | the logon time is that of the latest inbound logon, 0 if none |
| SessionRuns.OnlyTheClockMakesStale | fix_monitor/src/session_state.cpp:156-172 | the stretch of staleness a stale session is in began with a look at the clock, at a session then logged on |
| SessionRuns.IdleLooksCollapse | fix_monitor/src/session_state.cpp:156-172 | while nothing is heard only the latest look at the clock counts, so evaluating twice is evaluating once |
| SessionRuns.SilenceStaysStale | fix_monitor/src/session_state.cpp:156-172 | a stale session stays stale until something is heard, while the clock does not run back |
| SessionRuns.HighWaterMarks | fix_monitor/src/session_state.cpp:40-71 | newest time and highest number sent are maxima over everything heard |
| SessionRuns.TextsAreLatest | fix_monitor/src/session_state.cpp:82-126 | reject text and disconnect reason are those of the latest event that gave one |
| Labels.EncodeLabels | fix_monitor/src/metrics.cpp:55-73 | the nested loops print the label list with the escapes of the text exposition format 0.0.4 |
| Labels.ReadsBackExactlyWhen | fix_monitor/src/metrics.cpp:55-73 | a print decodes to its list iff no label name contains '=' |
| Labels.DistinctListsDistinctKeys | fix_monitor/src/metrics.cpp:55-73 | lists with legal names that print alike are equal |
| Labels.OddNamesCollide | fix_monitor/src/metrics.cpp:55-73 | two different lists, one with an illegal name, with one print |
| Metrics.EveryRunIsLinear | fix_monitor/src/metrics.cpp:75-130 | however lookups and insertions interleave, registry and answers are those of serving the calls one at a time in answer order |
| Metrics.CapAndCountersHold | fix_monitor/src/metrics.cpp:75-130 | never more series than the cap, and both refusal counters are exact |
| Metrics.OneAnswerPerSeries | fix_monitor/src/metrics.cpp:75-130 | every caller of a series, racing or late, at the cap or not, gets the answer the first one got |
| Metrics.HandlesAreNotShared | fix_monitor/src/metrics.cpp:75-130 | with legal names two requests share a handle iff they ask for the same series |
| MetricFamilies.MetricRegistry.RefuseSensitive | fix_monitor/src/metrics.cpp:30-39 | refuses and counts iff some label name is a secret |
| MetricFamilies.MetricRegistry.SeriesCount | fix_monitor/src/metrics.cpp:92-93 | the sum over families is the number of series |
| MetricFamilies.MetricRegistry.LookUp | fix_monitor/src/metrics.cpp:79-86 | finds the handle iff the series exists |
| MetricFamilies.MetricRegistry.Insert | fix_monitor/src/metrics.cpp:87-100 | finds a series made in between, else refuses at the cap and counts, else makes it |
| MetricFamilies.MetricRegistry.Obtain | fix_monitor/src/metrics.cpp:75-130 | undisturbed, a call is one sequential service |
| Bookkeeping.SumBump | fix_monitor/src/main.cpp:138-140 | adding to one series adds as much to exactly the totals that series belongs to |
| Bookkeeping.HarmlessBelongs | fix_monitor/src/main.cpp:152-218 | read back from its print, a series is selected by a total iff its labels are |
| Bookkeeping.IncsHarmless | fix_monitor/src/main.cpp:152-218 | no label name update_metrics uses is a secret, so none of its series is refused as one |
| Bookkeeping.IncsWorth | fix_monitor/src/main.cpp:152-218 | the increments of one event add to each of thirteen totals of each session exactly what the event is worth |
| Bookkeeping.BooksRunTheRegistry | fix_monitor/src/main.cpp:488-497 | the consumer's session map is the registry's own run |
| Bookkeeping.BookkeepersAgreeButForLosses | fix_monitor/src/main.cpp:152-218 | on every run each session's scraped total falls short of the registry's counter by exactly the increments whose series the cap refused |
| Bookkeeping.NothingLostWithinCap | fix_monitor/src/metrics.cpp:92-97 | nothing is lost to a total on a run in which the cap refused nothing |
| Bookkeeping.BookkeepersAgree | fix_monitor/src/main.cpp:152-218 | on every run in which the cap refused nothing, each session's scraped totals equal the registry's counters, and the gap messages what apply returned |
| Consumer.MetricStore.UpdateMetrics | fix_monitor/src/main.cpp:152-218 | the branches as written make the specified increments, in order |
| Consumer.Pipeline.Consume | fix_monitor/src/main.cpp:488-493 | one event moves session state and metrics by one turn and is staged |
| QuickFixLines.EquivalentIsSameName | fix_monitor/src/quickfix_config.cpp:215-220 | the comparator takes two names for one iff they differ at most in case |
| QuickFixLines.LessIsOrder | fix_monitor/src/quickfix_config.cpp:215-220 | the comparator is irreflexive and transitive |
| QuickFixLines.SecretInAnyCase | fix_monitor/src/quickfix_config.cpp:319 | a setting is a secret in any case or in none |
| QuickFixLines.CredentialLine | fix_monitor/src/quickfix_config.cpp:287-325 | how a credential's line reads, for every name and value |
| QuickFixLines.ValueIrrelevantExactlyWhen | fix_monitor/src/quickfix_config.cpp:293-325 | the value of a credential cannot change how its line reads iff the name does not open with '[' |
| QuickFixSettings.ParseSettings | fix_monitor/src/quickfix_config.cpp:247-343 | the loop with its two lambdas computes the fold over classified lines |
| QuickFixMeaning.SettingsMean | fix_monitor/src/quickfix_config.cpp:247-343 | one block per [SESSION] header; each name at its last value in the block, else in the [DEFAULT] sections above; the credential names reported are exactly those said to be |
| QuickFixMeaning.WarningsMean | fix_monitor/src/quickfix_config.cpp:300-341 | the warnings are exactly those of each line in order, and one more iff there is no session |
| QuickFixMeaning.NoSecretIsStored | fix_monitor/src/quickfix_config.cpp:319-325 | no dictionary returned holds a secret name |
| QuickFixMeaning.SecretsDoNotInterfere | fix_monitor/src/quickfix_config.cpp:247-343 | files that differ only in credential values, on lines not opening with '[', give the same result, warnings included |
| ChatHistory.PairedFrom | fixmon-chat/app/store.py:62-69 | a paired history cut before anything but a tool result stays paired |
| ChatHistory.TrimKeepsTheLongest | fixmon-chat/app/store.py:60-71 | trimming keeps the longest paired end that fits, and at most max_messages |
| ChatHistory.ContinuedIsSent | fixmon-chat/app/main.py:123-190 | a request ends in its first round without calls, its first failure or its last round, and leaves exactly the turns up to there |
| ChatHistory.EveryHistoryIsPaired | fixmon-chat/app/main.py:110-190 | after any questions, answers, tools and failures, every history sent and kept has each call turn followed by exactly its results in order; kept histories are within the limit unless the request failed |
| Chat.ConversationStore.GetOrCreate | fixmon-chat/app/store.py:48-58 | the stored conversation iff it is the caller's, a new one iff there was none, else refusal and no change |
| Chat.ConversationStore.Save | fixmon-chat/app/store.py:60-71 | the cut loop leaves the specified trimming, and the conversation is stored |
| Chat.RunRounds | fixmon-chat/app/main.py:123-176 | the loop of rounds, as it appends in place, computes the specified outcome, histories sent and tools used |
| Chat.Ask | fixmon-chat/app/main.py:89-192 | denied iff the conversation is another user's; otherwise the specified history, saved unless the provider failed; no other conversation changes |
| Wire.GroupingKeepsAll | fixmon-chat/app/providers/anthropic.py:71-109 | merging results loses and reorders nothing, on every history |
| Wire.GroupingKeepsPairs | fixmon-chat/app/providers/anthropic.py:84-94 | on a paired history each run of results is one message right behind its calls |
| Wire.ToAnthropic | fixmon-chat/app/providers/anthropic.py:71-109 | the loop that appends to the last message computes the grouped wire form |
| Wire.AnthropicRoundTrip | fixmon-chat/app/providers/anthropic.py:71-109 | a paired history can be read back from the wire, tool names included |
| Wire.EveryRequestTravelsWhole | fixmon-chat/app/main.py:127 | so every history a request loop sends can be read back whole |
| Wire.AnthropicAnswers | fixmon-chat/app/providers/anthropic.py:71-109 | each message with calls is answered by the next, id for id and in order, and results appear nowhere else |
| ChatHistory.EveryResultIsStamped | fixmon-chat/app/main.py:170-176 | every tool result a provider is sent has the stamp in front |
| Gemini.ToGemini | fixmon-chat/app/providers/gemini.py:144-210 | the loop computes the grouped contents, with each result as the object any JSON reader makes of it |
| Gemini.GeminiRoundTrip | fixmon-chat/app/providers/gemini.py:144-210 | a history whose results are not JSON reads back from the contents without its ids |
| Gemini.EveryRequestReadsBack | fixmon-chat/app/providers/gemini.py:196-210 | no stamped result is JSON, so every request of every conversation reads back |
| Gemini.GeminiAnswers | fixmon-chat/app/providers/gemini.py:156-170 | on a paired history each content with calls is answered by the next, name for name and in order |

## Left out

- MpmcQueue.MpmcQueue.TryPush: the retry loop of the class is a single pass, since nobody comes in between; interleaved retries are in `MpmcRing.Do`.
- MpmcQueue.MpmcQueue.TryPop: likewise a single pass.
- Capacity.NextPow2: sizes above 2^63, on which the original loops for ever.
- Memory orderings weaker than sequential consistency and wrap-around of the 64-bit positions.
- Pipeline.EveryLineAccountedFor: empty lines, which the tail reader never delivers and which an event log adapter would count without an event.
- FixBodyMeaning.MaskingIsFieldwise: bodies whose declared data lengths do not fit; `FixBody.MaskFixBody` still says what the scanner does with them.
- FixFields.ParseFixFields: overflow of the C++ integer conversions; numbers are unbounded, here and in the lifted columns of `MessageLog`.
- FixFields.ParseAfterMask: bodies with junk fields or with separators inside data values; the reader knows no data lengths, so there it cuts a value that the masker keeps whole.
- MessageLog.LiftSurvivesMasking: the same bodies, for the same reason.
- TailReader.TailReader.Poll: a file that changes while one poll is reading it.
- TailReader.EveryGenerationExact: rotations the reader cannot notice (a reused inode, a file cut and grown past its old size between polls) are assumed away by `Noticed`.
- Timestamp.ParseTimestamp: timegm is taken as the POSIX formula with months brought into range; the product that overflows 64 bits after 2262 is unbounded here, and the lemmas about printed times stop at 2261.
- Sessions.SessionRegistry.Apply: the mutex; there is one consumer. Counters and times are unbounded.
- MetricFamilies.MetricRegistry.Obtain: `counter` and `gauge` are one method with a kind; a handle is the number of its series in order of making.
- Bookkeeping.BookkeepersAgree: gauges and mirrored counters only take up room in the registry; how message types, events and numbers are worded is a parameter.
- QuickFixSettings.ParseSettings: the spelling under which a setting was first written, and the case of bytes beyond ASCII; warnings are data, not text.
- Chat.Ask: two requests on one conversation at a time, and the audit trail; the clock that stamps results is a parameter.
- Gemini.ToGemini: the JSON reader is a parameter; of JSON itself only one fact is used, that no text opening with a bracket and a letter r is JSON.
- What tools do: a tool's answer is any string, an error included, since the registry turns exceptions into text.
- The HTTP server, the SQLite event store (a sequence here), the regular expressions of the event-log adapter, log discovery on disk, configuration merging, and the provider HTTP calls: input and output, or easy.

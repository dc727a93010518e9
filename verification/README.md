# kidproxy: a verified model

kidproxy is a single-backend HTTPS reverse proxy. It rewrites responses with an ordered list of rules, records every
exchange in SQLite through a background writer, and can be reconfigured and restarted from a local admin page. This
project models the parts of it in which state, branching and concurrency meet, and proves what they promise over every
input, every run or every interleaving. `dafny verify dfyconfig.toml` checks all of it.

| modules | subject | form |
|---|---|---|
| `Text`, `Headers` | `str::replace`, decimal numbers, the header multimap, hop-by-hop removal | functions, a mutable `HeaderMap` |
| `Transform`, `Pipeline` | the rule list: its one-pass meaning, and the two in-place loops that implement it | functions; methods over `HeaderMap` and `BodyBuffer` |
| `Writer`, `WriterShutdown`, `WriterProgress`, `WriterBacklog`, `WriterTask` | the writer as a step system with histories, the shutdown handshake and its end, the backlog, the mutable task | step functions; a class proved equal to them |
| `Capture`, `CaptureObjects` | one exchange: capture, body wrapper, accumulator, the event sent | step functions; classes proved equal to them |
| `Recording` | all exchanges and the writer they share, interleaved | a step system made of the two above |
| `Proxy` | `ProxyService::handle`: transforms, capture and Content-Length together | a class whose `Handle` is proved against `HandleSpec` |
| `Manager`, `ManagerConcurrent`, `ManagerSnapshot` | save, reload and shutdown: serial, interleaved at lock granularity, and what the snapshot then tells | a class; a step system whose schedules without overlap are the serial runs |
| `Admin`, `AdminSettings` | the admin forms: what the page emits and what a submission is parsed to | functions, one loop |

How to read the model:

- Library code is a parameter: glob matching and compilation, lossy UTF-8 decoding, SHA-256 and base64 are fields of
  `Common.Library`, and every theorem holds for every choice of them. The host check, the backend URI and what the
  upstream client does are inputs of `Handle`; the outcomes of transactions, writes, starts and stops are inputs of steps.
- A header map is a sequence of fields. The program's map is a hash map with an order of names of its own;
  `Transform.NameOrderIrrelevant` shows that the transforms cannot observe that order, except in which of several
  unreadable headers an error names.
- A string is a sequence of Unicode scalar values; where the program handles bytes (bodies, header values) so does the
  model, with UTF-8 written out. `usize` has 64 bits.
- In the writer, a failed send and its counter are one step, a transaction commits as a whole or not at all, and the
  100 ms pause of the drain may end at any moment, which allows more runs than the clock does.
- Operations on the capture are single steps because each runs under its mutex; the one that takes the mutex twice is
  covered by `Capture.ObservedBetweenLocks`.

Where the obvious claim is false, the project keeps the code's behaviour, shows a run, and states when the claim holds:

- Of several shutdown calls, only the first one accepted is sure that its events are in the table
  (`WriterShutdown.FirstCallIsSafe`). One found during the drain is answered on the spot; its events are in the table
  exactly if the buffer is empty at that moment (`WriterShutdown.ShutdownHandshake`, `SecondShutdownAnsweredEarly`).
- A shutdown call does not end within a known number of steps: while the database fails, the flush interval may elapse
  any number of times before the request is taken (`WriterProgress.TicksDelayShutdown`). Of the steps that take a
  message, end a drain loop or end the last flush there are only so many, however: when the task has had that many turns
  it is gone (`WriterProgress.ShutdownEnds`). Left to itself it gets them, at least one in two steps
  (`WriterProgress.WaitingCallReturns`).
- An event accepted during the final flush is neither written nor counted as dropped (`WriterShutdown.LateEventLost`);
  the end of the task loses nothing exactly under the condition in `WriterShutdown.ExitLoses`.
- A backlog below `flush_rows + max_inflight_events` holds in the main loop while no flush has failed; each failure adds
  one to it, and while a flush of the main loop is pending the bound itself is reached (`WriterBacklog.BacklogBound`, `BacklogBoundReached`).
- A failed reload does not always keep the old runtime: `Manager.ReloadOutcome` gives the exact condition, and
  `Manager.UnreadableFileStopsProxy` the failing family. Without a runtime the manager never gets one again.
- In serial runs `pending_reload` holds exactly if saved and active configuration differ or a failed reload has been
  recorded since the save (`Manager.EverySerialRun`); so it may be set although they agree (`Manager.PendingThoughEqual`).
- When operations overlap, nothing may be pending and no operation in progress although the saved configuration does not
  run: a save can overlap a reload (`ManagerSnapshot.SaveReloadRace`), or two reloads each other, with no save at all
  (`ReloadReloadRace`); then the runtime summary is wrong too. The condition is on the schedule: no reload installs a new
  runtime while another operation is about to publish a different configuration as the running one. Under it the saved
  configuration is told truly in every run (`ConflictlessRun`), and a run satisfies it exactly if at each moment of it,
  whichever operation finishes next publishes the truth (`ConflictlessIff`).
- For the summary a second condition is needed: no reload misses the runtime it has installed because another reload took
  it and may put it back, unless the snapshot fits that runtime anyway or another announcement is to come
  (`ManagerSnapshot.OrderlyRun`, `MissedIff`, `MissedRuntime`). Both conditions together are exact: a run satisfies them
  exactly if the snapshot tells the truth at every moment of it (`OrderlyIff`).
- An empty response body that is dropped without being polled is recorded as a stream error
  (`Capture.UnpolledBodyIsStreamError`, `Capture.SuccessIff`).
- The forwarded request asks for an unencoded body unless the client's first `Connection` value lists accept-encoding
  (`Proxy.PlaintextRequested`). Only that first value is read when hop-by-hop headers are removed: a name that only a
  second one lists is forwarded (`Headers.SecondConnectionIgnored`); `Headers.StrippedValues` says exactly what is kept.
- Settings do not always survive the form: blank paths, blank optional texts and list entries with commas or outer white
  space do not; `AdminSettings.SettingsRoundTrip` is an equivalence.

## Model

| member | source | states |
|---|---|---|
| Text.FindFrom | src/transform.rs:247-251 | the first occurrence at or after a position; none only if there is none |
| Text.LeftmostSplitExists | src/transform.rs:247-251 | every text splits around the leftmost non-overlapping occurrences of the needle |
| Text.SplitJoins | src/transform.rs:247-251 | joining such a split with the needle gives the text back |
| Text.ReplaceIsJoin | src/transform.rs:247-251 | replacement is joining such a split with the new text, and the number of replacements is the number of joints |
| Text.ReplaceLength | src/transform.rs:247-251 | for k replacements, output length + k times needle length equals input length + k times replacement length |
| Text.ReplaceBySelf | src/transform.rs:247-251 | replacing the needle by itself is the identity |
| Text.ReplaceChangesIff | src/transform.rs:237-251 | the text changes if and only if the needle occurs in it and differs from its replacement |
| Text.ReplaceControl | src/transform.rs:217-222 | replacement in a text without control characters brings one in iff the needle occurs and its replacement holds one |
| Text.SplitOnJoins | src/transform.rs:359-372 | the parts of a split, put together with the separator, are the text, and none of them holds it |
| Text.TrimCuts | src/admin.rs:1343-1353 | trimming takes off white space at both ends and nothing else |
| Text.WhitespaceIff | src/admin.rs:1343-1353 | the code points that trimming takes off: the Unicode White_Space property |
| Text.ParseU64Iff | src/admin.rs:1327-1341 | a text is parsed to n iff it is the decimal digits of n, perhaps after zeros and a plus, and n fits |
| Text.ParseI64Iff | src/capture.rs:650-655 | the same for a signed number that is not negative |
| Text.ParseNegativeIff | src/capture.rs:650-655 | a negative number is a minus, any zeros and its decimal digits |
| Text.EncodeCharIs | src/transform.rs:237-245 | every character is encoded as section 3 of RFC 3629 has it: lead byte, continuation bytes, payload bits |
| Text.EncodeConcat | src/transform.rs:237-245 | a text is encoded character by character |
| Text.DecimalRoundTrip | src/capture.rs:650-655 | printing then parsing a number gives it back up to the width of `u64` and `i64`, and an error beyond |
| Headers.FromStrOfToStr | src/transform.rs:213-222 | a readable header value is rebuilt from its text byte for byte |
| Headers.FromStrIff | src/transform.rs:217-222 | a text can be stored as a header value iff it holds no control character other than tab |
| Headers.TokenCharIff | src/capture.rs:557-561 | the characters of a header name are those of a token in section 5.6.2 of RFC 9110, in lower case |
| Headers.ToStrOfFromStr | src/proxy.rs:404-415 | text of visible ASCII characters and tabs stored as a header value reads back unchanged |
| Headers.GetAllInserted | src/proxy.rs:416-418 | after `insert` a name has exactly the new value, all other names keep their value sequences |
| Headers.GetAllWithout | src/capture.rs:563-570 | removal empties the removed names and keeps every other name's value sequence |
| Headers.RemoveAll | src/capture.rs:557-561 | removing a list of tokens one by one, skipping those that are no header names, removes exactly the fields they name |
| Headers.StripHopByHopHeaders | src/capture.rs:544-571 | the in-place removal leaves exactly the fields named neither by the first readable `Connection` value nor by the fixed list |
| Headers.ConnectionTokensIff | src/capture.rs:545-556 | a name counts as listed iff the first Connection value is readable and has it between commas, up to case and surrounding white space |
| Headers.HopByHopIff | src/capture.rs:563-570 | the fixed names are exactly the eight the source removes |
| Headers.StrippedValues | src/capture.rs:544-571 | after stripping, the eight hop-by-hop names and names listed in the first readable `Connection` value have no value; every other name keeps its full value sequence |
| Headers.StrippedTwice | src/capture.rs:544-571 | stripping twice equals stripping once |
| Headers.SecondConnectionIgnored | src/capture.rs:545-547 | for every name that is not hop-by-hop, a message whose second Connection value lists it and that is forwarded with it |
| Transform.Compile | src/transform.rs:61-70 | Ok if and only if every rule compiles, then rule by rule and in order; otherwise the error of the first rule that does not |
| Transform.CompileRuleIff | src/transform.rs:306-350 | a rule compiles iff its pattern is a glob, its needle not empty and its header name, trimmed and in lower case, a header name; then needle, replacement, stop flag and target are the configured ones |
| Transform.CompileRuleError | src/transform.rs:307-341 | otherwise the pattern is reported first, then the needle, then the header name |
| Transform.CompiledMatches | src/transform.rs:148-156 | which responses a configured rule matches: by its pattern on the URL, by its lower-case pattern on the media type of the first Content-Type value, or all |
| Transform.MediaTypeIs | src/transform.rs:359-372 | the media type is the text before the first semicolon, trimmed and in lower case, and none if that is empty |
| Transform.PrebufferAgreesFrom | src/transform.rs:72-134 | from any rule index on, the streaming prefix followed by the buffered rest agrees with the one-pass interpreter |
| Transform.TwoPhaseRefinesOnePass | src/transform.rs:72-134 | for every rule list, URL, headers and body, two phases give the headers, body, change flags and Ok or Err of one pass; a streamed body is one that no rule would touch |
| Transform.PredictionSound | src/transform.rs:136-145 | if any response headers lead to buffering, the prediction from the URL alone was true |
| Transform.PredictionIff | src/transform.rs:136-145 | the prediction is true iff some rule can change the body and looks at the Content-Type or matches whatever the response |
| Transform.BufferFromIff | src/transform.rs:72-105 | the prefix hands over at rule k iff k is the first rule that matches and needs the body when its turn comes in the one pass, for any body |
| Transform.PredictionTight | src/transform.rs:136-156 | a response without headers is buffered if and only if a body rule matches without looking at the Content-Type |
| Transform.FieldChangesIff | src/transform.rs:210-222 | a header value changes if and only if it is selected, readable and contains a needle that differs from its replacement |
| Transform.FieldErrorIff | src/transform.rs:211-222 | a header value makes a rule fail iff it is selected and unreadable, or contains the needle while the replacement holds a control character other than tab; which of the two is reported |
| Transform.FirstErrorIs | src/transform.rs:210-222 | a failing rule reports its first bad field in map order |
| Transform.TriggersIff | src/transform.rs:179-251 | a rule that matches fails iff some field is bad in that sense; otherwise headers change, the body changes and a stop rule stops exactly if the needle occurs in the respective text and differs from its replacement |
| Transform.TargetEffect | src/transform.rs:165-177 | the values of any name after a header rule, target by target: `any` and `all_headers` map the replacement over every name, `header` over exactly its name, `cookies` over exactly set-cookie, `body` over none |
| Transform.TargetFails | src/transform.rs:165-222 | when a header rule fails, target by target |
| Transform.TargetTriggers | src/transform.rs:165-235 | when a header rule triggers, target by target |
| Transform.BodyEffect | src/transform.rs:179-245 | what a rule leaves of the body: `any` and `body` replace in the decoded text if the needle occurs and differs from its replacement, otherwise and for header targets every byte stays; a rule that does not match does nothing |
| Transform.UntriggeredIsIdentity | src/transform.rs:165-245 | a rule that fails or does not trigger leaves headers and body byte for byte |
| Transform.HeaderRuleFrame | src/transform.rs:165-235 | per name, number and order of values are kept and replacement is mapped over exactly the selected values; on Err or false the map is untouched |
| Transform.NameOrderIrrelevant | src/transform.rs:107-134 | maps that agree name by name give results that agree name by name, with equal body, flags and success |
| Transform.InterpretShort | src/transform.rs:117-128 | no rules change nothing, and a single rule runs by itself |
| Transform.InterpretConcat | src/transform.rs:117-128 | a list runs as its front followed, unless that ended the run, by its rest on what the front left; the change flags are those of either |
| Transform.DeleteUntriggered | src/transform.rs:107-134 | deleting any rule that ran without triggering changes nothing in the outcome |
| Transform.AfterStopIrrelevant | src/transform.rs:125-127 | whatever rules follow the one that ended the run do not matter |
| Pipeline.RewriteEntry | src/transform.rs:210-225 | one field: rewritten with its change flag, or the error for it |
| Pipeline.RewriteEntries | src/transform.rs:207-226 | the collecting loop yields the rewritten map and whether any text changed, or the first error in map order |
| Pipeline.ApplySelectedHeaders | src/transform.rs:199-235 | in place: the map is replaced if some value changed and untouched otherwise |
| Pipeline.ApplyToBody | src/transform.rs:237-245 | in place: the body becomes the replaced decoded text, or keeps its bytes if no text changed |
| Pipeline.ApplyUntilBody | src/transform.rs:72-105 | the in-place streaming loop ends in the headers, flag and disposition of the specification |
| Pipeline.ApplyWithBody | src/transform.rs:107-134 | the in-place buffered loop from any start index computes the one-pass meaning of the remaining rules |
| Writer.StepConserves | src/writer.rs:134-244 | every step keeps table ++ buffer ++ queue ++ lost equal to the accepted events in order, and only appends to the table |
| Writer.StepCounts | src/writer.rs:65-73 | every step keeps accepted = the offers taken, in order, and offered = accepted + dropped |
| Writer.OfferIff | src/writer.rs:65-73 | an event is refused iff the channel is full or its receiver gone, and then counted; nothing else changes |
| Writer.AskIff | src/writer.rs:75-87 | a shutdown call is queued last, settled at once because the receiver is gone, or leaves all as it was while the channel is full |
| Writer.RunConserves | src/writer.rs:65-244 | both over every run, with rows once committed staying in place |
| WriterShutdown.StepServes | src/writer.rs:75-189 | every step keeps the bookkeeping of shutdown requests: marks count the events ahead, the held caller waits, nobody waits in vain |
| WriterShutdown.EveryRun | src/writer.rs:65-244 | in every run from the start, whatever flushes fail: the table is a prefix of the accepted events, without repetition, and nothing is lost before the task ends |
| WriterShutdown.ShutdownHandshake | src/writer.rs:148-153 | the request that left the main loop is answered only after drain and flush attempt, and unless that flush failed all events ahead of it are in the table; another one is answered in the drain, its events being in the table iff the buffer is empty |
| WriterShutdown.NobodyWaitsAfterExit | src/writer.rs:75-95 | at task exit every reply channel is answered or dropped, and later calls return at once |
| WriterShutdown.FirstCallIsSafe | src/writer.rs:148-189 | the first accepted shutdown call is the only one the task ever holds: it is answered only when the task leaves, and then every event accepted before the call is in the table, unless the last flush failed |
| WriterProgress.RunRank | src/writer.rs:138-189 | over every run in which nobody sends, the steps that take a message, end a drain loop or end the last flush use up a rank that no other step raises |
| WriterProgress.TurnsEnd | src/writer.rs:138-189 | over every such run, once the steps of progress and those that find the task gone are as many as the rank, the task is gone |
| WriterProgress.ShutdownEnds | src/writer.rs:138-189 | from every reachable state and over every such run, ticks and failing flushes included: at most Rank steps of progress, the task gone after Rank turns, and nobody waiting once it is gone; if the drain's pause ends only on an empty queue no caller is dropped, and if the last flush works every accepted event is in the table, unless that flush had begun before |
| WriterProgress.WaitingCallReturns | src/writer.rs:138-189 | from every reachable state in which a call waits, however transactions end, 2 * Rank + 1 of the task's own steps end it and nobody waits; unless its last flush had begun every caller was answered, and if transactions succeed every accepted event is in the table |
| WriterProgress.SecondLoopWaits | src/writer.rs:179-188 | from every reachable first drain loop the drain goes on until a second pause, whoever sends meanwhile, and what is accepted until then is in the table after a patient end with a working last flush |
| WriterProgress.SecondPauseEnds | src/writer.rs:179-188 | that second pause begins the last flush, or ends the task if nothing is buffered |
| WriterProgress.NeverStuck | src/writer.rs:138-189 | while a call waits the task's next step is progress, or ends a flush of the main loop after which the next one is |
| WriterProgress.TicksDelayShutdown | src/writer.rs:160-162 | for any number n, a run in which the interval elapses n times with a failing flush while a call waits |
| WriterShutdown.ExitLoses | src/writer.rs:148-157 | what the end of the task loses, and that it loses nothing iff the queue holds no event and the buffer is empty or just committed |
| WriterBacklog.BacklogBound | src/writer.rs:138-164 | between main-loop steps, and in the flush after the last sender is gone, the buffer is below flush_rows + failures and the backlog below flush_rows + capacity + failures; at most that during a flush of the main loop |
| WriterBacklog.BacklogBoundReached | src/writer.rs:191-234 | for every positive flush_rows and capacity and any number of failures, a run in which the bound is reached while a flush of the main loop is pending |
| WriterShutdown.SecondShutdownAnsweredEarly | src/writer.rs:169-189 | a run in which a second shutdown call is answered before an event accepted ahead of it is in the table |
| WriterShutdown.LateEventLost | src/writer.rs:148-153 | a run in which an event accepted during the final flush is lost and not counted |
| WriterTask.WriterState.TrySend | src/writer.rs:65-73 | the mutable handle performs the sending step: queued, or dropped and counted |
| WriterTask.WriterState.TryShutdown | src/writer.rs:75-87 | one attempt: queued, answered because closed, or to be tried again |
| WriterTask.WriterState.TryFlush | src/writer.rs:191-194 | an empty buffer needs no flush; otherwise the transaction is awaited |
| WriterTask.WriterState.CompleteFlush | src/writer.rs:196-234 | success moves the whole buffer to the table, failure keeps it and counts |
| WriterTask.WriterState.Receive | src/writer.rs:138-159 | the receive branch of the select loop |
| WriterTask.WriterState.DrainOne | src/writer.rs:171-176 | one message of a drain loop: an event is buffered, a further shutdown request answered |
| WriterTask.WriterState.DrainPendingEvents | src/writer.rs:169-177 | the first drain loop empties the queue into the buffer in order and equals as many drain steps of the system |
| WriterTask.WriterState.Execute | src/writer.rs:134-167 | any schedule of senders and task on the mutable state is the run of the step system, so all run theorems hold of it |
| Capture.SentIsFinal | src/capture.rs:163-184 | once finalized, no operation sends another event or alters the one sent |
| Capture.SuccessIff | src/capture.rs:437-503 | a wrapped response ends in success iff the first terminal poll is the end of stream, or there is none and the last frame left the inner body at its end |
| Capture.FirstTerminalDecides | src/capture.rs:449-470 | the first end of stream means success and the first error an upstream protocol error with its text, whatever follows |
| Capture.DropDecides | src/capture.rs:483-503 | without either, the drop means success iff the last frame left the body at its end, and else an early end by the client |
| Capture.FirstErrorStays | src/capture.rs:175-184 | an error already recorded is not replaced by one of the body |
| Capture.UnpolledBodyIsStreamError | src/capture.rs:483-503 | a response whose body is dropped before any poll sends one event: a stream error, dropped before completion |
| Capture.WrappedResponse | src/capture.rs:430-503 | any polls and the drop send exactly one event, with the result of the first terminal observation and the summary of the data delivered before it |
| Capture.InterleavingIrrelevant | src/capture.rs:155-161 | request observations anywhere in the trace change only the request part of the event |
| Capture.RequestRecorded | src/capture.rs:241-317 | the request part of the event covers exactly what had been observed when it was built: digest of all of it, preview of its beginning, truncated iff longer |
| Capture.ObservedBetweenLocks | src/capture.rs:175-184 | request bytes observed between the two locked sections of a body error count as observed before it |
| Capture.EarlierStay | src/capture.rs:163-184 | events offered to the writer before stay, and do not influence the exchange |
| Capture.ExactlyOneEvent | src/capture.rs:163-184 | every complete exchange, however request observations interleave and whatever was offered before, adds exactly one event; its result is fixed by verdict and polls, and its digests, previews and truncation flags are those of all that was delivered and of all that had been observed |
| Capture.SharedWriter | src/capture.rs:163-173 | an operation of one of several exchanges does to the shared writer what it does when alone with it |
| Capture.ExchangesIndependent | src/capture.rs:163-184 | however exchanges interleave on one writer, each goes through its own operations only |
| Capture.OneEventEach | src/capture.rs:163-184 | of any number of exchanges interleaved on one writer, each complete one has offered exactly one event, the expected one |
| Capture.EventClassified | src/capture.rs:107-184 | no event is in flight, and it carries an error iff its result is client_rejected, upstream_error or stream_error |
| Capture.SuccessMeansAll | src/capture.rs:437-447 | a truthful body recorded as success was delivered, and so hashed, in full |
| Capture.DeliveredIsPrefix | src/capture.rs:437-447 | however a response ends, what was delivered and hashed is the beginning of its body |
| Capture.SummaryCovers | src/capture.rs:367-381 | a summary's digest covers the whole content, its preview the first max bytes, and it is truncated iff there are more |
| Recording.WriterRuns | src/writer.rs:65-73 | the writer of a service with any number of exchanges goes through a run of the writer, so the theorems about those hold of it |
| Recording.RunLinks | src/capture.rs:163-173 | in every interleaving of exchanges and writer, the writer has been offered what the exchanges offered, in order, and keeps conserving and counting it; the exchanges do not notice the writer |
| Recording.RecordedOnce | src/writer.rs:65-73 | in every interleaving a complete exchange has exactly one event, the expected one, in the table, buffered, queued, lost at the task's end or refused, and the refused events are as many as the drop counter says |
| Recording.ShutdownRecords | src/writer.rs:148-153 | when the first shutdown call is answered and the last flush has not failed, the event of every exchange complete before the call is in the table or had been refused, whatever goes on meanwhile |
| Recording.QuietEndRecords | src/writer.rs:148-189 | when nobody sends, the drain is patient and the last flush works, every complete exchange's event ends up, once, in the table or among the refused |
| CaptureObjects.BodyAccumulator.Observe | src/capture.rs:347-365 | after any chunk the state is that of the concatenation: first max bytes retained, truncated iff longer, all hashed |
| CaptureObjects.BodyAccumulator.ObserveAll | src/capture.rs:347-365 | however a body is cut into chunks, empty ones included, the state depends on the concatenation alone |
| CaptureObjects.BodyAccumulator.Finish | src/capture.rs:367-381 | the summary covers the whole content: digest of all of it, preview of the first max bytes, truncated iff longer |
| CaptureObjects.SharedExchangeCapture.FinalizeAndSend | src/capture.rs:163-173 | sends the event of the current state at most once |
| CaptureObjects.SharedExchangeCapture.FinalizeWithBodyErrorAndSend | src/capture.rs:175-184 | records the error unless one is recorded, then finalizes |
| CaptureObjects.SharedExchangeCapture.BuildEvent | src/capture.rs:241-317 | the event of the recorded status, length, result and error, with summaries that cover all observed bytes of both bodies |
| CaptureObjects.ObservedBody.PollFrame | src/capture.rs:430-472 | one poll on the mutable wrapper is the poll step |
| CaptureObjects.ObservedBody.Drop | src/capture.rs:483-503 | the destructor is the drop step |
| CaptureObjects.ObservedBody.Execute | src/capture.rs:430-503 | any trace on the mutable objects is the run of the step functions, so the exchange theorems hold of them |
| Proxy.LengthAgrees | src/proxy.rs:403-418 | after the rewrite there is exactly one Content-Length, it is the decimal length, and it parses back to it |
| Proxy.ProxyService.ForwardRequest | src/proxy.rs:274-283 | the forwarded headers: no Host, identity encoding if predicted, hop-by-hop removed |
| Proxy.ForwardedValues | src/proxy.rs:274-283 | the forwarded headers name by name: no Host, nothing about this hop, identity if forced, all else as the client sent it |
| Proxy.ProxyService.Buffer | src/proxy.rs:366-437 | the buffered branch, whose two phases answer with the one-pass result over the whole response, its length set |
| Proxy.ProxyService.Respond | src/proxy.rs:327-437 | strip, plan, stream or buffer, with the capture set to match |
| Proxy.ProxyService.Handle | src/proxy.rs:205-439 | one call: the reply, the forwarded headers and the capture operations of the specification on every path |
| Proxy.ProxyService.Exchange | src/proxy.rs:205-439 | `handle` and then the response body's life on the mutable objects: exactly one event is added to what the writer was offered, the expected one |
| Proxy.PlaintextRequested | src/proxy.rs:237-283 | buffering is always predicted; Accept-Encoding goes upstream as exactly identity when predicted, else as the client sent it, unless the first Connection value removes it |
| Proxy.BufferedEventAgrees | src/proxy.rs:384-428 | a buffered exchange: one Content-Length equal to the length of the body sent, the same length recorded, and on success digest, preview and truncation flag of exactly that body |
| Proxy.HandleCompletes | src/proxy.rs:205-439 | what `handle` does, followed by the response body's life, is a complete exchange |
| Proxy.HandledExchange | src/proxy.rs:205-439 | from request to dropped body, whatever was offered before: exactly one more event, as the verdict demands, rejected or failed iff the reply is the proxy's own |
| Proxy.StreamedResponse | src/proxy.rs:329-365 | a streamed reply has the status and the headers one pass over the response would give, whatever its body, and that pass would leave the body alone; the recorded length is the one sent |
| Proxy.BufferedResponse | src/proxy.rs:366-437 | a buffered reply is the one pass over the whole response: its status, its body, every header but Content-Length, and that is the length of this body; the recorded length is the one sent |
| Proxy.GatewayIff | src/proxy.rs:209-414 | how each call is answered: 421, 400, 502 and 504 with their recorded errors, and after a response 502 iff a rule fails or a body to be buffered cannot be collected; otherwise buffered iff some rule is the first to need the body |
| Manager.SnapshotTruthful | src/runtime_manager.rs:93-224 | every serial run keeps: the summary describes the active runtime, pending_reload holds iff saved and active configuration differ or a reload failure is recorded, and, without outside edits or torn writes, the saved configuration is on disk |
| Manager.EverySerialRun | src/runtime_manager.rs:52-71 | the same in every serial run from a successful start |
| Manager.PendingThoughEqual | src/runtime_manager.rs:192-221 | a reload that falls back leaves pending_reload set though saved, active and stored configuration agree |
| Manager.ReloadOutcome | src/runtime_manager.rs:141-224 | when a reload leaves a runtime, when it is Ok, which configuration runs after Ok and after Err, and what of the snapshot changes |
| Manager.ReloadFailure | src/runtime_manager.rs:146-222 | why a reload failed, and which failures are noted |
| Manager.SaveOutcome | src/runtime_manager.rs:93-132 | a save is Ok iff the configuration is valid and written; then file and saved configuration are this one and the runtime is kept; an invalid one changes nothing, a failed write at most the file |
| Manager.ShutdownOutcome | src/runtime_manager.rs:226-241 | a shutdown takes the runtime and changes nothing else; it is Ok iff there was one and it stopped |
| Manager.NoRuntimeIsForever | src/runtime_manager.rs:146-153 | without a runtime every later reload and shutdown fails and none comes back |
| Manager.UnreadableFileStopsProxy | src/runtime_manager.rs:150-158 | reloading an unreadable file leaves no runtime, for good |
| Manager.RuntimeManager.SaveConfig | src/runtime_manager.rs:93-132 | the mutable save is the serial save |
| Manager.RuntimeManager.Reload | src/runtime_manager.rs:141-224 | the mutable take-and-restore reload is the serial reload |
| Manager.RuntimeManager.Shutdown | src/runtime_manager.rs:226-241 | the mutable shutdown is the serial shutdown |
| ManagerConcurrent.StepKeepsLicence | src/runtime_manager.rs:141-241 | every step keeps one licence to run: in the slot, with one operation, or gone |
| ManagerConcurrent.SingleOwner | src/runtime_manager.rs:141-241 | in every interleaving at most one runtime exists, one is started only when none does, and none is overwritten in the slot |
| ManagerConcurrent.StaysDown | src/runtime_manager.rs:150-153 | once the licence is gone no interleaving starts a runtime again |
| ManagerConcurrent.OnlyValidStored | src/runtime_manager.rs:101-126 | in every interleaving the file changes only by an outside edit or by a save whose configuration was answered valid before, and what is published as saved is such a configuration or the one a reload read |
| ManagerConcurrent.ReloadAlone | src/runtime_manager.rs:141-224 | an uninterrupted interleaved reload is the serial reload, on every outcome |
| ManagerConcurrent.SaveAlone | src/runtime_manager.rs:93-132 | an uninterrupted interleaved save is the serial save |
| ManagerConcurrent.ShutdownAlone | src/runtime_manager.rs:226-241 | an uninterrupted interleaved shutdown is the serial shutdown |
| ManagerConcurrent.SerialSchedule | src/runtime_manager.rs:93-241 | every schedule in which operations do not overlap is the serial run of these operations |
| ManagerConcurrent.SerialScheduleTruthful | src/runtime_manager.rs:93-241 | so its snapshot is truthful |
| ManagerSnapshot.StepAgrees | src/runtime_manager.rs:102-190 | a step that installs no runtime against a pending publication keeps every pending publication true of the runtime in the slot or of the one that may come back |
| ManagerSnapshot.ConflictlessRun | src/runtime_manager.rs:93-224 | in every interleaving without such a conflict, when no reload has an outcome to publish, no pending reload means that the saved configuration runs |
| ManagerSnapshot.OrderlyRun | src/runtime_manager.rs:167-190 | if moreover no reload misses the runtime it installed while the snapshot does not fit the one that may come back, the summary describes the running one whenever no announcement is outstanding |
| ManagerSnapshot.OrderlyIff | src/runtime_manager.rs:93-224 | a run satisfies both conditions iff at each of its moments the next publication is true and, unless an announcement is outstanding, the snapshot fits the runtime in the slot and the one that may come back |
| ManagerSnapshot.ConflictIff | src/runtime_manager.rs:102-190 | after an install, another operation that finishes next publishes the truth iff the new runtime has the configuration it claims; so for the summary of a reload past its look-up |
| ManagerSnapshot.ConflictlessIff | src/runtime_manager.rs:93-224 | a run is free of conflicts iff at each of its moments whichever operation finishes next publishes the truth |
| ManagerSnapshot.MissedIff | src/runtime_manager.rs:176-221 | a reload misses its runtime and the other puts it back: the summary is right iff it described that configuration all along |
| ManagerSnapshot.ReloadReloadRace | src/runtime_manager.rs:167-190 | for any three configurations, two overlapping reloads that end with nothing pending, saved configuration and summary being those of a runtime that is gone |
| ManagerSnapshot.MissedRuntime | src/runtime_manager.rs:176-221 | two overlapping reloads that end with a summary of the runtime before both |
| ManagerSnapshot.SaveReloadRace | src/runtime_manager.rs:102-126 | an overlap of save and reload that ends with nothing pending and a saved configuration that does not run |
| Admin.OwnedNameInjective | src/admin.rs:1355-1357 | index and suffix can be read back from a field name |
| Admin.KeyTextInjective | src/admin.rs:643-658 | no two fields of the transforms page share a name |
| Admin.Rendered | src/admin.rs:622-662 | the page for a rule list is a form that has each of its fields with its value |
| Admin.TransformsFromForm | src/admin.rs:915-933 | the loop parses as many rules as the count says, in order |
| Admin.TransformsRoundTrip | src/admin.rs:915-933 | parsing a submission of the page for any rule list gives that list, whatever the fallback and whatever else is sent |
| Admin.RuleReads | src/admin.rs:1149-1181 | how the fields of a rule are read, by their names and values |
| Admin.RuleDefaults | src/admin.rs:1149-1181 | fields that are not sent, or types that are not known, are read as an `any` matcher, a `body` target, empty texts and no stop |
| Admin.CountIff | src/admin.rs:919 | the number of rules is the count sent, or that of the fallback if none or no number was sent |
| Admin.ParsedAt | src/admin.rs:920-932 | rule i is read from the fields of index i |
| Admin.CommaListOne | src/admin.rs:1343-1353 | a text without comma is one trimmed entry, or none if blank |
| Admin.CommaListMore | src/admin.rs:1343-1353 | a comma separates lists |
| Admin.CommaListRoundTrip | src/admin.rs:1343-1353 | joining and parsing a list is the identity iff every entry is non-empty, trimmed and free of commas |
| Admin.ParseJoinParse | src/admin.rs:1343-1353 | parse, join, parse equals parse for every text |
| AdminSettings.HttpModeRoundTrip | src/admin.rs:1255-1274 | every HTTP mode is parsed from its printed value |
| AdminSettings.ModeNames | src/admin.rs:1255-1274 | the names under which the modes are shown and read |
| AdminSettings.FormCodecsCarry | src/admin.rs:1276-1353 | for each kind of field exactly which values survive being shown and read |
| AdminSettings.PageNameInjective | src/admin.rs:388-410 | no two fields of the settings page share a name |
| AdminSettings.NamesAgree | src/admin.rs:870-913 | every field is looked up under the name the page gives it |
| AdminSettings.SettingsPage | src/admin.rs:388-410 | the page for given settings is a form that has each of its fields with its value |
| AdminSettings.RenderedCarries | src/admin.rs:870-913 | the record survives iff each field does: none is shown or read as another or with another's fallback |
| AdminSettings.SettingsRoundTrip | src/admin.rs:870-913 | parsing a submission of the settings page, whatever else is sent, is the identity iff no path is blank unless it is the fallback's, no optional text is blank and list entries are plain |
| AdminSettings.EmptyForm | src/admin.rs:870-913 | a form without its fields gives the fallback, with both boxes unchecked |
| AdminSettings.NumberIff | src/admin.rs:1327-1341 | a number that can be read is its value, any other text leaves the fallback |
| AdminSettings.SentBoxIsChecked | src/admin.rs:908-909 | a box counts as checked iff its field was sent, whatever its value |
| AdminSettings.UnknownMode | src/admin.rs:1264-1274 | a mode that is not known leaves the fallback |

## Left out

- TLS, certificates, fingerprints and the backend probe (src/tls.rs, src/probe.rs): wrappers over other libraries.
- Listener, executor, connection pool and signals (src/proxy.rs outside `handle`): network plumbing.
- Admin views, routing, result listing, and the editor buttons that add, move and remove rules: user interface; what a browser does to a value before it is sent is not modelled either.
- Entities, migrations and the copy of an event into a row (src/entity.rs, src/migration.rs, src/writer.rs:276-344): long and uniform.
- Glob, SHA-256, base64, JSON, URL parsing and lossy UTF-8 decoding: library code, taken as arbitrary functions.
- Clocks, durations, UUIDs, logging and poisoned locks.
- Event fields that are copied from the request or the response without a decision: addresses, logged headers, cookies, versions, reason phrase; `authority_host`, forwarded headers and cookie parsing with them.
- Cancellation of `handle` before it returns: the capture has no destructor and promises no event then.
- The request-side body wrapper beyond the bytes it observes: it has no writer and finalizes nothing.
- The branch of `handle` for a Content-Length that is no header value (src/proxy.rs:407-414): `Proxy.LengthAgrees` shows it cannot be taken.
- A transaction that persists its rows and yet reports failure; its rows would be written again by the next flush.
- Validation of settings and the reading and writing of the file (src/config.rs): whether they succeed is an input of save and reload.
- Live counters in the runtime summary; only its configuration-derived fields are modelled, as the configuration they come from.
- What the tasks of a dropped runtime do until they notice; ownership is of the runtime value.
- WriterTask.WriterState.DrainPendingEvents: only the first drain loop, in which no sender interferes; the second loop waits between messages and is the interleaved steps of `Execute`.
- Admin.TransformsRoundTrip: for lists of at most 2^64 - 1 rules, the longest a vector can be.
- AdminSettings.SettingsRoundTrip: paths are their text; a path that is not valid Unicode is not modelled.
- WriterBacklog.BacklogBoundReached: for a positive channel capacity, which the settings are validated for; a channel of capacity 0 accepts nothing.
- WriterProgress.ShutdownEnds: nobody sends meanwhile; senders that never pause for 100 ms keep the drain going for ever. That the task gets its turn, and that a transaction ends, is left to the scheduler and the database.
- Compiled patterns are their text; two rules with equal patterns are equal.

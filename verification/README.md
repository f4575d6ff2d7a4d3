# Verified models of the benchmark suite's engines and libraries

Dafny models of the parts of this repository that hold real algorithms, with proofs. Most of the
repository is glue around containers; what is modelled here is

* the httperf engine of the media-streaming client: call rings, connection queues, reference counts
  and the burst scheduler (`CallRing`, `RefLedger`, `SessionWiring`, `SessionWorld`, `BurstHistory`,
  `BurstSession`, `BurstRest`); the resumable HTTP reply parser (`HttpParser`, `HttpBlocks`, `HttpChunked`,
  `HttpPipeline`, `HttpReader`, `HttpLimits`); the timer wheel (`TimerMemory`, `TimerState`,
  `TimerFree`, `TimerHeader`, `TimerWheel`, `TimerLate`); partial writes (`RequestVector`) and the
  address table (`AddressTable`);
* org.json of the web-serving driver: printer, tokener and parser (`JsonText`, `JsonSyntax`,
  `JsonRoundTrip`, `JsonTokener`, `JsonPrinter`, `JsonAccepted`), the push-down writer (`JsonDocument`,
  `JsonCalls`, `JsonFinished`, `JsonWriter`), and the search of the XML tokener (`XmlTokener`);
* GNU getopt with its permutation of the argument vector (`GetoptSpec`, `Getopt`);
* the rank bookkeeping of the workload generator (`VideoRanks`).

Code that changes things step by step is a class or a method with the source's fields and loops,
proved against specification functions; what the source promises is proved about those. The
environment (bytes read and written, failures, clock, random numbers, callbacks) is a parameter and
arbitrary: `BurstSession.Run` takes any sequence of events, `TimerWheel.Timers.Tick` any callback
scripts, `HttpReader.ReadReplies` any reads.

Where code and documentation differ, the code is followed. JSONWriter says that values nest up to 20
levels deep; its limit is 200. make_zipf's comments say that ranks 0 and 1 go to videos close to the
median and that the loop finds the closest one: a video that has rank 0 to begin with is passed over,
and a first video that is closest loses rank 0 again. req.size keeps growing when a request is sent
again.

Properties that are not true of the code without a condition are stated with that condition, and the
condition is shown to be necessary: `HttpLimits` (NUL bytes, line length, wrap-around),
`HttpPipeline.ReadsExact`, `BurstRest.RunToRest`, `TimerLate.LateRoundMissed`,
`RequestVector.CutAndResend`, `AddressTable.IndexInRange`, `VideoRanks.ClosestChosen`,
`VideoRanks.ClosestGetsRankZero` and `VideoRanks.CreateRandomRanks`.

`dafny verify dfyconfig.toml` checks everything.

## Model

| member | source | states |
|---|---|---|
| `CallRing.PushAppends` | benchmarks/media-streaming/client/files/videoperf/gen/session.c:453-483 | storing a call at `wr` appends it to the calls the ring waits for, and keeps `wr == (rd + num_pending) % 32` |
| `CallRing.AnsweredRemovesFirst` | benchmarks/media-streaming/client/files/videoperf/gen/session.c:350-367 | advancing `rd` removes exactly the oldest call of the ring and keeps its shape |
| `SessionWiring.IssueStep` | benchmarks/media-streaming/client/files/videoperf/gen/session.c:453-483 | a call pushed onto one ring leaves every slot wired to its connection, and adds one reference that the ring accounts for |
| `SessionWiring.SendStep` | benchmarks/media-streaming/client/files/videoperf/gen/session.c:215-222 | handing the next ring entry to the connection keeps receive queue followed by send queue equal to the sent prefix of the ring |
| `SessionWiring.ReplyMatchesRing` | benchmarks/media-streaming/client/files/videoperf/gen/session.c:350-362 | whenever an open connection has a call waiting for its reply, that call is the one at `rd` of the slot's ring, so the assertion in call_done holds |
| `SessionWiring.ReplyStep` | benchmarks/media-streaming/client/files/videoperf/core.c:645-662 | recv_done and call_done take the same call off queue and ring, and the wiring of all slots survives |
| `SessionWorld.QueuedTwice` | benchmarks/media-streaming/client/files/videoperf/core.c:1355-1393 | every call queued on a connection is also held by its ring, so closing the connection never destroys a call |
| `SessionWorld.ReconnectOk` | benchmarks/media-streaming/client/files/videoperf/gen/session.c:283-309 | after a failure the slot has a fresh connection and an unchanged ring with nothing sent; rings, queues and reference counts still agree for all slots, although the old connection is closed after the new one exists |
| `SessionWorld.ReplyOk` | benchmarks/media-streaming/client/files/videoperf/core.c:645-662 | a reply completes the calls of a slot in the order in which they were issued to it |
| `SessionWorld.FullSlots` | benchmarks/media-streaming/client/files/videoperf/gen/session.c:453-483 | when no slot has room, max_conns * max_piped calls are outstanding: while there are fewer, some slot has room |
| `BurstHistory.BarrierStep` | benchmarks/media-streaming/client/files/videoperf/gen/videosesslog.c:474-496 | when the log of a run already shows the destruction of every call of the earlier bursts, and of the first of this burst unless the next call is that one, issuing the next call keeps the think-time barrier: each awaited destruction stands before the issue |
| `BurstHistory.CallIssuedLogged` | benchmarks/media-streaming/client/files/videoperf/gen/videosesslog.c:225-329 | with the next request of the burst issued, the log still accounts in order for all that was requested, destroyed and completed, numbers the calls as they were issued, and keeps the barrier |
| `BurstHistory.HandedStep` | benchmarks/media-streaming/client/files/videoperf/gen/session.c:453-483 | a new call appended to the history of one slot keeps every call in exactly one such history, once, and each history in the order of creation |
| `BurstHistory.IdleDestroyed` | benchmarks/media-streaming/client/files/videoperf/object.c:128-164 | with no call in any ring, every call created so far has been destroyed |
| `BurstHistory.RequestedPrefix` | benchmarks/media-streaming/client/files/videoperf/gen/videosesslog.c:225-329 | finished bursts followed by part of the next one are a prefix of the flattened template |
| `BurstSession.Session.ObjectDecRef` | benchmarks/media-streaming/client/files/videoperf/object.c:157-164 | a call is destroyed exactly when its last reference goes, and every call is either referenced or has been destroyed exactly once |
| `BurstSession.Session.CoreClose` | benchmarks/media-streaming/client/files/videoperf/core.c:1355-1393 | both queues are emptied, each queued call loses one reference, and no call is destroyed by that |
| `BurstSession.Session.SendCalls` | benchmarks/media-streaming/client/files/videoperf/gen/session.c:199-223 | a connected slot has sent all its pending calls afterwards, in ring order; other slots are untouched |
| `BurstSession.Session.SessionIssueCall` | benchmarks/media-streaming/client/files/videoperf/gen/session.c:453-483 | with fewer than max_conns * max_piped calls outstanding the exit for too many pending calls is not reached: the first slot with room takes the call behind all it got before, the other slots are untouched, and the call is held by a ring |
| `BurstSession.Session.IssueCalls` | benchmarks/media-streaming/client/files/videoperf/gen/videosesslog.c:225-329 | exactly one call for a burst not begun, otherwise all that are left of it as far as they fit, are issued in template order behind the barrier, each to one slot; `current_req` stays within the burst |
| `BurstSession.Session.PrepareForNextBurst` | benchmarks/media-streaming/client/files/videoperf/gen/videosesslog.c:419-457 | the next burst is armed only when every call of the finished ones has been destroyed; then a think time is pending and nothing is outstanding |
| `BurstSession.Session.CallDestroyed` | benchmarks/media-streaming/client/files/videoperf/gen/videosesslog.c:459-497 | after any destroyed call the session is in good standing: more calls issued, next burst armed, or all work done, the last exactly when all calls have been destroyed |
| `BurstSession.Session.SessDestroyed` | benchmarks/media-streaming/client/files/videoperf/gen/session.c:225-251 | all connections are closed and every call of every ring loses its reference; nothing is left |
| `BurstSession.Session.TakeReply` | benchmarks/media-streaming/client/files/videoperf/gen/session.c:326-367 | the call taken off the ring is the one whose reply arrived, the oldest issued to the slot |
| `BurstSession.Session.Reconnect` | benchmarks/media-streaming/client/files/videoperf/gen/session.c:297-302 | a failed connection is replaced; no call is lost, destroyed or reordered |
| `BurstSession.Session.OnConnected` | benchmarks/media-streaming/client/files/videoperf/gen/session.c:253-281 | once connected, the new connection's queues hold exactly the calls the ring waits for, in order: everything unanswered is replayed |
| `BurstSession.Session.OnReply` | benchmarks/media-streaming/client/files/videoperf/core.c:741-767 | a complete reply completes the oldest pending call of its slot and destroys it; in pipelined HTTP/1.0 the slot is then stranded with its other calls |
| `BurstSession.Session.OnConnFailure` | benchmarks/media-streaming/client/files/videoperf/gen/session.c:283-309 | a failure ends the session exactly when the slot had no reply before and retry_on_failure is off; otherwise the ring is replayed |
| `BurstSession.Session.OnThinkTimeExpired` | benchmarks/media-streaming/client/files/videoperf/gen/videosesslog.c:331-342 | after the think time exactly one call is issued, and every earlier call is among those destroyed |
| `BurstSession.Deliver` | benchmarks/media-streaming/client/files/videoperf/core.c:1532-1584 | every event the environment can deliver keeps the whole invariant of the session |
| `BurstSession.Run` | benchmarks/media-streaming/client/files/videoperf/gen/videosesslog.c:360-497 | for any sequence of events, ended or not, one log of issues, completions and destructions accounts in order for all of them; in it call c is for request c of the template, and before it is issued stand the destructions of all calls of the earlier bursts and, unless it is the first of its burst, of that one; every call went to one slot, once; each slot completes its calls in the order it got them; no call is destroyed twice, and without a failure exactly the completed ones are destroyed. A session that ends holds no reference and has only closed connections; one that ends without failure has completed every request exactly once, and does so only if it is not pipelined HTTP/1.0 with a burst of three requests or more; all others always have something to wait for |
| `BurstSession.Progress` | benchmarks/media-streaming/client/files/videoperf/gen/videosesslog.c:474-496 | a running session has a pending think time exactly when no slot waits for a reply or a connection, unless it is pipelined HTTP/1.0 with a burst of three requests or more |
| `BurstRest.RunToRest` | benchmarks/media-streaming/client/files/videoperf/gen/videosesslog.c:360-497 | for every template and configuration, a run without failures comes to rest; it has then ended, with every request completed once, if and only if it is not pipelined HTTP/1.0 with a burst of three requests or more; otherwise it hangs: no think time is pending, no slot waits for a reply or a connection, and calls are left in a ring that no connection will carry |
| `HttpParser.FeedSplit` | benchmarks/media-streaming/client/files/videoperf/http.c:437-496 | the byte-wise reference parser does not depend on where the stream is cut |
| `HttpBlocks.ProcessIsFeed` | benchmarks/media-streaming/client/files/videoperf/http.c:437-496 | for every buffer of a clean stream the block parser with its cursors and resumption points leaves the same state, output and leftover as the byte-wise reference |
| `HttpBlocks.FragmentationIndependence` | benchmarks/media-streaming/client/files/videoperf/http.c:437-496 | processing a stream in one read or cut into two at any point gives the same state, line buffer, headers, footers, body, counters and leftover |
| `HttpLimits.NulLimit` | benchmarks/media-streaming/client/files/videoperf/http.c:46-97 | a header line that fits the buffer is independent of how it is read if and only if it contains no NUL |
| `HttpLimits.LengthLimit` | benchmarks/media-streaming/client/files/videoperf/http.c:46-97 | a NUL-free header line is independent of how it is read if and only if it fits the line buffer with its line end |
| `HttpLimits.WrapLimit` | benchmarks/media-streaming/client/files/videoperf/http.c:326-363 | after a chunk size line the next bytes are body bytes if and only if the announced total does not wrap around |
| `HttpChunked.ChunkedRoundTrip` | benchmarks/media-streaming/client/files/videoperf/http.c:263-363 | decoding an encoded body delivers the concatenation of the chunks and the trailer lines, counts its length, and stops right behind the final empty line (section 4.1 of RFC 7230) |
| `HttpChunked.ChunkedReadsRoundTrip` | benchmarks/media-streaming/client/files/videoperf/http.c:326-363 | the same for the block parser and every way of cutting the encoded body into reads |
| `HttpChunked.HexIsSizeLine` | benchmarks/media-streaming/client/files/videoperf/http.c:326-363 | the hexadecimal text of every size is read back as that size |
| `HttpPipeline.DoRecvExact` | benchmarks/media-streaming/client/files/videoperf/core.c:741-783 | the shortcut of do_recv agrees with the parser if and only if the read does not end inside a reply whose announced length is zero so far |
| `HttpPipeline.ReadsExact` | benchmarks/media-streaming/client/files/videoperf/core.c:741-783 | the same for any sequence of reads of a clean stream: the queued calls get what is theirs after every read if and only if no read ends inside a reply whose announced length is zero so far |
| `HttpPipeline.CompletedTooEarly` | benchmarks/media-streaming/client/files/videoperf/core.c:741-783 | such reads exist: for every status line, a read that ends behind a header content-length:0 completes the reply while its header block is still open |
| `HttpPipeline.PipelinedReplies` | benchmarks/media-streaming/client/files/videoperf/core.c:741-783 | for any messages with a non-empty body and any reads, the k-th queued call receives exactly the status, headers and body of the k-th message, and after no read does content_bytes exceed content_length |
| `HttpPipeline.WithinLength` | benchmarks/media-streaming/client/files/videoperf/core.c:741-783 | on every clean stream without a zero announced length, content_bytes is within content_length after each read |
| `HttpReader.Reader.GetLine` | benchmarks/media-streaming/client/files/videoperf/http.c:46-97 | the imperative line reader equals its specification for every buffer, complete or not |
| `HttpReader.Reader.ParseStatusLine` | benchmarks/media-streaming/client/files/videoperf/http.c:99-193 | the status line is read as specified, across any number of reads |
| `HttpReader.Reader.ParseHeaders` | benchmarks/media-streaming/client/files/videoperf/http.c:195-261 | header lines are delivered and interpreted as specified until the empty line |
| `HttpReader.Reader.ParseFooters` | benchmarks/media-streaming/client/files/videoperf/http.c:263-294 | trailer lines are delivered as specified until the empty line |
| `HttpBlocks.DataTaken` | benchmarks/media-streaming/client/files/videoperf/http.c:296-324 | parse_data takes what is there but no more than is due, counts it without wrapping around, never beyond content_length, and tells whether the body is complete |
| `HttpReader.Reader.XferChunked` | benchmarks/media-streaming/client/files/videoperf/http.c:326-363 | chunk size lines and chunk data are taken as specified until the buffer or the body ends |
| `HttpReader.Reader.ProcessReplyBytes` | benchmarks/media-streaming/client/files/videoperf/http.c:437-496 | the dispatch loop equals its specification for every state and buffer |
| `HttpReader.Reader.DoRecv` | benchmarks/media-streaming/client/files/videoperf/core.c:741-783 | one read is distributed over the queued calls as specified |
| `HttpReader.ReadReplies` | benchmarks/media-streaming/client/files/videoperf/core.c:741-783 | running the reader over any reads of a stream of messages yields exactly the replies, in order |
| `TimerMemory.InsertLinked` | benchmarks/media-streaming/client/files/videoperf/timer.c:160-175 | linking a timer behind any place of a spoke gives the list with it inserted there, with deltas that encode the same due ticks |
| `TimerMemory.RemoveLinked` | benchmarks/media-streaming/client/files/videoperf/timer.c:184-207 | unlinking gives the list without the timer, and its successor takes over the delta |
| `TimerState.ScheduleGood` | benchmarks/media-streaming/client/files/videoperf/timer.c:115-182 | a timer put at its place keeps the refinement: each spoke holds the timers due there, ordered by due tick, last scheduled first |
| `TimerState.AdvanceGood` | benchmarks/media-streaming/client/files/videoperf/timer.c:99-108 | turning the wheel by one tick brings what is left on the spoke one round closer; all due ticks stay what they were |
| `TimerState.ToldFire` | benchmarks/media-streaming/client/files/videoperf/timer.c:91-98 | firing follows the due ticks and, among equal ones, the last scheduled timer comes first; each timer fires at its due tick |
| `TimerState.PastTimersFired` | benchmarks/media-streaming/client/files/videoperf/timer.c:78-113 | a timer due before the current tick and not cancelled has fired, once, at its due tick |
| `TimerFree.AllocateFree` | benchmarks/media-streaming/client/files/videoperf/timer.c:124-139 | a timer taken from the free list or from malloc is not scheduled and not free any more; the rest of the free list stays intact |
| `TimerWheel.DelayBound` | benchmarks/media-streaming/client/files/videoperf/timer.c:143-160 | with nextTick <= now + I, a timer with delay d >= 0 is due in (now + d - I/2, now + d + 2I], also when the wheel is behind |
| `TimerWheel.Timers.constructor` | benchmarks/media-streaming/client/files/videoperf/timer.c:69-76 | timer_init establishes the invariant of an empty wheel |
| `TimerWheel.Timers.FindPlace` | benchmarks/media-streaming/client/files/videoperf/timer.c:156-166 | the walk along the spoke stops behind everything due earlier and in front of everything else |
| `TimerWheel.Timers.Schedule` | benchmarks/media-streaming/client/files/videoperf/timer.c:115-182 | exactly one timer more is scheduled, due the computed number of ticks from now and within the delay bound, whether called between ticks or from a callback |
| `TimerWheel.Timers.Cancel` | benchmarks/media-streaming/client/files/videoperf/timer.c:184-208 | exactly that timer is not scheduled any more; cancelling the active timer changes nothing |
| `TimerWheel.Timers.FireFirst` | benchmarks/media-streaming/client/files/videoperf/timer.c:91-98 | the due timer runs its callback and is freed; fewer timers are due now, whatever the callback schedules or cancels |
| `TimerWheel.Timers.TickOnce` | benchmarks/media-streaming/client/files/videoperf/timer.c:88-109 | one turn fires all timers due at the current tick and moves on by one tick and one interval |
| `TimerWheel.Timers.Tick` | benchmarks/media-streaming/client/files/videoperf/timer.c:78-113 | after a tick at any later clock time exactly the uncancelled timers whose due time has come have fired, each once, in order, for all callback scripts |
| `TimerLate.LateRoundMissed` | benchmarks/media-streaming/client/files/videoperf/timer.c:156-175 | in every state of the timers once one has been fired in the current tick, linking the next timer wherever the walk from the header of the current spoke stops does not get it onto that spoke: scheduling full rounds then is missed, the precondition of Schedule is necessary |
| `TimerHeader.LateFire` | benchmarks/media-streaming/client/files/videoperf/timer.c:91-98 | from the first timer freed in a tick on the header of the current spoke points off its list |
| `TimerHeader.LateSchedule` | benchmarks/media-streaming/client/files/videoperf/timer.c:156-175 | it still does after another timer has been scheduled |
| `JsonRoundTrip.ObjectRoundTrip` | benchmarks/web-serving/faban_client/files/web20_benchmark/src/org/json/JSONObject.java:191-235 | for every tree with distinct keys, 64-bit integers and any UTF-16 strings, and every indentFactor >= 0, parsing the printed object gives the tree and consumes the whole text |
| `JsonRoundTrip.ArrayRoundTrip` | benchmarks/web-serving/faban_client/files/web20_benchmark/src/org/json/JSONArray.java:102-131 | the same for arrays |
| `JsonRoundTrip.ValueRead` | benchmarks/web-serving/faban_client/files/web20_benchmark/src/org/json/JSONTokener.java:354-391 | the printed text of a value, wherever it stands in a larger text, is read back and nothing behind it is touched |
| `JsonRoundTrip.EscapeRead` | benchmarks/web-serving/faban_client/files/web20_benchmark/src/org/json/JSONObject.java:1216-1273 | every escape sequence that quote writes is read back as its character |
| `JsonRoundTrip.LongRead` | benchmarks/web-serving/faban_client/files/web20_benchmark/src/org/json/JSONObject.java:1335-1378 | the decimal text of every 64-bit integer is read back as that integer |
| `JsonAccepted.AcceptedSurvives` | benchmarks/web-serving/faban_client/files/web20_benchmark/src/org/json/JSONObject.java:191-235 | whatever object text was accepted, printing its tree with any indentation and parsing again gives the same tree, floating-point numbers aside |
| `JsonAccepted.ObjectProper` | benchmarks/web-serving/faban_client/files/web20_benchmark/src/org/json/JSONObject.java:1163-1171 | an accepted object has no key twice, at any depth, and its integers fit 64 bits |
| `JsonTokener.Tokener.Back` | benchmarks/web-serving/faban_client/files/web20_benchmark/src/org/json/JSONTokener.java:94-102 | steps back one character unless that has just been done or nothing has been read |
| `JsonTokener.Tokener.Next` | benchmarks/web-serving/faban_client/files/web20_benchmark/src/org/json/JSONTokener.java:149-178 | delivers the character at the index, pushed back or not, and zero past the end |
| `JsonTokener.Tokener.More` | benchmarks/web-serving/faban_client/files/web20_benchmark/src/org/json/JSONTokener.java:134-141 | true exactly when the next character is not the end, a pushed-back end aside, and then the tokener stands where it stood |
| `JsonTokener.Tokener.NextMany` | benchmarks/web-serving/faban_client/files/web20_benchmark/src/org/json/JSONTokener.java:207-223 | fails exactly when the end is met among the next n characters, else delivers them, from any state |
| `JsonTokener.Tokener.NextClean` | benchmarks/web-serving/faban_client/files/web20_benchmark/src/org/json/JSONTokener.java:231-238 | delivers the next character that is not white space, or the end, from every state |
| `JsonTokener.Tokener.NextString` | benchmarks/web-serving/faban_client/files/web20_benchmark/src/org/json/JSONTokener.java:252-300 | equals the string specification from every state, errors included; a tokener that has returned the end refuses the digits of an escape |
| `JsonTokener.Tokener.NextValue` | benchmarks/web-serving/faban_client/files/web20_benchmark/src/org/json/JSONTokener.java:354-391 | equals the parser specification from every state of the tokener, terminates, and never steps back twice |
| `JsonTokener.Tokener.ReadObject` | benchmarks/web-serving/faban_client/files/web20_benchmark/src/org/json/JSONObject.java:191-235 | equals the object specification from every state of the tokener, with each error in its place |
| `JsonTokener.Tokener.ReadArray` | benchmarks/web-serving/faban_client/files/web20_benchmark/src/org/json/JSONArray.java:102-131 | equals the array specification from every state of the tokener, nulls for missing elements included |
| `JsonPrinter.Printer.WriteQuoted` | benchmarks/web-serving/faban_client/files/web20_benchmark/src/org/json/JSONObject.java:1216-1273 | writes the quoted string |
| `JsonPrinter.Printer.WriteValue` | benchmarks/web-serving/faban_client/files/web20_benchmark/src/org/json/JSONObject.java:1597-1632 | writes the text of any value |
| `JsonPrinter.Printer.WriteObject` | benchmarks/web-serving/faban_client/files/web20_benchmark/src/org/json/JSONObject.java:1649-1694 | writes an object, with the special case of a single member |
| `JsonPrinter.Printer.WriteArray` | benchmarks/web-serving/faban_client/files/web20_benchmark/src/org/json/JSONArray.java:946-981 | writes an array, with the special case of a single element |
| `JsonPrinter.PrintAndParse` | benchmarks/web-serving/faban_client/files/web20_benchmark/src/org/json/JSONObject.java:1460-1465 | running the printer and then the parser returns the tree |
| `JsonDocument.StepText` | benchmarks/web-serving/faban_client/files/web20_benchmark/src/org/json/JSONWriter.java:110-282 | what each call writes takes the text of the partial document to the text of the document after the call |
| `JsonDocument.ArrayText` | benchmarks/web-serving/faban_client/files/web20_benchmark/src/org/json/JSONArray.java:946-981 | the compact text of an array is its elements with commas between them |
| `JsonCalls.RunCalls` | benchmarks/web-serving/faban_client/files/web20_benchmark/src/org/json/JSONWriter.java:110-282 | the document of a run stands for exactly the calls of the run, in their order; once finished, the tree's own calls are the calls made |
| `JsonCalls.EveryTreeBuilt` | benchmarks/web-serving/faban_client/files/web20_benchmark/src/org/json/JSONWriter.java:141-246 | the calls of every tree with distinct keys nested at most 200 deep are accepted and build that tree |
| `JsonFinished.FinishedProper` | benchmarks/web-serving/faban_client/files/web20_benchmark/src/org/json/JSONWriter.java:202-222 | every finished run leaves an array or object in which no object has a key twice, whatever proper values were appended |
| `JsonFinished.FinishedParses` | benchmarks/web-serving/faban_client/files/web20_benchmark/src/org/json/JSONWriter.java:110-282 | the text of every finished run is parsed back to its tree, floating-point numbers aside |
| `JsonWriter.Writer.AppendText` | benchmarks/web-serving/faban_client/files/web20_benchmark/src/org/json/JSONWriter.java:110-130 | writes a text with the comma it needs, or refuses and changes nothing |
| `JsonWriter.Writer.Push` | benchmarks/web-serving/faban_client/files/web20_benchmark/src/org/json/JSONWriter.java:275-282 | opens a scope unless 200 are open |
| `JsonWriter.Writer.Pop` | benchmarks/web-serving/faban_client/files/web20_benchmark/src/org/json/JSONWriter.java:254-268 | closes the innermost scope if it is of the given kind, and restores the mode of the one around it |
| `JsonWriter.Writer.BeginArray` | benchmarks/web-serving/faban_client/files/web20_benchmark/src/org/json/JSONWriter.java:141-149 | succeeds exactly where an array may begin and the depth allows, and keeps the output equal to the text of the partial tree |
| `JsonWriter.Writer.BeginObject` | benchmarks/web-serving/faban_client/files/web20_benchmark/src/org/json/JSONWriter.java:234-246 | succeeds exactly where an object may begin and the depth allows; when the depth does not, the brace has already been written |
| `JsonWriter.Writer.EndArrayCall` | benchmarks/web-serving/faban_client/files/web20_benchmark/src/org/json/JSONWriter.java:180-182 | succeeds exactly in an open array |
| `JsonWriter.Writer.EndObjectCall` | benchmarks/web-serving/faban_client/files/web20_benchmark/src/org/json/JSONWriter.java:190-192 | succeeds exactly in an open object that waits for no value |
| `JsonWriter.Writer.WriteKey` | benchmarks/web-serving/faban_client/files/web20_benchmark/src/org/json/JSONWriter.java:202-222 | succeeds exactly in an open object that waits for no value and does not have the key |
| `JsonWriter.Writer.WriteValue` | benchmarks/web-serving/faban_client/files/web20_benchmark/src/org/json/JSONWriter.java:292-326 | succeeds exactly where a value may come |
| `JsonWriter.WriteAll` | benchmarks/web-serving/faban_client/files/web20_benchmark/src/org/json/JSONWriter.java:110-282 | a run succeeds exactly when every call is in order; in mode 'd' the output is the compact text of the tree that the calls describe, an array or object without a repeated key at any depth |
| `JsonWriter.RunAndParse` | benchmarks/web-serving/faban_client/files/web20_benchmark/src/org/json/JSONWriter.java:110-282 | any calls, and the output parsed: a tree comes back exactly when the calls are in order and finish one, and its own calls are the calls made |
| `JsonWriter.WriteAndParse` | benchmarks/web-serving/faban_client/files/web20_benchmark/src/org/json/JSONWriter.java:110-282 | writing any tree call by call and parsing the output gives the tree |
| `XmlTokener.SkipPast` | benchmarks/web-serving/faban_client/files/web20_benchmark/src/org/json/XMLTokener.java:301-364 | finds the first occurrence before the end of the source and stops right behind it; false exactly when there is none |
| `XmlTokener.Rotate` | benchmarks/web-serving/faban_client/files/web20_benchmark/src/org/json/XMLTokener.java:358-362 | the circular buffer always holds the last characters read |
| `Getopt.Scanner.Exchange` | benchmarks/media-streaming/client/files/videoperf/lib/getopt.c:260-314 | exactly the rotation of the two blocks, everything else in place, and it terminates |
| `Getopt.RotateLow` | benchmarks/media-streaming/client/files/videoperf/lib/getopt.c:276-291 | swapping the short lower block with the far end reduces the rotation to a smaller one |
| `GetoptSpec.MatchMeans` | benchmarks/media-streaming/client/files/videoperf/lib/getopt.c:554-579 | a long name is an exact match, or the abbreviation of exactly one option, or ambiguous, or unknown |
| `GetoptSpec.NothingLost` | benchmarks/media-streaming/client/files/videoperf/lib/getopt.c:450-525 | options with their arguments and the other elements together are the vector |
| `Getopt.Scanner.FindLong` | benchmarks/media-streaming/client/files/videoperf/lib/getopt.c:554-579 | the loop over the long options equals its specification |
| `GetoptSpec.ShortMeans` | benchmarks/media-streaming/client/files/videoperf/lib/getopt.c:675-747 | for every list of declared letters, spelled out as an option string: an undeclared letter is reported, one without argument leaves the rest of the element, a required argument is the rest of the element, else the next element, else reported missing, an optional one only the rest of the element |
| `GetoptSpec.LongMeans` | benchmarks/media-streaming/client/files/videoperf/lib/getopt.c:527-648 | for every --name or --name=value, exact or abbreviated: the value is the argument, a required argument is otherwise the next element, a value not wanted or an argument not given is reported |
| `Getopt.Scanner.DecodeElement` | benchmarks/media-streaming/client/files/videoperf/lib/getopt.c:527-747 | one option of the current element is decoded as specified, long, abbreviated or short |
| `Getopt.Scanner.Advance` | benchmarks/media-streaming/client/files/videoperf/lib/getopt.c:450-525 | permuting in place keeps options and other elements in their original orders and finds the next option of the original vector, or the end |
| `Getopt.Scanner.GetOpt` | benchmarks/media-streaming/client/files/videoperf/lib/getopt.c:426-748 | one call reports the next option of the original vector |
| `Getopt.ScanAll` | benchmarks/media-streaming/client/files/videoperf/lib/getopt.c:370-424 | a whole run reports the options of the original vector in order, and leaves options with arguments in front of everything else, both in original order, as a permutation of the vector |
| `RequestVector.Request.Wrote` | benchmarks/media-streaming/client/files/videoperf/core.c:549-569 | bytes written and bytes still in the vector are the request; when it is complete every fragment is as it was set up and the size is counted |
| `RequestVector.Request.CoreSend` | benchmarks/media-streaming/client/files/videoperf/core.c:1246-1319 | protocol line, host and Client-Id header are set up as the source does, on every send; the vector as it then stands is the request |
| `RequestVector.WriteAll` | benchmarks/media-streaming/client/files/videoperf/core.c:489-588 | for any sequence of write results the bytes sent are the first bytes of the request, none lost and none repeated |
| `RequestVector.ResentWhole` | benchmarks/media-streaming/client/files/videoperf/core.c:1246-1319 | without call statistics, a request sent again after a failure is the whole request if and only if no fragment but the protocol line had been written in part |
| `RequestVector.StatisticsGrow` | benchmarks/media-streaming/client/files/videoperf/core.c:1260-1266 | with call statistics every further send adds a header while there is a place for one, so a request that is whole otherwise gets longer |
| `RequestVector.CutAndResend` | benchmarks/media-streaming/client/files/videoperf/core.c:489-588 | any writes of a request, a failure, and core_send: what is to be sent then is the whole request if and only if the bytes written ended between two fragments or inside the protocol line |
| `AddressTable.IndexInRange` | benchmarks/media-streaming/client/files/videoperf/core.c:184-212 | the hash of a non-empty host is below 2^28; the index is within the table if and only if the host is not empty or the port is not negative or a multiple of the table size |
| `AddressTable.FirstMadeIs` | benchmarks/media-streaming/client/files/videoperf/core.c:227-246 | the reference for a lookup: the first entry made for host and port |
| `AddressTable.EnterProbed` | benchmarks/media-streaming/client/files/videoperf/core.c:212-224 | a new entry in the first free slot keeps every entry reachable from its home slot |
| `AddressTable.FoundFirst` | benchmarks/media-streaming/client/files/videoperf/core.c:233-238 | the first match on the probe sequence, around the end of the table, is the first entry made |
| `AddressTable.Table.Enter` | benchmarks/media-streaming/client/files/videoperf/core.c:206-225 | enters one entry and terminates while the table is not full |
| `AddressTable.Table.Lookup` | benchmarks/media-streaming/client/files/videoperf/core.c:227-246 | returns the first entry made for host and port, or nothing if there is none; also on a full table |
| `VideoRanks.Shuffle` | benchmarks/media-streaming/dataset/files/filegen/make_zipf.c:519-524 | the inside-out shuffle yields a permutation for all random numbers |
| `VideoRanks.ChooseMeans` | benchmarks/media-streaming/dataset/files/filegen/make_zipf.c:529-550 | the position chosen for a rank is the closest to the median of position 0 and the videos ranked higher |
| `VideoRanks.ClosestChosen` | benchmarks/media-streaming/dataset/files/filegen/make_zipf.c:529-550 | the position chosen is closest to the median if and only if every video passed over for its rank is matched by one that is considered |
| `VideoRanks.ClosestGetsRankZero` | benchmarks/media-streaming/dataset/files/filegen/make_zipf.c:529-554 | both turns together, in terms of the shuffled ranks and the distances: if a video ranked above 0 is closer than the first one, a closest video ends with rank 0 if and only if the initial holder of rank 0 is the first video or matched by a considered one; otherwise, with the first video at rank 1, if and only if that holder is no farther than it; otherwise if and only if the initial holder of rank 1 is no farther than the first video and, with the first at a rank above 1, the holder of rank 0 is no closer |
| `VideoRanks.FirstLosesRankZero` | benchmarks/media-streaming/dataset/files/filegen/make_zipf.c:529-554 | a first video that alone is closest never ends with rank 0, since the second turn takes it away again |
| `VideoRanks.MoveToMedian` | benchmarks/media-streaming/dataset/files/filegen/make_zipf.c:529-554 | two positions exchange their ranks, so that the chosen one has rank j |
| `VideoRanks.CreateRandomRanks` | benchmarks/media-streaming/dataset/files/filegen/make_zipf.c:506-554 | the ranks are a permutation if and only if there are at least two videos, namely the shuffled one after both turns; a single video ends with rank 1 |
| `VideoRanks.MakeVideoIndex` | benchmarks/media-streaming/dataset/files/filegen/make_zipf.c:704-716 | the index is the exact inverse of the ranks |
| `VideoRanks.PickRank` | benchmarks/media-streaming/dataset/files/filegen/make_zipf.c:848-855 | a sampled rank is the one whose share of the probabilities contains the random number; it is below num_files when the probabilities sum to one at least, and num_files only if they do not |
| `VideoRanks.SampleSessions` | benchmarks/media-streaming/dataset/files/filegen/make_zipf.c:836-866 | the view counters count the sessions of each rank |
| `VideoRanks.QsortDelivers` | benchmarks/media-streaming/dataset/files/filegen/make_zipf.c:891-892 | any sorted permutation of the counters will do, whatever happens to equal counts |
| `VideoRanks.Relabel` | benchmarks/media-streaming/dataset/files/filegen/make_zipf.c:922-935 | after relabelling the number of sessions does not increase with the rank, and the counts sum to the number of sessions |
| `VideoRanks.RankSessions` | benchmarks/media-streaming/dataset/files/filegen/make_zipf.c:836-935 | from the random numbers to the labels, for any qsort and any probabilities that sum to one at least: sessions share a label exactly when they sampled the same rank, the number of sessions does not increase with the label, and the counts sum to the number of sessions |

## Left out

- Sockets, SSL, epoll and select, DNS, reading of log files and all statistics: environment steps or parameters.
- core_connect's synchronous path: connections are established asynchronously, so a connect never fails inside create_conn; malloc never fails.
- retry_on_failure: its effect on a failed connection is modelled, but a reply with the failure status does not occur under it, so a completed call is never issued again.
- BurstSession.Session: slots and connections are values in fields of one object, queues are sequences rather than linked lists, and calls are numbered rather than taken from object.c's free lists; aliasing between call objects and reuse of their memory are not captured.
- BurstSession.Progress: pipelined HTTP/1.0 with a burst of three requests or more is excluded; such a session never ends without failing (Run), and left alone by failures it hangs (BurstRest.RunToRest).
- BurstSession.Session.OnConnFailure: what goes out of a request that was cut off in the middle is RequestVector's matter: ResentWhole says when it is the whole request.
- HttpParser: header_bytes and footer_bytes, verify_reply, and handlers that close the connection while a reply is parsed.
- HttpReader.Reader.ParseStatusLine: for an unparsable status line, version 1.0 and status 599 are set as in the source; unless the request was a HEAD, what follows depends on a variable that the source never set, so the parser stops there.
- HttpPipeline.PipelinedReplies: the queue of calls is the sequence of replies completed so far; replies with an empty body are covered by ReadsExact and CompletedTooEarly only.
- TimerWheel.Timers: memory is a map from timers to their pointers and deltas; func and arg of a timer are the script the tick runs; IEEE rounding and a tick count beyond 64 bits are not modelled.
- TimerWheel.Timers.Callback: a script command that would cancel a timer nobody holds, or schedule full rounds after a timer was freed in the same tick, is not carried out.
- JsonSyntax.ParseHex: digits outside ASCII, which Character.digit also accepts, count as no digits.
- JsonSyntax.ToText: an object used as a key is written in the order its members were read, not in the map's own order.
- JsonText.Value: a floating-point number is known by its texts; which texts denote one is a parameter. Entries of an object are listed in the order its map iterates.
- JsonTokener.Tokener: line and character positions, skipTo and nextTo.
- JSON constructors by reflection, Cookie, CDL, HTTP, XML and JSONML conversions, wrap and the getters: lossy or simple.
- Getopt.Scanner: orderings other than PERMUTE, option strings that select one, an optind moved by the caller, a call after EOF, and the text of error messages; a long option whose val is -1 is told apart from EOF.
- RequestVector.Request.Wrote: the copy of the element behind the vector is an arbitrary fragment.
- RequestVector.ResentWhole: call statistics are off; StatisticsGrow says what they add.
- AddressTable.HashCode: for an empty host the port is passed through as it is.
- VideoRanks.PickRank: exact reals instead of doubles.
- Docker, Hadoop, sysbench and Faban scripts, the web drivers, command-line parsing in httperf.c and the session-log grammar: configuration and I/O.

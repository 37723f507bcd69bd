# Verified models of the HTTP/1.1 server engines

The repository holds several HTTP/1.1 servers (IOCP, epoll, io_uring, poll) and a small library. This
project models the parts in which bytes, queues and flags have to agree over time, and proves what
they promise. Every module is plain Dafny and belongs to one component:

- `Text`, `Numbers`, `Segments`: byte strings (a byte is a `char`), `find`, line ends, decimal numbers,
  transmit segments with end-of-response marks and the batches cut from a queue of them.
- `StreamParser`, `StreamTheorems`, `StreamBlocks`: the StartLine/Headers/Body parser of the IOCP and the
  epoll server.
- `Payload`: the texts that the servers answer with, written out, and that head and body make one message.
- `IocpConnection`, `IocpProtocol`, `IocpInvariant`, `IocpTheorems`, `IocpBudget`, `IocpLiveness`, `IocpAnswers`,
  `IocpRequests`, `IocpClosing`, `IocpDecisions`: one connection of the IOCP server, from `init` to
  `close_and_recycle`. `IocpConnection` has one method per lock section.
  `IocpProtocol` is a state machine over all interleavings: its tasks are the tokens in the completion
  port, the operations outstanding in the kernel and the handlers that run on some worker, cut at their
  lock boundaries. The system has no bound on workers, and kernel, clock and client answer freely.
- `Accumulator`, `AccumulatorTheorems`: the io_uring server's framing, which scans one accumulator again
  after every segment.
- `UringTransmit`, `UringInvariant`, `UringTheorems`, `UringAnswers`, `UringClosing`: batches, roll-back and completions of the io_uring server, and the
  same pipeline in the library. Whether a submission entry can be had is an oracle that may refuse any
  finite number of times.
- `EpollTransmit`, `EpollTheorems`: partial sends with an offset into the first segment, and EPOLLOUT
  interest. The kernel is a function that answers its n-th call.
- `ProcessingMachine`, `ProcessingLanguage`: the library's character-level parser and its exact language.
- `PollWorker`: the poll server's parallel arrays with swap-remove during traversal, on heap objects.
- `Tags`, `ConnTable`: handles packed into 64-bit words, and the generational slot table.
- `ResponsePrinter`: the library's response printer (section 6.3 of RFC 9112).

Code that changes state is a class whose methods are proved equal to a function on the value of their
fields; the theorems are about these functions and about all runs made of them.

What the models show to be different from what a reader may expect, each with its exact condition:

- A request without any header is never framed by the StartLine/Headers/Body parser, because the line
  end of the request line is erased before the empty line is looked for. It is framed if and only if it
  has a header (`RoundTripIffHeader`); behind a request without one, the head of the next request is
  swallowed and parsing resumes in its body (`HeaderlessSwallowsNextHead`).
- A Process run of the IOCP server that takes more segments than its budget lets it parse loses the rest
  (`SegmentsCanBeLost`). Nothing is lost at rest if and only if no run was overrun
  (`QuiescenceMeansDelivery`), and none is on a connection that has received at most sixteen segments
  (`FewSegmentsAreKept`); seventeen are enough.
- The parser throws out of `reserve`, uncaught, if and only if a header block on the way states more than
  can be reserved (`OnSegment`, `ReserveInTwo`, `PipelineReservesIff`). The theorems about the machine hold
  of the code where this guard does.
- The io_uring server adds the stated length to the size of the header block in `size_t`, and `strtoull`
  negates: lengths from -1 down to minus the size of the block, and their positive twins just below
  2^64, wrap the sum. A frame is exact if and only if the sum did not wrap when it was cut (`CutIsExactIff`,
  `FramingIsExactIff`). With a sum of 0 a round erases nothing and the framing loop never ends
  (`ProgressIff`, `LoopEndsUnlessItSpins`); `SpinningRequest` and `StrayRequest` are requests of 39 and 38
  bytes that do either, and `NegativeLength` says what every negative length does. The worker is caught in
  the loop if and only if the bytes received spin (`StuckIffSpinning`, `HangHappens`).
- Apart from that loop a completion leaves an io_uring connection alone in exactly two situations
  (`StepKeepsInv`): a send would block, the poll for writability gets no submission entry, and no kick,
  poll or close is outstanding (`StallHappens`); or the connection is to be closed, no close is outstanding
  and the close gets no entry (`RefusedCloseHappens`), after which only another completion that asks for a
  close can close it (`ClosesIff`).
- A send completion of the io_uring servers that reports fewer bytes than its batch loses the rest: the
  client gets the bytes retired if and only if every completion reported the whole batch
  (`WireIsRetiredIff`).
- The library never marks a segment as the end of a response, so its keep-alive limit never applies
  (`LibraryNeverCounts`).
- A flush of the epoll server counts one response as served if and only if it empties a queue that ends
  in a mark, for every kernel and however many responses it sends (`FlushCounts`, `TwoResponsesCountOnce`).
- The poll server charges an idle writable connection one request per visit (`WritableVisitsAreCharged`).
- An unguarded `close_and_recycle` ends the tenancy of whoever holds the slot
  (`BlindCloseIsGuarded`, `BlindCloseEndsAnotherTenancy`), and its two halves must not be separated by an
  allocation (`AllocationBetweenHalves`).
- A response whose handler sets its own Content-Length is delimited if and only if that value is right
  (`OwnLengthDecides`).
- The user data of the rings loses the top three bits of the descriptor (`UserDataRoundTrip`), and the
  library's operations above 7 come back as others (`WideOperationsAlias`).

## Model

| member | source | states |
|---|---|---|
| StreamParser.RequestContext.ReadHeaderLine | tests/drawio_windows.cpp:221-230 | one header line: the colon is looked for in the block but only one inside the line counts, blanks before the value go, the first value of a name stays |
| StreamParser.RequestContext.ParseHeaders | tests/drawio_windows.cpp:209-245 | the scan loop reads exactly the lines up to the first empty one; keep-alive and body length as the resulting map says |
| StreamParser.RequestContext.SkipBlanks | tests/drawio_windows.cpp:225-228 | leaves exactly the text without its leading spaces and tabs |
| StreamParser.RequestContext.ReadLine | tests/drawio_windows.cpp:397-405 | either the rest of the parse is unchanged with a line fewer to read, or the machine waits as it is |
| StreamParser.RequestContext.ReadHeaders | tests/drawio_windows.cpp:406-418 | the same for a header block, or an exception when it states more than can be reserved |
| StreamParser.RequestContext.ReadBody | tests/drawio_windows.cpp:419-435 | the same for a body; a finished request is handed on in order |
| StreamParser.RequestContext.OnSegment | tests/drawio_windows.cpp:391-437 | the loop ends; it ends with an exception iff a header block on the way states more than can be reserved, and otherwise state, accumulator and emitted requests are those of the machine run on everything held plus the segment |
| StreamParser.RequestContext.TakeSome | tests/drawio_windows.cpp:421-427 | moves the bytes of the body that are there, at most the missing ones |
| StreamBlocks.ReserveInTwo | tests/drawio_windows.cpp:406-417 | whether the parser throws does not depend on where the bytes are cut |
| StreamBlocks.PipelineReservesIff | tests/drawio_windows.cpp:412-416 | a printed pipeline is parsed without an exception iff every body fits into what can be reserved |
| StreamParser.LineColon | tests/drawio_windows.cpp:221-224 | bounding a search in the block by the line end is searching in the line |
| StreamTheorems.DrainThenFeed | tests/MARSHMELLOW.cpp:286-329 | from any state, parsing what is held first and feeding bytes later equals parsing all at once |
| StreamTheorems.FeedTwice | tests/MARSHMELLOW.cpp:286-329 | feeding a then b gives the same requests, partial request, state, accumulator, missing bytes and keep-alive as feeding a ++ b |
| StreamTheorems.SegmentationIndependence | tests/drawio_windows.cpp:391-437 | any segmentation of the same bytes gives the same result, from any state |
| StreamTheorems.DrainWaits | tests/drawio_windows.cpp:399-429 | the machine only stops without a complete line, without a complete block, or with an empty accumulator in a short body |
| StreamTheorems.PrintedRequestIsParsed | tests/drawio_windows.cpp:201-245 | a printed request in front of any bytes is handed on unchanged, when its Content-Length header, if any, states the size of its body and otherwise the body is empty; parsing goes on behind it, and the connection is kept iff no Connection header holds the word close |
| StreamTheorems.PipelineRoundTrip | tests/drawio_windows.cpp:391-437 | a pipeline of such requests, cut anywhere, is handed on as exactly that list, ending in StartLine with nothing held and the keep-alive decision of the last one |
| StreamTheorems.RoundTripIffHeader | tests/drawio_windows.cpp:397-417 | one printed request comes back if and only if it has a header |
| StreamTheorems.PolicyMeaning | tests/drawio_windows.cpp:232-244 | for every header map: the connection is kept iff its Connection value does not hold the word close in any mixture of cases; the body has the length its Content-Length value states, and none without one |
| StreamTheorems.DecimalStatesBody | tests/drawio_windows.cpp:240-244 | a Content-Length printed in decimal states the size of the body |
| StreamTheorems.ShortRequestLine | tests/drawio_windows.cpp:201-208 | a request line with fewer than two spaces: path and protocol take their defaults |
| StreamTheorems.LongRequestLine | tests/drawio_windows.cpp:201-208 | with two spaces everything behind the second is the protocol |
| StreamTheorems.HeaderLineMeaning | tests/drawio_windows.cpp:221-230 | a line without a colon has no effect; otherwise the first value given for a name stays, without the blanks in front of it |
| StreamTheorems.HeaderlessRequestWaits | tests/drawio_windows.cpp:402-410 | a request without headers leaves the machine waiting in Headers for ever more bytes |
| StreamTheorems.HeaderlessSwallowsNextHead | tests/drawio_windows.cpp:402-417 | the head of the request behind one without headers is taken as its header block |
| Text.FindMeaning | tests/drawio_windows.cpp:193-200 | `find` gives the least occurrence, and none only if there is none |
| Text.FindStable | tests/drawio_windows.cpp:193-200 | bytes that arrive later do not move the first match |
| Text.FirstCrlf2 | tests/drawio_windows.cpp:193-200 | in a block of lines without line ends the first empty line is the one that ends the block |
| Text.CloseIsFound | tests/drawio_windows.cpp:235-237 | lowering the value and searching finds exactly the word close in any mixture of cases |
| Text.LowerMeaning | tests/drawio_windows.cpp:236 | lowering exchanges the letters of the alphabet for their small forms and leaves all else |
| Text.TrimLeftMeaning | tests/drawio_windows.cpp:225-228 | what is trimmed is the longest front of spaces and tabs |
| Numbers.StrtoullNegative | test2.cpp:344 | `strtoull` reads a minus sign in front of n as 2^64 - n |
| Numbers.StrtoullDecimal | lib/src/common/per_client_storage.cpp:110 | `strtoull` undoes `to_string` up to 2^64 - 1 and saturates beyond |
| Numbers.StrtoullMeaning | tests/drawio_windows.cpp:243 | the number behind any white space, an optional sign and any zeros, up to the first character that is no digit; saturated, and negated modulo 2^64 behind a minus sign |
| Numbers.StrtoullNothing | tests/drawio_windows.cpp:243 | where no digit stands there the number is 0 |
| Payload.ConstantsAreTexts | tests/drawio_windows.cpp:50-54 | the constants of the servers are the two heads and the body written out |
| Payload.ResponseIsOneMessage | test2.cpp:64-69 | head and body are one exact message: the length the head states is the size of the body, and its Connection line says what the head was chosen for |
| Payload.AnsweringWire | test2.cpp:967-970 | a queue of a head and a body for each decision is, on the wire, the responses one behind the other |
| IocpConnection.PerClientStorage.RecvSection | tests/drawio_windows.cpp:743-755 | publishes the held buffer and posts a Process token exactly when none exists |
| IocpConnection.PerClientStorage.TakeSection | tests/drawio_windows.cpp:772-781 | takes the first 16 segments at most, in order |
| IocpConnection.PerClientStorage.FinishSection | tests/drawio_windows.cpp:797-804 | keeps the token exactly when segments have arrived meanwhile |
| IocpConnection.PerClientStorage.EnqueueRequestForResponse | tests/drawio_windows.cpp:378-387 | appends the request and posts a Respond token exactly when none exists |
| IocpConnection.PerClientStorage.DrainSection | tests/drawio_windows.cpp:815-824 | takes all requests in order and gives up the token |
| IocpConnection.PerClientStorage.RecheckSection | tests/drawio_windows.cpp:834-841 | takes the token back exactly when there is work and nobody has it |
| IocpConnection.PerClientStorage.TxEnqueueSegment | tests/drawio_windows.cpp:356-375 | appends the segment and posts a Kick token exactly when none is pending |
| IocpConnection.PerClientStorage.FillBatch | tests/drawio_windows.cpp:626-635 | fills `tx` with the next batch and leaves its other places alone |
| IocpConnection.PerClientStorage.KickSection | tests/drawio_windows.cpp:615-642 | clears the pending flag; starts a send exactly when none is in flight and something is queued |
| IocpConnection.PerClientStorage.SendFailedSection | tests/drawio_windows.cpp:650-656 | a send that cannot be started marks the connection as closing |
| IocpConnection.PerClientStorage.SendCompleteSection | tests/drawio_windows.cpp:864-882 | pops exactly the batch, reports whether it ended a response, and wakes the sender exactly when segments are left and no Kick is pending |
| Segments.BatchShape | tests/drawio_windows.cpp:626-635 | a batch is not empty, has at most the given room, has an end-of-response only in its last place and stops early only because of one |
| Segments.EorsOfBatch | tests/drawio_windows.cpp:867-871 | a batch ends as many responses as its last segment does |
| IocpInvariant.StepKeepsCore | tests/drawio_windows.cpp:731-897 | every lock section of every handler keeps: a flag is set iff its one token, handler or operation exists; a queue with content has somebody to empty it; the batch in flight is the front of txq; nothing enqueued is lost or reordered; each request is emitted, unanswered or answered once |
| IocpInvariant.StepKeepsOrder | tests/drawio_windows.cpp:762-807 | every lock section keeps: the parser has seen the received segments in order, and segments are lost only by an overrun run |
| IocpTheorems.ReachableHasInv | tests/drawio_windows.cpp:731-897 | every reachable state of every interleaving satisfies both |
| IocpTheorems.ParserIsExclusive | tests/drawio_windows.cpp:743-806 | two workers are never inside the parser; `parse_inflight` holds iff one token or handler exists; a non-empty rxq implies it |
| IocpTheorems.KickSendProtocol | tests/drawio_windows.cpp:356-375 | `kick_pending` holds iff one Kick token is queued or dequeued but not yet locked; at most one send is outstanding; a non-empty txq implies a kick, a send or closing |
| IocpTheorems.InFlightPrefix | tests/drawio_windows.cpp:626-641 | while a send is outstanding its buffers are the front of txq and end at most one response; sent ++ txq is everything enqueued |
| IocpTheorems.QuiescenceMeansDelivery | tests/drawio_windows.cpp:731-897 | with no token, handler or send on a live connection all three queues are empty, responses sent equal requests emitted and `served`, and nothing was dropped iff no run was overrun |
| IocpTheorems.PipelineIsAnswered | tests/drawio_windows.cpp:731-897 | at rest without overrun, the requests emitted are exactly the printed requests whose bytes arrived, however they were cut, and as many responses are sent and served |
| IocpBudget.FewSegmentsAreKept | tests/drawio_windows.cpp:770-795 | in every schedule a connection that has received at most sixteen segments has lost none |
| IocpBudget.ShortPipelineIsAnswered | tests/drawio_windows.cpp:731-897 | so at rest its printed requests are the ones emitted and as many responses are sent, without any assumption about the schedule |
| IocpTheorems.SegmentsCanBeLost | tests/drawio_windows.cpp:770-795 | from every initial state a live connection that has received seventeen segments can lose some, when receives interleave with a Process run |
| IocpLiveness.Progress | tests/drawio_windows.cpp:731-897 | every step but the arrival of bytes lowers a well-founded measure |
| IocpLiveness.SettleIsARun | tests/drawio_windows.cpp:731-897 | running any schedule until it pauses ends, and ends in a reachable state |
| IocpLiveness.SilentClientIsAnswered | tests/drawio_windows.cpp:731-897 | every schedule that does not idle while something is left brings the connection to rest with every emitted request answered, unless it closes |
| IocpLiveness.ShortPipelineSettles | tests/drawio_windows.cpp:731-897 | under every such schedule a printed pipeline of at most sixteen segments is answered request by request, unless the connection closes |
| IocpRequests.RequestsWaitInOrder | tests/drawio_windows.cpp:378-387 | in every reachable state the requests in respq and in the hands of the parser are the last ones parsed, unchanged and in order |
| IocpAnswers.AnswersAreTexts | tests/drawio_windows.cpp:826-832 | in every reachable state each marked segment enqueued is the body text and each unmarked one a head text, and no front of the queue has more bodies than heads |
| IocpAnswers.OneRequestIsAnswered | tests/drawio_windows.cpp:826-832 | at rest one emitted request has been answered, under every interleaving, by one head followed by the body and nothing else |
| IocpAnswers.RequestsAreAnsweredInTurn | tests/drawio_windows.cpp:826-832 | when no two Respond handlers overlap, the wire at rest is one whole response for every request, one behind the other |
| IocpAnswers.PipelineGetsItsBytes | tests/drawio_windows.cpp:731-897 | from bytes to bytes: a printed pipeline in at most sixteen segments, cut anywhere, is answered by one whole response a request; with one request without any assumption about handlers |
| IocpDecisions.HeadsSayWhatRequestsAgreeOn | tests/drawio_windows.cpp:827-829 | requests received since the connection was at rest that all keep it, with the limit not near, get keep-alive heads only; when all of them close it, or the limit is reached, close heads only; in every interleaving |
| IocpDecisions.NextRequestIsAnswered | tests/drawio_windows.cpp:826-832 | a request received alone adds one response to the wire, which keeps the connection iff the request does not ask to close it and fewer than limit less one were served, in unsigned arithmetic |
| IocpDecisions.LockstepClientIsAnswered | tests/drawio_windows.cpp:731-897 | a client that waits for each response gets exactly one response a request, in order, the k-th a keep-alive one iff request k does not ask to close and k is below limit less one |
| IocpDecisions.AgreedPipelineGetsItsBytes | tests/drawio_windows.cpp:731-897 | a printed pipeline of requests that agree is answered byte for byte with what they agree on, where the limit is not reached on the way; for one request the decision is exact |
| IocpClosing.RecycledIff | tests/drawio_windows.cpp:731-897 | a step recycles the connection iff a receive or send has failed, the client is done, or a response has ended at the limit or on a closing connection |
| IocpClosing.ClosingIff | tests/drawio_windows.cpp:548-570 | a step marks it as closing iff a receive or a send cannot be started; `served` counts exactly the sends that ended a response |
| IocpClosing.RestReceives | tests/drawio_windows.cpp:758-759 | at rest a live connection has a receive outstanding and nothing else, and fewer responses served than the limit |
| IocpClosing.HealthyPipelineStaysOpen | tests/drawio_windows.cpp:731-897 | under every schedule that goes on and sees no failing call, a printed pipeline below the limit in at most sixteen segments leaves the connection open, receiving, and answered |
| Accumulator.PerClientStorage.ScanHeaderLine | test2.cpp:326-345 | one line of the scan: names without regard to case, value without leading blanks |
| Accumulator.PerClientStorage.ScanHeaders | test2.cpp:314-349 | the loop reads exactly the lines whose end is not behind the empty line |
| Accumulator.PerClientStorage.CutFrame | test2.cpp:943-971 | one round of the loop: cuts as many bytes as `body_off + clen` says in `size_t` and queues the answer, or notes how many are missing, or waits for the empty line |
| Accumulator.PerClientStorage.TakeSegment | test2.cpp:939-971 | one segment: frames, accumulator, `body_need`, `keep_alive` and queued answers as the framing function says, and whether the loop ever ends |
| Accumulator.PerClientStorage.ParseStep | test2.cpp:922-984 | takes a prefix of rxq within its budgets, all of it when at most 32 segments wait, and treats it segment by segment, unless a loop never ends |
| Accumulator.PerClientStorage.OnSendComplete | test2.cpp:171-191 | retires the batch, counts a response iff the batch ended one, and asks for a close exactly under the limit, keep-alive and closing conditions |
| Accumulator.OneMarkPerFrame | test2.cpp:967-970 | every framed request puts exactly one end-of-response mark into the queue |
| AccumulatorTheorems.ScanDependsOnHeaderBlock | test2.cpp:314-349 | accumulators that agree up to the empty line are scanned alike |
| AccumulatorTheorems.ReceiveTwice | test2.cpp:939-971 | receiving a then b equals receiving a ++ b; behind an endless loop b is never looked at |
| AccumulatorTheorems.SegmentationIndependence | test2.cpp:922-984 | any segmentation gives the frames of the unsplit stream and ends or spins like it; when it ends, accumulator, `body_need` and `keep_alive` are the same too |
| AccumulatorTheorems.NoByteIsLost | test2.cpp:943-971 | whatever the lengths stated, frames ++ accumulator are the bytes |
| AccumulatorTheorems.WrappedDemand | test2.cpp:954-956 | when the sum wraps, less is demanded than the header block holds, so that nothing is waited for |
| AccumulatorTheorems.ProgressIff | test2.cpp:955-963 | a round that cuts makes progress iff the sum is not 0 |
| AccumulatorTheorems.LoopEndsUnlessItSpins | test2.cpp:943-971 | some round of the framing loop waits iff no round cuts an empty frame |
| AccumulatorTheorems.CutIsExactIff | test2.cpp:954-963 | a frame ends where its own header block says iff header block and stated length add up to less than 2^64 |
| AccumulatorTheorems.FramingIsExactIff | test2.cpp:943-971 | all frames of a stream are exact iff no sum wraps on the way, and then the loop ends |
| AccumulatorTheorems.RestIsSettled | test2.cpp:943-966 | a loop that ends leaves no complete request behind, and `body_need` is the number of missing bytes |
| AccumulatorTheorems.NegativeLength | test2.cpp:943-963 | a stated length of -n: with n the size of the header block the loop never ends; with a smaller n the frame ends inside its own block; with a larger n the length is 2^64 - n, waited for and then cut exactly |
| AccumulatorTheorems.SpinningRequest | test2.cpp:943-963 | a request of 39 bytes on which the loop never ends |
| AccumulatorTheorems.StrayRequest | test2.cpp:943-963 | a request of 38 bytes that is framed without its last LF, which stays behind |
| AccumulatorTheorems.ReceiveKeepsSettled | test2.cpp:943-970 | between segments `body_need` is the number of missing bytes and no byte is lost; the frames are exact iff no sum wraps on the way |
| AccumulatorTheorems.OnlyOneFraming | test2.cpp:943-970 | a stream has only one split into exact frames and a short rest, and it is the one found; the last header block received, its body complete or not, decides keep-alive |
| AccumulatorTheorems.BodyNeedIsExact | test2.cpp:955-965 | fewer than `body_need` bytes frame nothing and lower it by their number; exactly that many frame one request and empty the accumulator |
| AccumulatorTheorems.NeedMeansWaiting | test2.cpp:943-966 | between segments `body_need` is zero iff no header block waits for its body |
| AccumulatorTheorems.ScanReadsLines | test2.cpp:319-348 | a block of lines is read line by line, first to last |
| AccumulatorTheorems.LastLineDecides | test2.cpp:335-344 | the last Content-Length line gives the length, and the connection is kept iff the last Connection line does not hold the word close in any mixture of cases |
| AccumulatorTheorems.NothingStated | test2.cpp:316-317 | without such lines the connection is kept and the body is empty |
| AccumulatorTheorems.PipelineIsFramed | test2.cpp:922-984 | a pipeline of messages cut anywhere is framed message by message |
| UringTransmit.Worker.CountBatch | test2.cpp:359-371 | the loop counts exactly the next batch and says whether it ends a response |
| UringTransmit.Worker.MoveBatch | test2.cpp:381-386 | moves exactly the front of txq into flight, in order |
| UringTransmit.Worker.RollBack | test2.cpp:797-803 | puts the batch back in front of txq, in order |
| UringTransmit.Worker.SendkickInline | test2.cpp:352-410 | queue, batch, flags, ring and used-up answers after any sequence of refusals |
| UringTransmit.Worker.PostTask | test2.cpp:413-432 | posts the kick, or kicks at once without an entry |
| UringTransmit.Worker.DoArmPollout | test2.cpp:607-621 | arms the poll once, if an entry can be had |
| UringTransmit.Worker.OnRecv | test2.cpp:698-783 | a received segment is parsed, answered and sent as the step function says, and rxq is empty again; or the worker is caught in the framing loop |
| UringTransmit.Worker.OnSendRefused | test2.cpp:792-815 | would-block rolls back and arms the poll; another error closes |
| UringTransmit.Worker.OnSendOk | test2.cpp:817-830 | retires the whole batch, then closes or sends the next one |
| UringTransmit.Worker.OnPollOut | test2.cpp:833-842 | clears the poll flag and kicks |
| UringTransmit.Worker.OnKickTask | test2.cpp:868-872 | a kick that comes back clears its flag and kicks |
| UringTransmit.Worker.OnRecvEnd | test2.cpp:707-726 | end of file or an error marks the connection as closing and asks for the close |
| UringTransmit.Worker.OnClosed | test2.cpp:844-847 | the connection leaves the table |
| UringTransmit.Worker.OnGenerate | lib/src/common/per_client_storage.cpp:107-137 | the segments of an answer are queued unmarked and a flush is posted |
| UringTransmit.Worker.OnSend | test2.cpp:785-831 | the Send case for every result |
| UringTransmit.Worker.OnCqe | test2.cpp:650-889 | the switch over completions: state, ring and used-up answers after any completion are those of the step function; one for a connection that is gone does nothing |
| UringInvariant.KickEnds | test2.cpp:391-432 | the two mutually recursive functions end with exactly one operation submitted: the send after an even number of refusals, the kick after an odd number |
| UringInvariant.StepKeepsInv | test2.cpp:698-884 | every completion keeps the invariant, and leaves a connection alone in exactly three situations: a refused poll with nothing else outstanding, a refused close with no close outstanding, and a segment on which framing never ends |
| UringInvariant.ClosesIff | test2.cpp:594-604 | after a completion a closing connection has its close outstanding iff it had it before, or the completion asks for a close and gets the entry |
| UringTheorems.ResponsesAreConserved | test2.cpp:171-191 | over every run: retired ++ in flight ++ txq is everything enqueued in order; requests in the received bytes = `served` + marks in flight + marks queued; at most one send; batches of one to eight segments with a mark only at the end |
| UringTheorems.NoSendStall | test2.cpp:698-842 | without these three, a non-empty txq always has a send, a poll, a kick or a close outstanding, and a closing connection its close |
| UringTheorems.NoStallWithoutKicks | test2.cpp:698-842 | with entries free the server never posts a kick, and a non-empty txq has a send, a poll or a close outstanding |
| UringTheorems.StuckIffSpinning | test2.cpp:943-971 | the worker is caught iff framing the bytes received so far never ends |
| UringTheorems.HangHappens | test2.cpp:943-963 | a concrete run that is caught |
| UringTheorems.GrantedNeverAbandoned | test2.cpp:607-621 | when submission entries can be had and the worker is not caught in the framing loop, no run leaves the connection alone |
| UringTheorems.StallHappens | test2.cpp:792-809 | a concrete run that stalls |
| UringTheorems.RefusedCloseHappens | test2.cpp:720-824 | a concrete run after which a response waits on an open connection with nothing outstanding, because the close got no entry |
| UringTheorems.StallIsRepaired | test2.cpp:698-884 | a stalled connection is woken by exactly the completions that do not leave it alone again |
| UringTheorems.QuiescenceMeansServed | test2.cpp:698-884 | with nothing outstanding on a live connection every request received has been served |
| UringTheorems.LibraryNeverCounts | lib/src/common/per_client_storage.cpp:67-87 | when no segment is marked, `served` stays 0 and no send completion closes the connection |
| UringTheorems.CompletionProgress | lib/src/server/linux/worker.cpp:469-526 | with entries free every completion of a send, a kick or a poll shrinks what is unsent, or uses up a kick or a poll |
| UringTheorems.SettleIsARun | lib/src/server/linux/worker.cpp:236-292 | delivering whatever a schedule picks ends, and is a run |
| UringTheorems.SettlesInEveryOrder | lib/src/server/linux/worker.cpp:236-292 | in every order of completions with entries free a live connection comes to rest, and unless its close is outstanding everything received is served |
| UringTheorems.WireIsRetiredIff | test2.cpp:171-191 | over every run: the bytes on the wire are those of the retired segments iff every send completion reported its whole batch |
| UringAnswers.AnswersInOrder | test2.cpp:943-971 | over every run of the server: retired ++ in flight ++ txq is one head and the marked body for every request received, in order; the head is the keep-alive text exactly where the request asks for it and `served` was below limit less one in unsigned arithmetic, with counts that only rise |
| UringAnswers.PipelineIsServed | test2.cpp:922-984 | a pipeline of messages that arrived in any pieces is, at rest, answered by whole responses, one a message, and they are on the wire if the kernel took every batch whole |
| UringClosing.ClosingIff | test2.cpp:785-831 | a completion marks the connection as closing iff it was so, the input ended, a send failed, or the batch retired ends a response at the limit or on a connection not to be kept |
| UringClosing.ClosesWhenAsked | test2.cpp:171-191 | over every run a connection not closing has served fewer responses than the limit; at rest, when the last request asked for the close, it is closing |
| EpollTransmit.PerClientStorage.PrepareIov | tests/MARSHMELLOW.cpp:601-625 | the buffers handed to `sendmsg` are the next batch from the offset on |
| EpollTransmit.PerClientStorage.ConsumeSent | tests/MARSHMELLOW.cpp:636-654 | takes the sent bytes off the queue |
| EpollTransmit.PerClientStorage.FlushSendOnce | tests/MARSHMELLOW.cpp:597-657 | queue, offset, wire and result for every kernel answer |
| EpollTransmit.PerClientStorage.TryFlushAndArm | tests/MARSHMELLOW.cpp:440-478 | the loop ends for every kernel, with the state and number of calls of the flush function |
| EpollTransmit.PerClientStorage.TxEnqueue | tests/MARSHMELLOW.cpp:727-736 | appends and flushes |
| EpollTransmit.ConsumeIsExact | tests/MARSHMELLOW.cpp:636-654 | when no more was sent than offered exactly these bytes go, nothing is left over at the break behind an end of response, and the offset stays inside the first segment |
| EpollTransmit.ConsumeMarks | tests/MARSHMELLOW.cpp:636-654 | what is left is a suffix of the queue that lacks one mark exactly when a response ended |
| EpollTransmit.SendIsExact | tests/MARSHMELLOW.cpp:597-657 | for every kernel answer wire ++ pending stays the same, and a send with progress shrinks what is pending |
| EpollTheorems.FlushIsExact | tests/MARSHMELLOW.cpp:440-478 | for every kernel: no byte is lost or doubled; on an open connection EPOLLOUT is wanted iff something is queued; `served` never outruns the marks sent |
| EpollTheorems.FlushClosesIff | tests/MARSHMELLOW.cpp:440-478 | for every kernel: a flush of an open connection closes it iff its last call failed with something queued, or it emptied a queue that ends in a mark at the limit or while closing |
| EpollTheorems.StaysOpen | tests/MARSHMELLOW.cpp:440-478 | over every run: a connection to which fewer responses are queued than the limit stays open on a kernel that reports no error |
| EpollTheorems.StopsOnlyWhenBlocked | tests/MARSHMELLOW.cpp:440-478 | a flush that leaves something queued was blocked or interrupted in its last call; without interruptions there was no room, so that edge triggering is safe |
| EpollTheorems.WireIsExact | tests/MARSHMELLOW.cpp:597-657 | over every run of enqueues and writability events and every kernel: wire ++ pending is what was enqueued, and all of it when EPOLLOUT is not wanted |
| EpollTheorems.SendFinishesIff | tests/MARSHMELLOW.cpp:637-656 | a send finishes a response iff it empties a queue that ends in a mark |
| EpollTheorems.FlushCounts | tests/MARSHMELLOW.cpp:440-478 | for every kernel a flush adds one to `served` iff it empties a queue that ends in a mark, and otherwise nothing |
| EpollTheorems.StepCounts | tests/MARSHMELLOW.cpp:727-744 | the same for every enqueue and every writability event of a run |
| EpollTheorems.TwoResponsesCountOnce | tests/MARSHMELLOW.cpp:655-656 | a run from the start in which two responses queued while blocked count once |
| EpollTheorems.QueueCountsOnce | tests/MARSHMELLOW.cpp:655-656 | any number of queued responses for which the kernel has room is sent whole and counts as one |
| ProcessingMachine.Parser.ResetParser | lib/src/common/processing_machine.cpp:3-12 | the state of a fresh machine |
| ProcessingMachine.Parser.TakeByte | lib/src/common/processing_machine.cpp:24-154 | one byte in every state |
| ProcessingMachine.Parser.OnSegment | lib/src/common/processing_machine.cpp:14-156 | all bytes up to an error, from the state started by the first segment |
| ProcessingMachine.SegmentationInvariance | lib/src/common/processing_machine.cpp:14-156 | any segmentation gives the same state, buffers and request |
| ProcessingMachine.ErrorIsAbsorbing | lib/src/common/processing_machine.cpp:22 | nothing changes once an error has been found |
| ProcessingLanguage.InputIsRecovered | lib/src/common/processing_machine.cpp:26-153 | at every point short of an error, state, buffers, request and ordered header log determine the input read so far |
| ProcessingLanguage.PartsAreRead | lib/src/common/processing_machine.cpp:26-153 | every text in the language is read into exactly its parts, header lines in order, first value of a name kept |
| ProcessingLanguage.ExactLanguage | lib/src/common/processing_machine.cpp:26-153 | the body state is reached iff the input is method SP path SP version CRLF, lines name ":" value CRLF, CRLF and any body, in the code's own character classes |
| ProcessingLanguage.OnlyOneReading | lib/src/common/processing_machine.cpp:26-153 | the grammar is unambiguous |
| ProcessingLanguage.ErrorAsSoonAsHopeless | lib/src/common/processing_machine.cpp:22-153 | the error state is reached iff no continuation of the input reaches the body |
| ProcessingLanguage.FirstWinsValue | lib/src/common/processing_machine.cpp:96-113 | `emplace` keeps the value of the first line with a name |
| ProcessingLanguage.PrintedRequestReturns | lib/src/common/processing_machine.cpp:14-156 | printing a request, headers in any order, and feeding it in any pieces returns it unchanged, leading spaces of values included |
| PollWorker.ExpiredMeaning | tests/poll/hello_world_http.cpp:295 | a connection expires after a whole millisecond more than the timeout |
| PollWorker.SwapRemoveKeepsOthers | tests/poll/hello_world_http.cpp:185-195 | swap-remove takes away exactly one element, keeps what is before it, and moves only the last |
| PollWorker.Connection.Read | tests/poll/hello_world_http.cpp:87-119 | fields after a read, for every outcome of the socket |
| PollWorker.Connection.Write | tests/poll/hello_world_http.cpp:121-153 | fields after a write, with the request limit |
| PollWorker.Worker.AddConn | tests/poll/hello_world_http.cpp:178-183 | both arrays grow by the connection and its entry |
| PollWorker.Worker.RemoveSlot | tests/poll/hello_world_http.cpp:185-195 | both arrays are swap-removed alike |
| PollWorker.Worker.AcceptOne | tests/poll/hello_world_http.cpp:237-243 | an accepted connection is appended behind the traversal and the pass goes on as if it had been there, not ready |
| PollWorker.Worker.VisitListener | tests/poll/hello_world_http.cpp:220-245 | accepts every waiting connection behind the traversal, without events |
| PollWorker.Worker.VisitSlot | tests/poll/hello_world_http.cpp:211-283 | one slot: skipped, served and kept, or served and replaced by the last one, which is looked at next; `AskedIff` and `VisitKeepsWatch` say what is asked of poll then |
| PollWorker.Worker.EventPass | tests/poll/hello_world_http.cpp:209-284 | every connection there at the start is visited once if ready and not otherwise, exactly the open ones stay, each beside its own entry; slot 0 stays the listener; watched connections stay watched and accepted ones are |
| PollWorker.Worker.Sweep | tests/poll/hello_world_http.cpp:286-302 | exactly the open and unexpired connections stay, each with its entry |
| PollWorker.Worker.SweepIdle | tests/poll/hello_world_http.cpp:286-302 | behind an event pass the sweep keeps the arrays in order: aligned, without doubles, slot 0 the listener; and leaves what is asked of poll alone |
| PollWorker.Worker.Round | tests/poll/hello_world_http.cpp:197-304 | after pass and sweep exactly the connections that are open after their visit and not expired are left, with those just accepted, all still watched |
| PollWorker.Worker.Run | tests/poll/hello_world_http.cpp:197-304 | over every sequence of rounds every open connection asks for POLLIN, and for POLLOUT while something of its response is unsent |
| PollWorker.AskedIff | tests/poll/hello_world_http.cpp:255-275 | after a visit that leaves the connection open POLLOUT is asked for iff it was, a request is complete, or the visit wrote; POLLIN iff it was or the visit wrote |
| PollWorker.VisitKeepsWatch | tests/poll/hello_world_http.cpp:255-275 | a visit leaves a watched connection watched: for output whenever something is unsent |
| PollWorker.VisitClosesIff | tests/poll/hello_world_http.cpp:249-280 | a visit closes the connection iff poll reports an error, the read finds it closed, a write fails, or the last request allowed is sent |
| PollWorker.SweptIff | tests/poll/hello_world_http.cpp:295-299 | the sweep closes exactly the connections idle for 5001 milliseconds or more |
| PollWorker.TextIsResponse | tests/poll/hello_world_http.cpp:47-65 | the response is the head and body written out, keep-alive below one hundred requests |
| PollWorker.ReadMeaning | tests/poll/hello_world_http.cpp:87-119 | a complete request makes the whole keep-alive response unsent; every read is activity |
| PollWorker.ActivityMeaning | tests/poll/hello_world_http.cpp:87-153 | the time of last activity is that of the request served, else of the read, else unchanged |
| PollWorker.PartialWritesAddUp | tests/poll/hello_world_http.cpp:121-140 | partial writes add up: what is unsent is the response less all bytes taken, and nothing else changes |
| PollWorker.LastWriteServes | tests/poll/hello_world_http.cpp:141-153 | the write of the last byte serves the request, and closes the connection at the hundredth |
| PollWorker.WritableVisitsAreCharged | tests/poll/hello_world_http.cpp:121-153 | a writable connection with nothing to send is charged one request per visit and closed when they are used up |
| PollWorker.WrittenStaysWatched | tests/poll/hello_world_http.cpp:269-273 | a write that leaves the connection open asks for both events, and when it charged a request nothing is left to send |
| PollWorker.CloseIsNeverAnnounced | tests/poll/hello_world_http.cpp:47-65 | no response announces the close that follows it |
| Tags.KeyRoundTrip | tests/drawio_windows.cpp:96-103 | packing and unpacking a completion key are inverse in both directions, with the index in the low word and the generation in the high one |
| Tags.UserDataRoundTrip | test2.cpp:98-111 | the user data comes back exactly iff descriptor and extra word fit into 29 bits |
| Tags.WideOperationsAlias | lib/src/server/linux/worker.cpp:12-27 | an operation above 7 comes back as another one, with the lowest bit of whatever extra word set |
| Tags.OrOfFields | lib/src/server/linux/worker.cpp:17-20 | the or of an extra word and a four-bit operation, in machine bits, is the one the arithmetic model uses |
| ConnTable.ConnTable.Allocate | tests/drawio_windows.cpp:454-470 | takes the first free slot and returns its handle, or finds none |
| ConnTable.ConnTable.TryGet | tests/drawio_windows.cpp:472-482 | resolves exactly when the slot is in use with the handle's generation |
| ConnTable.ConnTable.CloseAndRecycle | tests/drawio_windows.cpp:484-517 | frees the slot and bumps its generation, looking at `in_use` only |
| ConnTable.FirstFreeMeaning | tests/drawio_windows.cpp:458-467 | the scan finds the least free slot, and none only if all are in use |
| ConnTable.InUseIff | tests/drawio_windows.cpp:454-517 | over every run a slot is in use iff it was handed out since it was last recycled |
| ConnTable.CloseFrees | tests/drawio_windows.cpp:484-517 | closing a slot in use frees it, changes its generation and leaves all others alone |
| ConnTable.RunKeepsInv | tests/drawio_windows.cpp:454-517 | over every run the generation counts recycles modulo 2^32 and handles of a slot have increasing epochs |
| ConnTable.HandlesRepeatOnlyAfterWrap | tests/drawio_windows.cpp:454-517 | two allocations return the same handle iff they took the same slot and it was recycled a multiple of 2^32 times in between |
| ConnTable.HandlesAreUnique | tests/drawio_windows.cpp:454-517 | without 2^32 recycles of a slot no two allocations return the same handle |
| ConnTable.ResolvesUntilRecycled | tests/drawio_windows.cpp:472-517 | a handle, also one that went through a completion key, resolves iff its slot is in use and was recycled a multiple of 2^32 times since; without wrap iff it was not recycled |
| ConnTable.DefaultHandleIsNobody | tests/drawio_windows.cpp:472-482 | the handle {0,0} resolves iff slot 0 is in use and its generation has wrapped to 0 |
| ConnTable.BlindCloseIsGuarded | tests/drawio_windows.cpp:484-490 | an unguarded close equals a guarded one iff the handle resolves or its slot is free |
| ConnTable.BlindCloseEndsAnotherTenancy | tests/MARSHMELLOW.cpp:714-719 | in every run an unguarded close by any handle with the slot's index ends the current tenancy; a guarded one does so only by the tenant's handle |
| ConnTable.AllocationBetweenHalves | tests/drawio_windows.cpp:489-515 | an allocation between release and bump is given the handle being closed, and after the bump nobody's handle resolves |
| ResponsePrinter.PerClientStorage.GenerateResponse | lib/src/common/per_client_storage.cpp:99-138 | the queued segments add up to the message of the handler's result, none of them marked; without a handler nothing changes |
| ResponsePrinter.MessageBytes | lib/src/common/per_client_storage.cpp:107-134 | the message written out: status line, Content-Length of the body, the handler's header lines, the empty line, the body |
| ResponsePrinter.ResponseIsSelfDelimiting | lib/src/common/per_client_storage.cpp:107-134 | for every header order and whatever follows: the first empty line is followed by exactly the bytes that Content-Length states, and they are the body |
| ResponsePrinter.DelimitedIffLastLength | lib/src/common/per_client_storage.cpp:107-134 | a response with sound head lines is delimited iff the last length stated is the body's and the message fits into memory |
| ResponsePrinter.OwnLengthDecides | lib/src/common/per_client_storage.cpp:117-126 | for a reader that takes the last length, a handler's own Content-Length takes precedence, and a message that fits into memory is delimited iff it is right |
| ResponsePrinter.LengthsAgreeIff | lib/src/common/per_client_storage.cpp:107-126 | a reader that rejects differing lengths (section 6.3 of RFC 9112) accepts the head iff every length the handler states itself is the body's |
| ResponsePrinter.PrintedResponsesAreFramed | lib/src/common/per_client_storage.cpp:99-138 | a peer that frames by Content-Length finds exactly the printed responses in the stream, however it is cut |

## Left out

- Accumulator.PerClientStorage.TakeSegment: behind the first round that cuts nothing the server goes on queueing two segments a round until memory is out; the model stops at that round and reports it.
- Every other exception of the standard library for want of memory.
- IocpLiveness.SilentClientIsAnswered: speaks of schedules that keep going; fairness of the operating system's scheduler is not modelled.
- UringTheorems.ResponsesAreConserved: speaks of retired segments, because a send completion that is not an error retires the whole batch whatever number of bytes it reports; `WireIsRetiredIff` says when their bytes are on the wire.
- UringTransmit.Worker.OnRecv: does not return the provided buffer and does not arm the receive again; both only ask for submission entries, which the oracle refuses or grants attempt by attempt anyway.
- PollWorker.Worker.EventPass: the contents of read and write buffers, the search for the empty line and a full read buffer are part of the free answer of the socket.
- ConnTable.ResolvesUntilRecycled: each table operation is one step; `AllocationBetweenHalves` says what happens otherwise.
- Socket set-up, listeners, `fcntl`, WinSock and liburing calls, thread creation and `main`: foreign calls without logic, replaced by free choices.
- Clocks: time budgets are free truth values, activity times are integers.
- Counters `served` are unbounded; their increment outside the lock in the IOCP server is one step.
- IOCP: the responder reads the parser's `keep_alive` without a lock, as the value for the request handed on last, for a later one, or the one the parser will be left with, and reads `served` in the same step; for pipelined requests that differ the heads therefore differ from run to run, and so does the order of the responses of two Respond handlers.
- IOCP: completions that arrive after `close_and_recycle`, and posting to the completion port that fails.
- io_uring: provided buffers, multishot accept and receive and their re-arming, the unused Parse, Generate and Close messages, reuse of a descriptor while completions of its former connection are outstanding.
- epoll: the descriptor map, accept and receive loops, and use of a connection by the parser after a flush has closed it.
- StreamParser.RequestContext.OnSegment: what becomes of the process after the exception out of `reserve`; the largest size that can be reserved is a parameter.
- The library's connection teardown, routing and request sequencing: operations above 7 alias, and the parser is never reset between requests.
- OpenSSL, nghttp2 and Boost servers, `test.c`, `test.cpp` and the single-buffer hello-world servers: the logic is elsewhere or a subset of what is modelled.

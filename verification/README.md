# A verified model of KRdp's protocol cores

KRdp serves a Plasma desktop over RDP. This project models the parts of it that keep state about the client and proves
what that state is worth: the graphics pipeline and the monitor layouts that feed it, the cursor cache, network
detection with the frame rate estimate, and the clipboard.

Each stateful object of the program is a class. Its methods change the fields the program's methods change, and are
specified by functions on a value of the object's whole state; the theorems are about those functions and about runs
made of them. Calls into FreeRDP append to a ghost trace of what the client received (`wire`, `log`). A fallible call
gets its status from a list that stands for any outcome, and a call that reports failure delivers nothing. Clocks, the
client's messages, the session's streaming state and the tie-breaking of hash tables are inputs.

## Files

- `Basics`, `Sums`: small types and one fact about sets; totals and means.
- `Geometry`, `Packing`: rectangles with QRect's conventions, bounding boxes, counting pixels.
- `MonitorLayout`, `Connectivity`, `Topology`, `DisplayControl`: validating a client's layout, what the neighbour rule
  is worth, what is published for a layout, and the request that carries it to the video stream.
- `GraphicsChannel`: the client side of the graphics pipeline: what it holds, and which PDU is in order.
- `Capabilities`: which of the capability sets advertised is confirmed, and whether it is usable.
- `VideoState`, `VideoStream`: the stream's operations as functions, and the object.
- `ResetEffects`, `FrameQueue`: when a reset succeeds and what it sends; what becomes of every frame offered.
- `SurfaceProofs`, `VideoRuns`, `VideoTheorems`: one reset or submission; runs of all threads; what holds of every run.
- `LayoutAgreement`, `TakenFrame`, `LayoutLoss`, `ClientDesktop`: whether the client shows the layout that was set; what
  becomes of the frame taken before a change; how a change is lost and what follows; from a client's request through the
  video stream to the desktop the client shows.
- `FrameRate`, `FrameRateMeaning`: the estimate behind the requested frame rate; what one update does.
- `Cursor`, `CursorPdus`, `CursorLru`: the cursor cache and its mirror in the client; what is sent for a request; which
  cursors the cache holds.
- `NetworkState`, `NumberSearch`, `NetworkDetection`, `NetworkRuns`, `NetworkStatistics`, `NetworkEchoes`,
  `NetworkStalls`: round trips, bandwidth, sequence numbers; runs with any responses; what is measured and reported; runs
  with a client that echoes the requests it received; what happens beyond 16-bit numbers.
- `ClipboardCodec`, `ClipboardState`, `Clipboard`, `ClipboardRuns`: text formats, handlers, the object, and runs with a
  client that answers requests in the order they were sent.

## How the threads of the video stream are modelled

The submission thread takes a frame (`Take`), reads `pendingReset` (`LoadReset`), copies the layout (`CopyLayout`),
performs the reset on its own surfaces (`Publish`), stores `false` (`ClearReset`) and submits (`SubmitFrame`). A layout
change stores the layout, clears the queue, stores `true`; one thread at a time changes the layout. Each of these
touches one thing other threads touch; every other handler is one step. The theorems of `VideoTheorems` hold for any
interleaving of these steps. Those of `LayoutAgreement` need sends and layout changes not to overlap, and
`ClearResetKeepsAgreementIff` says exactly when an overlap loses a change. Layouts with more than 65536 monitors are
excluded from runs: beyond that the 16-bit surface ids repeat (`DistinctIffFewEnough`). Layouts the decoder accepts have
at most 16.

## Where the program does less than one might expect

- A layout change that falls between the copy of the layout and the store of `false` is lost
  (`OverlapLosesALayoutChange`, reachable by `OverlapIsReachable`). It stays lost until a reset is requested or another
  layout is set; setting the same one once more does not help (`LossEndsIff`), and until then no frame of the new size
  is sent (`AfterTheLossOnlyOldFramesAreSent`).
- The neighbour rule keeps accepted layouts of up to three monitors together; for every larger number there is an
  accepted layout that falls apart (`StayTogetherIffAtMostThree`).
- With a clock that is not set back, no frame rate estimate is ever dropped, so the average that is meant to span one
  second spans the whole session and its list grows without bound (`EstimatesAreNeverRemoved`); it spans one second
  exactly as long as the session does (`EstimatesAreRecentIff`).
- A frame rate change is announced although nothing changed for an odd average (`AnnouncedWithoutChangeIff`): with a
  steady round trip of 9 ms, every second (`SteadyReadingsAnnounceEverySecond`).
- Requests numbered 65536 and up are never settled and stay in the program's table (`LargeNumbersAreNeverSettled`), and
  their echoes settle other requests (`EchoSettlesAnotherIff`): the echo of request 65537 is taken for that of request
  1, and a round trip of over an hour enters the average (`LateEchoSettlesTheFirstRequest`). Even for
  a client that answers every request at once, after at most 65536 requests (76 minutes at the shortest interval) no
  response is taken any more (`PromptClientStalls`), and until the counter wraps the round trip stays what it was and no
  result is reported (`StalledUntilTheWrap`, `StatisticsFreeze`).
- A client that offers H.264 only by version 8.1 is confirmed in version 10.7 with H.264 disabled if it advertises that
  too (`UnusableSetMayBeConfirmed`; the exact condition is `ConfirmedSetIsUsableIff`).
- A clipboard text is decoded in the format requested last, not in the one its data was requested in
  (`AnswerMayBeMisread`; the exact condition is `AnswersAreReadAsMeantIff`).
- Clipboard text that starts with a byte order mark loses it, and text that ends in NULs loses those
  (`UnicodeTextSurvivesIff`).

## Model

| member | source | states |
|---|---|---|
| Geometry.IntersectsIffSharePixel | src/DisplayControl.cpp:263-268 | the overlap test on non-empty rectangles answers exactly whether some pixel belongs to both |
| Geometry.AdjacentIffTouchWithoutOverlap | src/DisplayControl.cpp:35-50 | for positive sizes, adjacency is exactly: the closed rectangles meet (a corner is enough) and no pixel is shared; it is symmetric |
| MonitorLayout.DecodeMonitorLayout | src/DisplayControl.cpp:218-313 | succeeds exactly on layouts meeting an order-free specification (record size, count, sizes, single primary at the origin, no overlap, extent, neighbours), whatever the 32-bit overlap test answers beyond its range; the result lists the monitors in order with unusable optional attributes defaulted; each error names a real defect, and nothing checked before it is wrong |
| MonitorLayout.AcceptedIffAcceptable | src/DisplayControl.cpp:218-313 | what is accepted, in plain numbers: 40-byte records, 1 to 16 of them, even widths and heights from 200 to 8192, one record with the lowest flag set and at 0,0, no pixel in two records, no edges more than 32766 apart, and each of several records touching another |
| MonitorLayout.AttributesAreKeptIffUsable | src/DisplayControl.cpp:270-287 | position, size and primary flag are carried over; physical size, orientation and the pair of scale factors are each kept exactly if usable, and otherwise replaced by an invalid size, 0, and 100 and 100 |
| MonitorLayout.ValidLayoutStaysNearOrigin | src/DisplayControl.cpp:250-295 | one primary at the origin and the extent limit keep every coordinate within 32766 of it, so none is out of 32-bit range |
| Connectivity.ThreeMonitorsStayTogether | src/DisplayControl.cpp:296-309 | if each of up to three monitors has a neighbour, there is no way to split them into two groups that do not touch |
| Connectivity.RowIsValid | src/DisplayControl.cpp:218-313 | for 4 to 16 monitors, a row of two adjacent squares, a gap, and the rest adjacent to each other meets every check of the decoder |
| Connectivity.RowFallsApart | src/DisplayControl.cpp:296-309 | from four monitors on, the first pair of that row touches none of the rest |
| Connectivity.StayTogetherIffAtMostThree | src/DisplayControl.cpp:296-309 | for 1 to 16 monitors: every accepted layout of that many is held together by its neighbours if and only if there are at most three |
| Topology.PublishedExtentIsTheCheckedExtent | src/VideoStream.cpp:389-426 | for every accepted layout the ResetGraphics size equals the extent computed by the decoder's min/max accumulators, is positive and at most 32766 |
| Topology.PublishedOutputsFitTheDesktop | src/VideoStream.cpp:433-465 | monitors of supported size that do not overlap are mapped inside the published desktop starting at 0,0, pairwise disjoint, reaching all four edges, with a total area of at most width times height |
| Topology.PublishedPrimaryIsUnique | src/VideoStream.cpp:410-427 | exactly one published monitor is flagged primary, and it starts at the client's origin |
| Topology.DefinitionsDescribeTheOutputs | src/VideoStream.cpp:411-465 | each monitor definition is the rectangle its surface covers on the output, before translation to the origin, with its own primary flag |
| DisplayControls.DisplayControl.ReceiveMonitorLayout | src/DisplayControl.cpp:54-70 | a message is accepted exactly if its layout is valid, and then replaces the pending request |
| DisplayControls.DisplayControl.AcceptRequestedMonitorLayout | src/DisplayControl.cpp:127-142 | only the pending layout itself can be accepted; it is consumed and set on the video stream; otherwise nothing changes and the error tells which of the two refusals it was |
| DisplayControls.DisplayControl.RejectRequestedMonitorLayout | src/DisplayControl.cpp:144-148 | drops the pending request and nothing else |
| DisplayControls.OnlyValidRequestsAreForwarded | src/DisplayControl.cpp:54-163 | over every run, all layouts forwarded to the video stream are ones the decoder accepts, and there are no more of them than valid requests received |
| DisplayControls.PendingIff | src/DisplayControl.cpp:54-148 | over every run, a layout is pending exactly if it is that of a valid request neither accepted nor rejected nor replaced by another valid one since |
| DisplayControls.ForwardedIffPending | src/DisplayControl.cpp:127-142 | accepting forwards a layout exactly if it is pending in that sense |
| VideoStreams.VideoStream.SetEnabled | src/VideoStream.cpp:265-273 | sets the flag and nothing else |
| VideoStreams.VideoStream.QueueFrame | src/VideoStream.cpp:220-228 | appends the frame while streaming and enabled, otherwise changes nothing |
| FrameQueue.FramesAreConserved | src/VideoStream.cpp:183-247 | in every interleaving, the frames offered while streaming and enabled are, in order, those taken by the thread or cleared by a layout change, one after the other, and then those still waiting; nothing else adds or removes one |
| FrameQueue.TakenUnlessEmpty | src/VideoStream.cpp:184-194 | the oldest waiting frame is taken, and kept to be sent exactly if its width and height are positive |
| FrameQueue.OnlyFramesWithAreaAreSent | src/VideoStream.cpp:184-197 | in every interleaving, every frame sent has positive width and height |
| FrameQueue.LayoutChangeDropsWaitingFrames | src/VideoStream.cpp:230-247 | after a change of the layout, in any continuation, of the frames offered before only the one already taken can be sent |
| VideoStreams.VideoStream.SetMonitorLayout | src/VideoStream.cpp:230-247 | a different layout is stored, empties the queue and asks for a reset; the same one changes nothing |
| VideoStreams.VideoStream.Reset | src/VideoStream.cpp:255-258 | asks for a reset and changes nothing else |
| VideoStreams.VideoStream.OnCapsAdvertise | src/VideoStream.cpp:287-356 | confirms if and only if some advertised set supports H.264 in YUV420, and then the first set of the highest version, usable or not; otherwise closes the session |
| Capabilities.CapabilitiesAreAnswered | src/VideoStream.cpp:287-356 | if a set offers H.264 in YUV420, one PDU is sent and it confirms the first set of the highest version; otherwise nothing is sent and the session is closed; nothing else changes |
| Capabilities.ConfirmedSetIsUsableIff | src/VideoStream.cpp:287-356 | for every advertisement, the set in the PDU sent offers H.264 exactly if the highest version is 10.4 to 10.7 and its first set does not disable AVC, or it is 8.1 and its first set enables AVC420 |
| Capabilities.UnusableSetMayBeConfirmed | src/VideoStream.cpp:287-356 | a concrete advertisement has a set that offers H.264 and is answered with one that does not |
| VideoStreams.VideoStream.OnFrameAcknowledge | src/VideoStream.cpp:358-376 | an unknown frame changes nothing; a pending one is removed and the delay is recorded with 32-bit wrap |
| VideoStreams.VideoStream.TakeFrame | src/VideoStream.cpp:184-190 | removes and returns the oldest queued frame, if any |
| VideoStreams.VideoStream.SubmissionTurn | src/VideoStream.cpp:183-196 | a turn takes the oldest frame, drops it if its size is empty, and otherwise sends it, measuring the bandwidth exactly if a frame was submitted |
| VideoStreams.VideoStream.PerformReset | src/VideoStream.cpp:378-468 | the loops of the reset compute the specified state and verdict under every pattern of call failures |
| ResetEffects.ResetForMonitorSucceedsIff | src/VideoStream.cpp:378-468 | with a layout set, for a frame of one monitor: success exactly if the layout has a monitor of that index and of the frame's size and every call succeeds |
| ResetEffects.ResetForDesktopSucceedsIff | src/VideoStream.cpp:378-468 | with a layout set, for a frame of the desktop: success exactly if the smallest box around the monitors has the frame's size and the three calls succeed |
| ResetEffects.ResetWithoutLayout | src/VideoStream.cpp:380-468 | without a layout: success for index 0 or none, whatever the frame's size, if the three calls succeed; the client then has a desktop of that size with one primary monitor at the origin and one surface of that size mapped there |
| ResetEffects.ResetIsPendingUntilItSucceeds | src/VideoStream.cpp:480-485 | a pending reset is no longer pending after a send exactly if capabilities are confirmed, the frame has data and the reset succeeds |
| ResetEffects.SuccessfulResetSends | src/VideoStream.cpp:403-467 | the exact PDUs of a successful reset: each old surface deleted in order, the desktop published, each output created and mapped in order under ids that count up modulo 2^16 |
| ResetEffects.FirstFrameSends | src/VideoStream.cpp:378-545 | the exact seven PDUs a new stream without a layout has sent after its first frame of any size |
| ResetEffects.SendWithoutReset | src/VideoStream.cpp:470-545 | with no reset pending: the three PDUs of a frame are sent exactly if capabilities are confirmed, it has data, and the surface of its index has its size |
| VideoStreams.VideoStream.SendFrame | src/VideoStream.cpp:470-545 | the whole effect of a send: nothing, a failed reset, or a reset if due and a numbered frame; a bandwidth measurement is started and stopped exactly if a frame was submitted |
| VideoStreams.MeasurementEnclosesAFrame | src/VideoStream.cpp:491-544 | a submission leaves bandwidth results awaited, having started and stopped a measurement if none was under way; without a submission nothing is measured |
| SurfaceProofs.DistinctIffFewEnough | src/VideoStream.cpp:439-440 | ids taken in a row from the wrapping 16-bit counter are pairwise distinct exactly up to 65536 of them |
| SurfaceProofs.ResetKeepsClientInStep | src/VideoStream.cpp:378-468 | whichever calls fail, all PDUs were in order and the client holds exactly the listed surfaces; on success it shows the published layout, one surface per monitor in list order at its place or one for the desktop; a frame that does not fit leaves everything as it was |
| SurfaceProofs.SubmitInOrder | src/VideoStream.cpp:486-545 | a submission is in order at the client and changes nothing the client holds |
| VideoTheorems.PaintingIsSafe | src/VideoStream.cpp:470-545 | in every interleaving each SurfaceCommand lies between StartFrame and EndFrame of one number, after CapsConfirm, on a live surface created and mapped since the last ResetGraphics, of exactly the painted size, at the place of an output of the desktop that reset published |
| VideoTheorems.ClientShowsSomeLayout | src/VideoStream.cpp:389-485 | in every interleaving, whenever no reset is pending, and from the end of a reset to the end of its send, the client's surfaces are the outputs of the desktop published last |
| VideoTheorems.NoSurfaceLeaks | src/VideoStream.cpp:403-467 | in every reachable state the client's surfaces are exactly the server's, with their sizes and distinct ids, across failures, retries and wrap-around |
| VideoTheorems.SubmittedFramesKeepQueueOrder | src/VideoStream.cpp:182-197 | the frames sent are queued frames in queue order, each at most once, numbered 0, 1, 2, ... modulo 2^32, each painted at its size |
| VideoTheorems.ClearingLeavesOnlyTheTakenFrame | src/VideoStream.cpp:239-244 | after the queue is cleared, in any continuation, of the frames queued before only the one already taken can still be sent |
| TakenFrame.TakenFrameIsSentOnlyIfItFits | src/VideoStream.cpp:230-246 | that frame, over all later calls that do not overlap, is sent only if it fits the layout set when it is sent |
| TakenFrame.TakenFrameMustFitTheNewLayout | src/VideoStream.cpp:230-246 | if the layout does not change again, it is sent only if it fits the new layout |
| VideoTheorems.AcknowledgementsAreConserved | src/VideoStream.cpp:358-376 | up to 2^32 frames, the sent numbers are the disjoint union of pending and acknowledged ones, each acknowledged once, and the counts add up |
| VideoTheorems.AcknowledgementEffect | src/VideoStream.cpp:358-376 | a pending number moves to the acknowledged ones, any other changes nothing; the delay is non-negative exactly when the client reports no more than was sent or so much more that it wraps |
| VideoTheorems.FrameDelayIsNeverNegative | src/VideoStream.cpp:372-373 | over every run below 2^31 frames with a client that never reports more than was sent, the delay stays non-negative |
| LayoutAgreement.OtherStepsKeepAgreement | src/VideoStream.cpp:230-258 | no step of any thread but the store of `false` can end the agreement between the layout set and the one shown |
| LayoutAgreement.ClearResetKeepsAgreementIff | src/VideoStream.cpp:480-485 | that store keeps agreement exactly if a change is still under way, no layout is set, or the layout now set publishes the same desktop as the one copied |
| LayoutLoss.OverlapLosesALayoutChange | src/VideoStream.cpp:230-258 | a layout change between the copy and the store leaves the old layout shown, on one surface of the old size, with no reset pending |
| LayoutLoss.OverlapIsReachable | src/VideoStream.cpp:470-485 | the state in which that overlap can happen is reached from a new stream by five calls |
| LayoutLoss.LossEndsIff | src/VideoStream.cpp:230-258 | from a lost change, one step of any thread regains agreement exactly if it requests a reset or stores another layout than the one set |
| LayoutLoss.LostChangeStaysLost | src/VideoStream.cpp:470-489 | through any events without such a step, the client keeps what it holds and shows, and every frame sent has the size of the old surface it names |
| LayoutLoss.AfterTheLossOnlyOldFramesAreSent | src/VideoStream.cpp:230-489 | after that overlap, in any such continuation, agreement is not regained and only frames of the old size are sent |
| LayoutAgreement.SendingIsAtomic | src/VideoStream.cpp:470-545 | the thread's steps without interference add up to sendFrame |
| LayoutAgreement.TurnIsTakeAndSend | src/VideoStream.cpp:183-196 | a turn of the submission loop is exactly a take followed by a send of the runs |
| LayoutAgreement.ChangingIsAtomic | src/VideoStream.cpp:230-247 | the steps of a layout change without interference add up to setMonitorLayout |
| LayoutAgreement.ClientShowsTheLayout | src/VideoStream.cpp:378-485 | when sends and layout changes do not overlap, after every call either a reset is pending, or no layout is set, or the client shows the layout set: its desktop was published last and its surfaces are mapped accordingly |
| ClientDesktop.ClientShowsTheAcceptedRequest | src/DisplayControl.cpp:54-148 | over every run of requests, answers to them and calls of the stream that do not overlap: unless nothing was accepted yet or a reset is pending, the client was given the desktop of the request accepted last, at most 32766 by 32766, and the surfaces it shows lie within that desktop, without overlap (there may be gaps), and reach all its edges |
| LayoutAgreement.SubmittedFramePaintsItsMonitor | src/VideoStream.cpp:486-509 | a submitted frame has the size of the monitor it names, or of the desktop, and is painted on the surface mapped at that place; if a reset was pending the frame fits the layout set |
| LayoutAgreement.ResetSucceedsIff | src/VideoStream.cpp:394-467 | a reset succeeds exactly if the frame fits and ResetGraphics and every create and map call succeed |
| LayoutAgreement.FrameIsSubmittedIff | src/VideoStream.cpp:470-489 | a frame is sent exactly if capabilities are confirmed, it has data, and either the pending reset can be done or the surface has its size; in particular the next fitting frame makes up for a failed reset |
| FrameRate.Estimator.UpdateRequestedFrameRate | src/VideoStream.cpp:547-584 | appends an estimate and, once a second, averages what is kept and requests half of it |
| FrameRate.EstimateIsLargest | src/VideoStream.cpp:549-554 | an estimate is the largest rate up to 120 for which rate times round trip in milliseconds times frames under way is at most 1000 |
| FrameRateMeaning.WhatAnUpdateDoes | src/VideoStream.cpp:547-584 | less than a second after the last averaging an update only appends; otherwise it keeps what is not ahead of the clock, and requests half the mean of that, at least one, announcing it unless exactly that was requested |
| FrameRateMeaning.KeptIsWhatIsNotAhead | src/VideoStream.cpp:563-568 | each estimate is kept on its own account, exactly if it is at most a second ahead of the clock, and they stay in order |
| FrameRate.KeptIsBounded | src/VideoStream.cpp:563-573 | the list averaged is never empty, so the division is defined, and the average lies in 0..120 |
| FrameRate.FrameRateIsBounded | src/VideoStream.cpp:547-584 | over every run with any round trips, delays and clock, the requested rate stays in 1..60 and all estimates in 0..120 |
| FrameRate.EstimatesAreNeverRemoved | src/VideoStream.cpp:563-568 | with a clock never set back, the list is every estimate ever made, in order |
| FrameRate.EstimatesAreRecentIff | src/VideoStream.cpp:563-568 | with such a clock, all estimates kept are at most a second old exactly if the first reading is |
| FrameRate.AnnouncedWithoutChangeIff | src/VideoStream.cpp:575-583 | a change is announced without one exactly for an odd average above two whose half, rounded down, is already requested |
| FrameRate.SteadyReadingsAnnounceEverySecond | src/VideoStream.cpp:547-584 | with a steady round trip of 9 ms, a reading a second and n readings, n changes are announced, all but the first to the rate already requested |
| Cursors.Cursor.SetCursorType | src/Cursor.cpp:155-169 | a change to a type other than image drops the last used cursor and sends the system pointer; the same type changes nothing |
| Cursors.Cursor.Update | src/Cursor.cpp:52-153 | performs one step of the cursor, keeps client and server in step, and leaves the requested cursor shown |
| CursorPdus.WhatIsSent | src/Cursor.cpp:52-153 | what a step sends, by what the client has and shows: nothing, the default pointer, the slot of a picture it has, or the picture as a new pointer below 96 by 96 and a large one up to 384, for the next free slot or one in use, followed by that slot |
| CursorPdus.PicturesAreSentBySize | src/Cursor.cpp:115-145 | over every behaviour, each new pointer is below 96 by 96 and each large one at least 96 in some dimension and at most 384 in both |
| CursorPdus.TypeIsShown | src/Cursor.cpp:155-169 | hiding the pointer or going back to the default one is what the client then shows, and its pictures stay |
| Cursors.NextStaysCoherent | src/Cursor.cpp:52-169 | every step keeps the slots gapless, within capacity, each entry under its own number, no cursor twice, the client's slots equal, and the client showing the requested cursor, or the default one if too large, even when nothing is sent |
| CursorLru.ClientAlwaysAgrees | src/Cursor.cpp:52-169 | this agreement holds after every update of every behaviour, with any clock and any tie-breaking |
| CursorLru.CacheHoldsTheMostRecent | src/Cursor.cpp:74-152 | with increasing timestamps a cursor is held exactly if it was requested and fewer than N distinct others were requested since; below capacity, everything requested is held |
| CursorLru.UploadsExactlyMisses | src/Cursor.cpp:87-152 | a picture is sent in full exactly for a request that is not among the N most recent distinct ones |
| CursorLru.LargerCacheIsNoWorse | src/Cursor.cpp:107-113 | over the same requests a larger cache holds everything a smaller one holds and never sends more pictures |
| NetworkDetections.NetworkDetection.NextSequenceNumber | src/NetworkDetection.cpp:224-232 | the loop ends as long as some number is free and returns the first free one, and the counter moves past it |
| NetworkDetections.NetworkDetection.StartBandwidthMeasure | src/NetworkDetection.cpp:105-113 | starts a measurement only when none is under way |
| NetworkDetections.NetworkDetection.StopBandwidthMeasure | src/NetworkDetection.cpp:115-123 | stops only a started measurement |
| NetworkDetections.NetworkDetection.Update | src/NetworkDetection.cpp:125-141 | while streaming and 70 ms after the last, records and sends a request under a free number |
| NetworkDetections.NetworkDetection.OnRttMeasureResponse | src/NetworkDetection.cpp:143-162 | a response to an outstanding request settles it and, if time has passed, enters the window |
| NetworkDetections.NetworkDetection.OnBandwidthMeasureResults | src/NetworkDetection.cpp:164-181 | results count only when awaited, and update the average unless the bandwidth is zero |
| NetworkDetections.NetworkDetection.UpdateAverageRtt | src/NetworkDetection.cpp:183-222 | prunes the window, recomputes minimum and average, and reports at most once a second |
| NumberSearch.NextNumberIsUnused | src/NetworkDetection.cpp:224-232 | with fewer than 2^32 - 1 requests outstanding the number found is nonzero, not outstanding, the first such, and at most one more number is passed than there are requests, also around the wrap |
| NetworkRuns.BandwidthMeasuringAlternates | src/NetworkDetection.cpp:105-123 | over every run measuring goes start, stop, results in strict rotation, the state is where the rotation stands, and the queued-stop state is never entered |
| NetworkRuns.RatesAreLimited | src/NetworkDetection.cpp:131-141 | over every run, with any clock, the i-th and j-th requests are at least (j-i) times 70 ms apart, and results (j-i) seconds |
| NetworkRuns.RequestsAreConserved | src/NetworkDetection.cpp:125-162 | over every run with any responses, the numbers issued are those matched and those outstanding together, counted with repetition, and only 16-bit numbers are matched |
| NetworkRuns.RoundTripsStartWhenIssued | src/NetworkDetection.cpp:138-151 | over every run, the time subtracted when a number is settled is when that number was last issued |
| NetworkRuns.EchoSettlesAnotherIff | src/NetworkDetection.cpp:138-151 | the echo of an outstanding request settles a different one exactly if its number needs more than 16 bits and the number cut to 16 bits is outstanding |
| NetworkRuns.LargeNumbersAreNeverSettled | src/NetworkDetection.cpp:138-151 | a request with a larger number stays outstanding in every continuation |
| NetworkEchoes.EchoSettlesItsOwnIff | src/NetworkDetection.cpp:138-162 | over every run with an echoing client, an echo that is taken settles the very request it echoes exactly if that number fits 16 bits and was not issued again since; the round trip always starts when the settled request was issued |
| NetworkEchoes.EchoesSettleTheirOwn | src/NetworkDetection.cpp:125-162 | over every run in which the counter fits 16 bits, every match settles the request it echoes, with that request's own time, and no request is settled twice |
| NetworkEchoes.TicksIssueInOrder | src/NetworkDetection.cpp:125-141 | after n unanswered requests, up to 65537, exactly 1 to n are outstanding, each with its own time |
| NetworkEchoes.LateEchoSettlesTheFirstRequest | src/NetworkDetection.cpp:138-162 | a concrete run: the echo of request 65537 settles request 1, leaves 65537 outstanding, and its false round trip becomes the average |
| NetworkStalls.SomeResponseSettlesIff | src/NetworkDetection.cpp:143-151 | some response settles a request if and only if one with a 16-bit number is outstanding |
| NetworkStalls.StalledUntilTheWrap | src/NetworkDetection.cpp:125-162 | once all outstanding numbers and the counter exceed 16 bits, whatever arrives before the counter wraps, nothing is settled or measured |
| NetworkStalls.StatisticsFreeze | src/NetworkDetection.cpp:164-222 | and once the measurements are out of date, minimum and average stay the same and no result is reported, whatever bandwidth results come |
| NetworkStalls.PromptClientStalls | src/NetworkDetection.cpp:125-162 | over every run of requests each answered before the next is sent, that state is reached after at most 65536 requests |
| NetworkRuns.StatisticsAlways | src/NetworkDetection.cpp:183-204 | over every run minimum and average are both unset or 0 < minimum <= average |
| NetworkRuns.WindowStatistics | src/NetworkDetection.cpp:183-202 | after an update the window is exactly the measurements at most 500 ms old, in order; the minimum is attained and the average lies between minimum and maximum |
| NetworkStatistics.WindowIsWhatIsRecent | src/NetworkDetection.cpp:183-193 | each measurement is kept on its own account, exactly if it is at most 500 ms old, and they stay in order |
| NetworkStatistics.AverageIsTheMean | src/NetworkDetection.cpp:195-202 | for any function that adds up round trips, the average is that total over the number of measurements kept, rounded down |
| NetworkStatistics.MeanOfTwo | src/NetworkDetection.cpp:195-202 | 10 ms and 30 ms give an average of 20 ms and a minimum of 10 ms |
| NetworkStatistics.WhatIsReported | src/NetworkDetection.cpp:183-222 | nothing without measurements; otherwise a change of the round trip, and one second or more after the last result also a result with minimum, average and bandwidth under an unused number |
| NetworkStatistics.WhatATickSends | src/NetworkDetection.cpp:125-141 | a request is sent, under an unused number, exactly while streaming and 70 ms or more after the last |
| NetworkStatistics.WhatAResponseMeasures | src/NetworkDetection.cpp:143-162 | a response to an outstanding request removes it, and the time since it was issued joins the window exactly if it is positive |
| NetworkStatistics.WhatTriggersAnUpdate | src/NetworkDetection.cpp:143-181 | a positive round trip and an awaited bandwidth that is not zero each bring the statistics up to date and report them at once; other responses and results do not |
| NetworkStatistics.BandwidthIsTheLastMeasured | src/NetworkDetection.cpp:164-181 | over every run, the bandwidth reported is that of the last awaited results that were not zero |
| NetworkRuns.ReportedResult | src/NetworkDetection.cpp:210-221 | a reported result carries a free nonzero number and the two round trips rounded down to milliseconds, minimum at most average |
| ClipboardCodec.EncodeClipboardText | src/ClipboardTextCodec_p.h:19-33 | the terminated text in the format asked for, nothing for other formats |
| ClipboardCodec.DecodeClipboardText | src/ClipboardTextCodec_p.h:35-61 | refuses absent, oversized, odd or unknown data, and otherwise chops trailing NULs |
| ClipboardCodec.ChoppedText | src/ClipboardTextCodec_p.h:57-59 | chopping leaves a prefix that does not end in NUL, and removes only NULs |
| ClipboardCodec.UnicodeRoundTrip | src/ClipboardTextCodec_p.h:19-61 | decoding encoded Unicode text is refused exactly above 16 MiB, otherwise gives the text without a leading byte order mark and trailing NULs |
| ClipboardCodec.UnicodeTextSurvivesIff | src/ClipboardTextCodec_p.h:19-61 | the text comes back unchanged exactly if it is within the limit, has no leading byte order mark and no trailing NUL |
| ClipboardCodec.UnicodeIsLittleEndian | src/ClipboardTextCodec_p.h:19-26 | Unicode text goes out as UTF-16, low byte first, ended by two zero bytes |
| ClipboardCodec.DecodingIsRefusedIff | src/ClipboardTextCodec_p.h:35-56 | data is refused exactly if absent, above 16 MiB, in no text format, or Unicode of odd size |
| ClipboardCodec.LocalDataDecodesTo | src/ClipboardTextCodec_p.h:51-61 | 8-bit data decodes to what the locale makes of it, without the NULs at the end |
| ClipboardCodec.LocalTextRoundTrip | src/ClipboardTextCodec_p.h:27-31 | 8-bit text the locale can represent comes back without trailing NULs, or is refused for its size |
| ClipboardState.ChosenFormat | src/Clipboard.cpp:211-222 | Unicode text is chosen if offered anywhere, else the first 8-bit text format, else nothing |
| ClipboardState.FormatListIsAnswered | src/Clipboard.cpp:209-247 | a format list is always acknowledged, and then the format wanted from it is asked for exactly while enabled; nothing else changes |
| ClipboardRuns.TextsAnswerRequestsInOrder | src/Clipboard.cpp:209-288 | over every run with a client that answers in order, each text taken is the answer to a request of its own, decoded in the format of the last request sent by then, and no two texts are taken for the same last request |
| ClipboardRuns.AtMostOneTextPerRequest | src/Clipboard.cpp:209-288 | over every run with any client, there is a data request before every text taken and after the text before it, and a format set is that of a request no text was taken for |
| ClipboardRuns.ResponseAlternates | src/Clipboard.cpp:275-288 | a response adds at most one text, decoded in the format of the request it follows |
| ClipboardRuns.AnswersAreReadAsMeantIff | src/Clipboard.cpp:209-288 | after every run, whatever data answers the next request is decoded as it was asked for exactly if a request is under way and the last one sent asks for the same encoding |
| ClipboardRuns.AnswerMayBeMisread | src/Clipboard.cpp:209-288 | a concrete run: Unicode data that answers the first of two requests is decoded as 8-bit text |
| ClipboardRuns.EveryOfferIsAnnounced | src/Clipboard.cpp:137-169 | over every run, when there is a text to offer and no announcement is queued, one was sent since the channel was last started, the clipboard enabled and the text set |
| ClipboardRuns.WhatIsQueued | src/Clipboard.cpp:137-169 | an announcement is queued exactly when setting a text, enabling or starting leaves the channel started, the clipboard enabled and a text set |
| ClipboardRuns.LastTextIsOffered | src/Clipboard.cpp:162-169 | over every run, the text offered is the one set last |
| ClipboardRuns.ClosedSharesNothing | src/Clipboard.cpp:171-184 | after closing, until it is enabled again, whatever comes, nothing is announced, asked for, handed out or taken |
| ClipboardRuns.SuccessMeansStarted | src/RdpConnection.cpp:447-450 | over every run in which a failed initialization is followed by closing, as the connection does, initializing reports success exactly if the channel is started afterwards |
| ClipboardRuns.SuccessMeansStartedIff | src/Clipboard.cpp:103-143 | over every run of a clipboard on its own, an initialization that reports success leaves the channel started exactly if there was no context before or it was started already |
| ClipboardRuns.ContextMayNotBeStarted | src/Clipboard.cpp:111-135 | a context that is there and not started is the result of a failed start |
| ClipboardRuns.FailedStartIsNotRetried | src/Clipboard.cpp:103-143 | of a clipboard on its own: from such a state, until it is closed, every further attempt reports success and starts nothing |
| ClipboardState.DataRequestIsAnswered | src/Clipboard.cpp:254-273 | a request for data is answered exactly while enabled with a text in a text format, with the bytes of that text in that format, and refused otherwise |
| ClipboardState.AnswerIsTakenIff | src/Clipboard.cpp:275-288 | an answer is taken, and ends the request, exactly while enabled if it reports success and its data is a text in the format asked for last; otherwise nothing changes |
| ClipboardState.SharedTextReachesTheClient | src/Clipboard.cpp:254-273 | data is sent exactly while enabled, with text to offer, for a text format, and otherwise refused; Unicode data decodes to the text offered |
| Clipboards.Clipboard.Initialize | src/Clipboard.cpp:103-143 | an existing channel is left alone with success; otherwise it is created and started, each of which may fail, and a text to offer is queued for announcement once started |
| Clipboards.Clipboard.SetEnabled | src/Clipboard.cpp:145-155 | a change drops the request under way, and enabling queues an announcement if the channel is started and there is a text |
| Clipboards.Clipboard.SetServerText | src/Clipboard.cpp:162-169 | stores the text to offer and queues an announcement while started and enabled |
| Clipboards.Clipboard.Close | src/Clipboard.cpp:171-184 | an open channel, started or not, is closed; the clipboard is disabled and forgets its request |
| Clipboards.Clipboard.SendServerData | src/Clipboard.cpp:186-207 | announces Unicode text only while open, started, enabled and with text to offer |
| Clipboards.Clipboard.OnClientFormatList | src/Clipboard.cpp:209-247 | always answers the list, and requests data exactly if enabled and a text format is offered |
| Clipboards.Clipboard.OnClientFormatDataRequest | src/Clipboard.cpp:254-273 | answers with the encoded text, or a refusal if there is nothing to send |
| Clipboards.Clipboard.OnClientFormatDataResponse | src/Clipboard.cpp:275-288 | a successful, decodable answer is taken and ends the request; any other leaves it |

## Left out

- The session around these objects (connection setup, server, peer context, portals, PipeWire, input, audio, settings):
  socket and desktop plumbing that only feeds them. What remains of it is whether the session is streaming.
- DeleteSurface, StartFrame, SurfaceCommand and EndFrame are taken to succeed: the program ignores their status.
- Failure to open the graphics and display channels: the session ends then, so those objects start open.
- The frame rate estimator is an object of its own here; the program keeps its fields in the video stream.
- Network detection logs what it sends apart from the graphics channel: that a measurement encloses the PDUs of its frame
  is the order of the calls in `Submit`, not a contract. The runs of `NetworkRuns` allow start and stop calls in any
  order, and so include those of a submission.
- Narrowing to 16 bits of sizes, origins and hotspots inside FreeRDP's structures, which are not part of this model; for
  accepted layouts `PublishedExtentIsTheCheckedExtent` keeps sizes and origins below 2^15.
- Overflow of sums of round trips and estimates: sums are unbounded integers.
- Pictures, H.264 data and damage regions are opaque; the pixel conversion for pointers is not modelled.
- The locale's 8-bit text conversion is a parameter. Qt's UTF-16 converter is splitting and joining of code units, with
  a leading byte order mark taken as such when decoding.
- A missing destination pointer for decoding a layout, and the initial layout read from the connection settings, which
  goes through the same decoder.
- Layout changes by two threads at once: a change that starts while another is under way is dropped from the runs.
- Data races below the steps described above, and real time passing in the submission thread.
- NetworkDetections.NetworkDetection.NextSequenceNumber: requires a free number, because without one the loop of the
  program does not end.

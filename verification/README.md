# Verified model of Mir's buffer swapping, frame pacing, culling, window tree and cursor loader

A Dafny model of five parts of Mir, with proofs about every input, every run or every reachable state.

**Buffer swapping.** A client stream draws into buffers that it exchanges with the server. The
*vault* records who holds each buffer, the *depository* drives it for the render thread, and the
*factory* pairs allocation replies with requests. `VaultModel.dfy` has the vault as a class whose methods
are proved against functions on its state. `SwapProtocol.dfy` has the whole protocol as a state machine whose
steps interleave at lock granularity: each critical section is one step, and another thread may resize, change
the interval, deliver a buffer or disconnect between any two of them. `SwapInvariant.dfy` has the inductive invariant,
`SwapTheorems.dfy`, `SwapLiveness.dfy`, `SwapExcess.dfy` and `SwapCallbacks.dfy` what follows for every run, `VaultRuns.dfy` the vault
by itself under any sequence of calls, `BufferSwapping.dfy` the depository as a class whose methods are
proved to be runs of the protocol, and `SwapLostCallback.dfy` a concrete run with a surprising end (below).

**Frame pacing** (`FramePacing.dfy`). When to wake up for the next frame, and the spacing and phase of whole
sequences of waits.

**Occlusion culling** (`Occlusion.dfy`). The backward erase-while-iterating walk, and that it leaves every
pixel of the picture as it was.

**Window tree and window states** (`WindowTree.dfy`, `WindowManagement.dfy`, `WindowStates.dfy`,
`WindowJourney.dfy`, `WindowRuns.dfy`, `ResizeConstraints.dfy`). The forest of windows under additions, removals and state requests, moving and raising a tree, the restore
round trip, and the arithmetic of constrained resizing.

**Cursor files and themes** (`XcursorFormat.dfy`, `XcursorRoundTrip.dfy`, `XcursorTheme.dfy`). Choosing and
loading images, a writer and its round trip through the loader, and the normalisation of theme lists.

`dafny verify dfyconfig.toml` checks everything.

## What the environment is assumed to do

- The server answers each allocation once, with an id it has not used before, and gives each submitted buffer
  back once. The surface map holds every delivered buffer, with a size that never changes.
- A stream starts with at least one buffer and has one render thread. It is destroyed when no thread is inside it.
- Time is nanoseconds on one monotone clock. What a call reads (the clock, the server's vsync, the clock
  again) is its parameter.
- HOME, the lines of an index file and the bytes of a cursor file are parameters.

## Where the code does not do what one would expect

- A `done` callback can be lost (src/client/buffer_vault.cpp:220-231). If the stream is resized just before a
  transfer is settled and resized back before the next withdraw, the callback is parked although a buffer lies
  free, and no promise stands behind it; `StrandedIff` is the exact condition for that. The next check then overwrites
  it if and only if in between the connection was not lost and no arriving buffer was kept, and no free buffer has
  the stream's size (`LostIff`). `CallbackCanBeLost` is such a run. From then on the wait handle expects a result
  too many on every run (`LostForGood`). Without a resize in that window nothing is lost (`CallbackAccounting`).
- A cursor file with an image of size zero can make the loader pick no size or the wrong one, because zero doubles as
  "none yet" (examples/xcursor.c:398-426). `ChoiceCanBeWrong` shows both. `ChoiceRightIff`: for a given request the
  choice is right if and only if the nearest size is not zero.
- An Inherits value with only separators still visits one theme, the nameless one, and a colon inside a name splits it
  (examples/xcursor.c:731-790). `WalkVisitsTokensIff` gives the exact condition, `WalkMeetsNameless` and `WalkSplitsName` the examples.
- Matching replies by size alone can give a reply to another's request (src/client/buffer_factory.cpp:85-134). Along any
  run of requests, answers in any order and cancellations, every reply goes to the request that caused it (or to none,
  if that was cancelled) if and only if every answer on the way was in turn: no older live request of its size
  pending, and for a cancelled one no live request of its size at all (`AlwaysPairedIff`). One answer out of turn
  also spoils later ones that are in turn (`SwappedReplies`), and a reply to a cancelled request can take another
  context's place (`StolenReply`).
- A titlebar is a window like any other, and can itself be asked to change state (examples/server_example_canonical_window_manager.cpp:482-600).
  Its size then need not match its window (`TitlebarCanMisfit`). Starting from no windows, the titlebars of all restored
  windows fit all along if and only if every request that shows a titlebar in a new state happens to give it the
  size its restored window needs (`TitlebarsAlwaysFitIff`).
- Snapping to increments goes over the maximum size if and only if the clamped extent is at least half an increment beyond the
  last whole increment in the range (`SnappedOverIff`). The maximum aspect correction can break the minimum
  ratio, even with both ratios equal (`MinRatioCanFail`). The position adjustment of a left or top resize keeps the
  opposite edge only if the size was granted as asked (`OppositeEdgeIff`).

## Model

| member | source | states |
|---|---|---|
| SwapTheorems.ProgressBound | src/client/buffer_vault.cpp:235-282 | From any reachable state with a waiting promise, along every run without resize, interval change or disconnection, once the number of arrivals exceeds (wrong-sized buffers at the server, on the way or requested) + (excess over the needed count), the promise at the head has been kept, in its turn. |
| SwapLiveness.NoStarvation | src/client/buffer_vault.cpp:235-282 | Whatever the schedule, every run without resize, interval change, disconnection or destruction that is longer than a measure of its first state has served the client waiting there: with deadlock freedom, no such schedule starves it. |
| SwapLiveness.StepWorks | src/client/buffer_vault.cpp:235-282 | Every such step, of any thread or the server, serves the waiting client or strictly lowers the measure. |
| SwapTheorems.ArrivalServesOrAdvances | src/client/buffer_vault.cpp:241-281 | Every arrival either keeps the oldest promise with that very buffer or strictly lowers the delay measure and leaves the queue alone. |
| SwapExcess.ComebackSheds | src/client/buffer_vault.cpp:254-266 | A buffer in the map that comes back while there are more than needed lowers the surplus by exactly one, whatever its size, is freed, and asks for no other. |
| SwapExcess.SurplusGoes | src/client/buffer_vault.cpp:254-266 | Along any run with the interval fixed the surplus never grows, every comeback takes one from it, and it is gone after as many comebacks as it was large. |
| SwapTheorems.ServedInTime | src/client/buffer_vault.cpp:235-282 | The bound by induction over the run, from any state satisfying the invariant. |
| SwapTheorems.DeadlockFree | src/client/buffer_stream.cpp:187-202 | In every reachable state with a waiting promise, some buffer is at the server, on its way, or being allocated, and a supplying step is enabled. |
| SwapTheorems.RenderThreadProgress | src/client/buffer_stream.cpp:163-202 | The render thread itself can always take a step unless it waits for a promise or an exception has left the depository. |
| SwapTheorems.Conservation | src/client/buffer_vault.cpp:153-189 | In every reachable state the buffer count is the map entries plus the allocations not yet delivered into it, so it never drops below zero; the needed count is initial plus one exactly at interval zero. |
| SwapTheorems.NoLostWakeUp | src/client/buffer_vault.cpp:145-194 | In every reachable state with a waiting promise no buffer in the map is free. |
| SwapTheorems.FirstComeFirstServed | src/client/buffer_vault.cpp:274-279 | Promises are kept in the order they were made; kept and queued ones account for all that were made. |
| SwapTheorems.OwnershipAgreement | src/client/buffer_vault.cpp:196-218 | On every run the vault's owners agree with the `owned` flags, at most one buffer is with the producer, and none of the three guards ever fires. |
| SwapTheorems.HandedOutFits | src/client/buffer_vault.cpp:130-143 | Whichever step hands a buffer to the producer, the buffer has the stream's size at that moment. |
| SwapTheorems.NothingHeldIsFreed | src/client/buffer_vault.cpp:152-193 | Before the destructor, exactly the delivered buffers that left the vault have been freed, once each, and nothing held by the producer or the server. |
| SwapTheorems.ReleasedExactlyOnce | src/client/buffer_vault.cpp:80-98 | A connected run ending in the destructor has freed every delivered id exactly once and no other. |
| SwapTheorems.DestroyFrees | src/client/buffer_vault.cpp:80-98 | The destructor frees what is left in the map while connected, and nothing once disconnected. |
| SwapTheorems.CallbackAccounting | src/client/buffer_vault.cpp:220-233 | Each callback runs at most once; settled callbacks are run, parked or overwritten; the wait handle's books balance; without a resize in the window nothing is overwritten and a parked callback has a promise behind it. |
| SwapTheorems.StrandedIff | src/client/buffer_vault.cpp:145-176 | A withdraw leaves a parked callback with no promise behind it exactly when a callback is parked and a free buffer has the stream's size. |
| SwapCallbacks.LostIff | src/client/buffer_vault.cpp:220-231 | A callback parked in a reachable state is lost at the next check if and only if in between the connection was not lost and no arriving buffer was kept, and no free buffer then has the stream's size. |
| SwapCallbacks.LostForGood | src/client/buffer_vault.cpp:227-231 | Losses never decrease along a run, and the wait handle always expects at least that many results more than it has received. |
| SwapCallbacks.StepParked | src/client/buffer_vault.cpp:284-301 | Between checks a parked callback stays parked until a disconnection or a kept arrival runs it, and none is lost. |
| SwapTheorems.DisconnectedForGood | src/client/buffer_vault.cpp:284-301 | Along any run after `disconnected`, no promise and no deferred callback is ever pending again. |
| SwapTheorems.TrimToTheEnd | src/client/buffer_vault.cpp:337-350 | The trimming loop, one critical section per buffer, is a run of the protocol that ends in what the vault's own method computes, with the same ids freed. |
| SwapTheorems.RunKeepsInv | src/client/buffer_vault.cpp:145-352 | Every run keeps the invariant. |
| SwapTheorems.ReachableMapped | src/client/buffer_vault.cpp:118-128 | In every reachable state each lookup of the next step finds its buffer. |
| SwapInvariant.InitInv | src/client/buffer_vault.cpp:58-78 | A new stream with at least one buffer satisfies the invariant. |
| SwapInvariant.StepKeepsInv | src/client/buffer_vault.cpp:145-352 | Each of the sixteen kinds of step keeps the invariant (places, flags, counts, waits, tickets, callbacks, releases). |
| SwapInvariant.ArriveKeeps | src/client/buffer_vault.cpp:235-282 | An arrival keeps it in all three outcomes. |
| SwapInvariant.WithdrawKeeps | src/client/buffer_vault.cpp:145-194 | So does a withdraw: clean-up, then a buffer or a promise. |
| SwapInvariant.SetIntervalKeeps | src/client/buffer_vault.cpp:320-352 | So does an interval change, with other threads free to run between the turns of its loop. |
| SwapLostCallback.CallbackCanBeLost | src/client/buffer_vault.cpp:220-231 | A reachable state in which one callback has been overwritten and the wait handle expects two results more than it received. |
| SwapProtocol.ArriveIsInbound | src/client/buffer_vault.cpp:235-282 | The protocol's arrival step is the vault's operation, in state and in calls made. |
| SwapProtocol.WithdrawIsWithdraw | src/client/buffer_vault.cpp:145-194 | The same for withdraw. |
| SwapProtocol.CheckIsSettle | src/client/buffer_vault.cpp:220-232 | The same for the second half of an outbound transfer. |
| VaultRuns.AlwaysFairAndAwake | src/client/buffer_vault.cpp:145-352 | For the vault alone, under any sequence of withdraws (any number outstanding), arrivals of any buffers, deposits, transfers, resizes, interval changes and disconnection: promises are kept in order, and while any waits no buffer lies free. |
| VaultRuns.ArrivalServesOldest | src/client/buffer_vault.cpp:274-279 | A kept arrival goes to the oldest of the queued promises; any other arrival leaves the queue alone. |
| VaultModel.AvailableIsRight | src/client/buffer_vault.cpp:130-143 | There is an available buffer exactly when a free one of the right size exists; it is the lowest-numbered one other than the buffer received last, or that buffer if no other will do. |
| VaultModel.WithdrawFinds | src/client/buffer_vault.cpp:145-175 | With a free buffer of the stream's size: the right one goes to the producer, exactly the free misfits leave the map and are freed, every other buffer stays as it was, nothing is requested. |
| VaultModel.WithdrawQueues | src/client/buffer_vault.cpp:177-192 | Without one: the promise joins the queue's end, and one buffer of the stream's size is requested exactly when, without the misfits, there are fewer than needed. |
| VaultModel.InboundSheds | src/client/buffer_vault.cpp:254-266 | A known buffer arriving while there are too many: freed, the count down by one, nothing requested, whatever its size. |
| VaultModel.InboundSwaps | src/client/buffer_vault.cpp:242-267 | Otherwise one of the wrong size: freed, the count unchanged, one of the stream's size requested. |
| VaultModel.InboundKeeps | src/client/buffer_vault.cpp:250-281 | Otherwise: kept, for the oldest promise or as a free buffer, and a parked callback runs. |
| VaultModel.IntervalToZero | src/client/buffer_vault.cpp:328-334 | To interval zero: both counts up by one and one buffer of the stream's size requested. |
| VaultModel.IntervalBack | src/client/buffer_vault.cpp:335-351 | Back from zero: the needed count is the initial one; free buffers are freed, lowest number first, until there are no more than needed or none is free; all others stay. |
| VaultModel.EraseMisfits | src/client/buffer_vault.cpp:152-166 | The erase-while-iterating loop removes exactly the free buffers of the wrong size, lowers the count by as many, and lists each once for freeing. |
| VaultModel.TrimLoop | src/client/buffer_vault.cpp:338-350 | The trimming loop leaves what the specification function leaves and lists exactly the removed ids. |
| VaultModel.TrimAllStops | src/client/buffer_vault.cpp:338-350 | Trimming stops only at the needed count or with nothing free, removes only free buffers, keeps the count in step with the map and never goes below the target. |
| VaultModel.BufferVault.constructor | src/client/buffer_vault.cpp:58-78 | A new vault: empty, connected, interval one, all three counts the initial one, one request of the size per initial buffer. |
| VaultModel.BufferVault.WithdrawBuffer | src/client/buffer_vault.cpp:145-194 | New state, calls made and result of a withdraw; a buffer handed out at once is, among the buffers before the call, the lowest-numbered free one of the right size other than the one received last (which only goes if no other will do), and a queued promise means there was none; throws exactly when disconnected, changing nothing. |
| VaultModel.BufferVault.Deposit | src/client/buffer_vault.cpp:196-205 | Succeeds exactly for a buffer with the producer, which then holds content; else throws and changes nothing. |
| VaultModel.BufferVault.MarkOutbound | src/client/buffer_vault.cpp:210-215 | Succeeds exactly for a buffer with content, which then is the server's; else throws and changes nothing. |
| VaultModel.BufferVault.SettleOutbound | src/client/buffer_vault.cpp:220-232 | Runs the callback now exactly when a free buffer of the right size exists, parks it otherwise; throws when disconnected. |
| VaultModel.BufferVault.WireTransferInbound | src/client/buffer_vault.cpp:235-282 | New state and calls of an arrival; while there are too many, a known buffer leaves, the count drops and nothing is requested; else the count stays, the buffer is kept exactly if it has the right size, and one is requested exactly if not; it becomes the last received. |
| VaultModel.BufferVault.Disconnect | src/client/buffer_vault.cpp:284-301 | Promises are dropped and the deferred callback runs once. |
| VaultModel.BufferVault.SetInterval | src/client/buffer_vault.cpp:320-352 | New state and calls of an interval change, including the whole trimming loop and which ids it frees. |
| VaultModel.BufferVault.Destroy | src/client/buffer_vault.cpp:80-98 | While connected, every buffer in the map is freed once; otherwise none. |
| BufferSwapping.Buffer.Submitted | src/client/buffer.cpp:45-53 | Succeeds exactly for an owned buffer, which then is unowned and unmapped. |
| BufferSwapping.Buffer.Received | src/client/buffer.cpp:55-64 | The buffer is owned again. |
| BufferSwapping.BufferDepository.constructor | src/client/buffer_stream.cpp:145-157 | A new depository is the protocol's initial state after its first withdraw. |
| BufferSwapping.BufferDepository.AdvanceCurrentBuffer | src/client/buffer_stream.cpp:163-169 | The buffer moves from the future to the current slot; a broken promise throws and leaves the slot as it was. |
| BufferSwapping.BufferDepository.Submit | src/client/buffer_stream.cpp:187-202 | From any reachable state, an uninterrupted submit leads to the reachable state of taking, depositing, marking, sending, settling and withdrawing, with all calls and flags; it fails only on a broken promise or a lost connection. |
| BufferSwapping.SwapOutcome | src/client/buffer_stream.cpp:187-202 | What a submit comes to: the buffer is at the server, and if a free buffer of the right size existed, the callback has run and the right one of them is ready; otherwise the callback is parked and the next buffer is promised. |
| BufferSwapping.BufferDepository.IncomingBuffer | src/client/buffer_vault.cpp:51-55 | A received buffer leads to the protocol's arrival step, waking the waiting future when its promise is served. |
| BufferSwapping.BufferDepository.LostConnection | src/client/buffer_stream.cpp:219-222 | Leads to the protocol's disconnect step: a waiting future is broken. |
| BufferSwapping.BufferDepository.SetInterval | src/client/buffer_stream.cpp:232-237 | The clamped change with its whole trimming loop: a run of one switching step and trimming turns; any interval up to zero means zero, any other one; to zero, both counts rise and one buffer is requested; back, the needed count is the initial one and there are no more buffers than needed or none free; the freed ids are those that left the map. |
| BufferSwapping.BufferDepository.SetSize | src/client/buffer_stream.cpp:204-211 | Depository and vault get the new size; nothing else in the vault changes. |
| BufferSwapping.SwappedReachable | src/client/buffer_stream.cpp:187-202 | The state after an uninterrupted submit is reachable, the submitted buffer alone has lost its flag, and the thread is idle unless the connection is lost. |
| BufferSwapping.SentReachable | src/client/buffer_vault.cpp:196-218 | No guard stands in the way of depositing, marking and sending the current buffer. |
| BufferAllocation.BufferFactory.ExpectBuffer | src/client/buffer_factory.cpp:57-69 | The request joins the end of the list. |
| BufferAllocation.BufferFactory.GenerateBuffer | src/client/buffer_factory.cpp:85-134 | The first request of the reply's size is removed and answered, with the server's id or a fresh negative one; an unrequested reply changes nothing. |
| BufferAllocation.BufferFactory.CancelRequestsWithContext | src/client/buffer_factory.cpp:136-147 | The erase loop leaves exactly the other contexts' requests. |
| BufferAllocation.FirstOfSize | src/client/buffer_factory.cpp:88-92 | The first request of a size, or the end of the list. |
| BufferAllocation.OthersMembers | src/client/buffer_factory.cpp:136-147 | Cancelling removes every request of the context and keeps every other as often as it occurred. |
| BufferAllocation.OthersInOrder | src/client/buffer_factory.cpp:136-147 | Cancelling distributes over concatenation, so the rest keep their order. |
| BufferAllocation.AlwaysPairedIff | src/client/buffer_factory.cpp:57-147 | Over any run of atomic expect-and-allocate, answers in any order and cancellations: every reply goes to the request that caused it, or to none if that was cancelled, if and only if every answer on the way was in turn. |
| BufferAllocation.AlwaysInStep | src/client/buffer_factory.cpp:57-147 | Answers in turn (equal sizes in order, sizes interleaved freely) keep the expected requests equal to the live pending ones, with one pairing per answer. |
| BufferAllocation.PairedIffInTurn | src/client/buffer_factory.cpp:88-95 | While the client expects exactly the live pending requests, a reply is given right if and only if it is in turn. |
| BufferAllocation.OutOfTurnMispairs | src/client/buffer_factory.cpp:88-132 | The first answer out of turn leaves a wrong pairing on every continuation. |
| BufferAllocation.SwappedReplies | src/client/buffer_factory.cpp:88-132 | Two equal requests answered in reverse: both replies go to the other's request, though the second is in turn. |
| BufferAllocation.StolenReply | src/client/buffer_factory.cpp:85-147 | The reply to a cancelled request is given to another context's request of the same size. |
| FramePacing.FrameClock.SetPeriod | src/client/frame_clock.cpp:39-44 | The period is set and the change is pending. |
| FramePacing.FrameClock.NextFrameAfter | src/client/frame_clock.cpp:64-156 | The target as a function of the readings; the pending change is consumed unless unthrottled; the assertion in the code holds on every resync. |
| FramePacing.AfterNow | src/client/frame_clock.cpp:128-143 | A resynchronised target is strictly after now. |
| FramePacing.FirstTickAfterNow | src/client/frame_clock.cpp:134-141 | With a server frame not in the future, the target is on the server's grid and is the first tick after now. |
| FramePacing.ResyncsIff | src/client/frame_clock.cpp:96-106 | A call resynchronises exactly on a pending change or three periods or more after the last target. |
| FramePacing.CatchUp | src/client/frame_clock.cpp:81-153 | Otherwise the target is the next tick if still ahead, else the last tick of the same grid not after now, so one missed frame is caught up with. |
| FramePacing.TargetGiven | src/client/frame_clock.cpp:72-131 | A server frame still ahead is the target itself; without a period the given time is. |
| FramePacing.TargetBounds | src/client/frame_clock.cpp:81-155 | The target is never a full period in the past; without resync it is congruent to the previous one and one or two periods after it. |
| FramePacing.FallbackOnGrid | src/client/frame_clock.cpp:53-62 | The fallback resync is the last multiple of the period not after now. |
| FramePacing.BufferStream.WaitForVsync | src/client/buffer_stream.cpp:441-462 | The target slept until and the new last vsync, which never goes back. |
| FramePacing.Paced | src/client/buffer_stream.cpp:441-462 | In a run of waits without configuration change, successive targets are at least a period apart and k waits advance the last vsync by at least k periods. |
| FramePacing.PacedFromFirstFrame | src/client/frame_clock.cpp:99-145 | The spacing holds from the first frame on with a change pending before it, and every wait after the first advances the last vsync by at least a period. |
| FramePacing.AllOnGrid | src/client/frame_clock.cpp:53-156 | With the fallback resync every target of a run is a multiple of the period. |
| FramePacing.InPhase | src/client/frame_clock.cpp:57-61 | Two independent streams with the same period have targets that differ by multiples of it. |
| Geometry.Intersection | examples/server_example_adorning_compositor.cpp:136-137 | The common rectangle holds exactly the points in both, and is the empty rectangle exactly when there are none. |
| Geometry.EnclosesIff | src/core/geometry/rectangle.cpp:41-49 | For a rectangle that holds some point, enclosing it means holding all its points. |
| Occlusion.RenderableIsOccluded | examples/server_example_adorning_compositor.cpp:125-156 | The occlusion test and the extended coverage. |
| Occlusion.RemoveOcclusionsFrom | examples/server_example_adorning_compositor.cpp:158-176 | The backward erasing walk keeps exactly the elements that can be seen in the area, in order, and tells exactly the others, topmost first. |
| Occlusion.ErasedIffCulled | examples/server_example_adorning_compositor.cpp:125-176 | An element is erased and told if and only if it is untransformed and either shares no point with the area, or one opaque, untransformed element above it holds every point they share. |
| Occlusion.ShownIffNotCulled | examples/server_example_adorning_compositor.cpp:125-176 | It makes no difference whether the hiding element is itself kept. |
| Occlusion.SamePicture | examples/server_example_adorning_compositor.cpp:158-226 | Drawing the kept elements gives the same colour at every point of the area as drawing all. |
| Occlusion.SamePictureOver | examples/server_example_adorning_compositor.cpp:125-226 | The same over any background, and over different backgrounds where something kept hides the point. |
| Occlusion.KeptAgain | examples/server_example_adorning_compositor.cpp:158-176 | A second pass removes nothing. |
| Occlusion.KeptInOrder | examples/server_example_adorning_compositor.cpp:158-176 | The kept elements are a subsequence. |
| Occlusion.KeptOrTold | examples/server_example_adorning_compositor.cpp:162-175 | Kept and told elements together are all elements, each once. |
| Occlusion.ShownIff | examples/server_example_adorning_compositor.cpp:125-156 | The walk erases an element exactly when, by a definition that does not mention the walk, it is not shown: it is untransformed, and lies outside the area or is enclosed by one shown covering element above. |
| Occlusion.KeptAreShown | examples/server_example_adorning_compositor.cpp:158-176 | Exactly the shown elements are kept. |
| WindowManagement.WindowManager.AddSurface | examples/server_example_basic_window_manager.cpp:49-63 | The new window joins its live parent's children and gets its titlebar; the forest invariant is kept. |
| WindowManagement.WindowManager.GenerateDecorationsFor | examples/server_example_canonical_window_manager.cpp:244-282 | A titlebar above the window, as its child. |
| WindowManagement.DecoratedWindow | examples/server_example_canonical_window_manager.cpp:244-282 | A decorated new window has exactly the titlebar as child, of its width and above it. |
| WindowManagement.WindowManager.RemoveSurface | examples/server_example_canonical_window_manager.cpp:426-464 | The window and its titlebar leave the map and the parent's list, and nothing else does; the forest invariant is kept. |
| WindowManagement.WindowManager.MoveTree | examples/server_example_canonical_window_manager.cpp:997-1005 | The recursion terminates and shifts the root and each descendant exactly once and nothing else. |
| WindowManagement.WindowManager.RaiseTree | examples/server_example_basic_window_manager.cpp:262-278 | The collected set is exactly the root and its descendants. |
| WindowManagement.WindowManager.AddChildren | examples/server_example_basic_window_manager.cpp:265-272 | The recursive lambda adds exactly the proper descendants. |
| WindowManagement.WindowManager.SetState | examples/server_example_canonical_window_manager.cpp:482-600 | The window map after a state request, for every requested and every current state, as the rows below spell out. |
| WindowStates.WindowAfter | examples/server_example_canonical_window_manager.cpp:500-600 | Per requested state: restored means the remembered rectangle, maximised the display area, horizontally (vertically) maximised the area's columns (rows) with the remembered rows (columns), fullscreen the fitted old rectangle, hidden and minimised the old place, invisible. |
| WindowStates.TitlebarAfterwards | examples/server_example_canonical_window_manager.cpp:526-583 | The titlebar moves along; it is shown with the new width over a restored or horizontally maximised window, left alone by fullscreen, else hidden. |
| WindowStates.OthersAfter | examples/server_example_canonical_window_manager.cpp:586-600 | Windows below it move along, all others stay, and nothing else about them changes. |
| WindowStates.NothingAfter | examples/server_example_canonical_window_manager.cpp:486-514 | An unknown state changes nothing; the current state at most refreshes the remembered rectangle. |
| WindowStates.TitlebarOnTop | examples/server_example_canonical_window_manager.cpp:254-282 | A new titlebar has its window's columns, height ten, and its bottom edge on the window's top edge. |
| WindowStates.AddedOthers | examples/server_example_canonical_window_manager.cpp:283-291 | Adding a window changes no other, but for the end of its parent's children list. |
| WindowStates.RemovedOthers | examples/server_example_canonical_window_manager.cpp:433-446 | Removing one changes no other, but for its place in its parent's children list, whose order stays. |
| WindowTree.InsertKeepsForest | examples/server_example_canonical_window_manager.cpp:283-291 | Adding a window keeps children lists and live parent links in agreement. |
| WindowTree.RemoveKeepsForest | examples/server_example_canonical_window_manager.cpp:433-446 | So does removing one; its children become roots. |
| WindowTree.ReachedAll | examples/server_example_basic_window_manager.cpp:262-278 | The subtree by children lists is the subtree by parent links. |
| WindowTree.SiblingsApart | examples/server_example_canonical_window_manager.cpp:997-1005 | No window is below two siblings, so none is visited twice. |
| WindowRuns.AlwaysAForest | examples/server_example_basic_window_manager.cpp:49-87 | Any sequence of additions, removals and state requests keeps the forest, and every live titlebar its window's child. |
| WindowRuns.RoundTripOnAnyDesk | examples/server_example_canonical_window_manager.cpp:482-600 | The round trip below, for every window of every arrangement that such requests lead to from an empty one. |
| WindowRuns.TitlebarsAlwaysFitIff | examples/server_example_canonical_window_manager.cpp:482-600 | From no windows on, along any additions, removals and state requests: the titlebars of all restored windows fit all the way if and only if every request that shows a titlebar in a new state gives it the size each restored window it belongs to needs. |
| WindowRuns.NeatIff | examples/server_example_canonical_window_manager.cpp:482-600 | The same for one request of any kind. |
| WindowRuns.TitlebarFitsIff | examples/server_example_canonical_window_manager.cpp:516-599 | After any state request to a titlebar, it fits its window if and only if the size the request leaves it with is the one the window needs. |
| WindowRuns.TitlebarCanMisfit | examples/server_example_canonical_window_manager.cpp:536-541 | Two requests from no windows on that end in a misfit. |
| WindowJourney.RoundTrip | examples/server_example_canonical_window_manager.cpp:482-600 | Any sequence of state requests that starts and ends restored leaves the window's position and size, the fit of its titlebar, every descendant's position and all other windows as they were. |
| WindowJourney.StepOnJourney | examples/server_example_canonical_window_manager.cpp:482-600 | Each request moves the tree as one body and keeps the way home. |
| ResizeConstraints.ConstrainResize | examples/server_example_window_management_info.cpp:231-357 | Resulting place and size: in each window state, which of column and row follow the constrained request and which stay the current window's. |
| ResizeConstraints.OppositeEdgeIff | examples/server_example_window_management_info.cpp:316-320 | In a left (top) resize the right (bottom) edge stays where the request put it if and only if the size was granted as asked. |
| ResizeConstraints.ClampedMeans | examples/server_example_window_management_info.cpp:288-298 | Values in range stay, others go to the nearer limit, and the maximum wins over a larger minimum. |
| ResizeConstraints.FinalSizeObeys | examples/server_example_window_management_info.cpp:288-314 | Each final dimension is at least the minimum, a whole number of increments above it, within half an increment of the clamped value (halves go up), at most the maximum when the range is whole, else over by at most half an increment, and over exactly when the extent rounds up past the last whole increment. |
| ResizeConstraints.SnappedNearest | examples/server_example_window_management_info.cpp:300-314 | The same for one dimension. |
| ResizeConstraints.SnappedOverIff | examples/server_example_window_management_info.cpp:300-314 | Snapping goes over the maximum if and only if the extent is at least half an increment beyond the last whole increment in the range. |
| ResizeConstraints.AspectStageHolds | examples/server_example_window_management_info.cpp:242-286 | The maximum ratio always holds after the aspect stage, and the minimum ratio too when the maximum correction did not fire. |
| ResizeConstraints.MinRatioCanFail | examples/server_example_window_management_info.cpp:265-286 | A size and equal ratios for which the maximum correction breaks the minimum ratio. |
| ResizeConstraints.WidenedSuffices | examples/server_example_window_management_info.cpp:242-263 | The first correction reaches the ratio, does nothing when it held, and changes one dimension only. |
| ResizeConstraints.WidenedLeast | examples/server_example_window_management_info.cpp:250-261 | No smaller change of one dimension would reach it. |
| ResizeConstraints.NarrowedSuffices | examples/server_example_window_management_info.cpp:265-286 | The second correction likewise. |
| ResizeConstraints.NarrowedLeast | examples/server_example_window_management_info.cpp:273-284 | And it is the least. |
| ResizeConstraints.HeightPreferred | examples/server_example_window_management_info.cpp:254-284 | The width is corrected only where the same change of the height would not do. |
| XcursorFormat.CursorFile.ReadUInt | examples/xcursor.c:270-285 | Four little-endian bytes, or failure at the end of the file. |
| XcursorFormat.LittleEndian | examples/xcursor.c:280-283 | The four weights, and that "Xcur" reads as the magic number. |
| XcursorFormat.CursorFile.ReadFileHeader | examples/xcursor.c:312-358 | The table of contents exactly when the header fits the bytes. |
| XcursorFormat.CursorFile.ReadImage | examples/xcursor.c:455-511 | The image of a chunk exactly when the chunk is all there and sane. |
| XcursorFormat.RefusedOnlyIfInsane | examples/xcursor.c:475-495 | A complete chunk of the right kind is accepted exactly if it has 1 to 65535 columns and 1 to 65536 rows with the hot spot inside. |
| XcursorFormat.RefusesToLoad | examples/xcursor.c:312-358 | A negative size, a short file, a wrong magic number or more than 65536 entries load nothing. |
| XcursorFormat.CursorFile.LoadImages | examples/xcursor.c:513-558 | The answer is the one the loading theorems speak about; a negative size, a bad header or no image gives none. |
| XcursorFormat.FindBestSize | examples/xcursor.c:398-426 | The loop's size and count, which the lemmas below relate to the nearest size. |
| XcursorFormat.FindImageToc | examples/xcursor.c:428-453 | The count-th entry of a size, or none if there are fewer. |
| XcursorFormat.BestOfSoFar | examples/xcursor.c:398-426 | What the loop knows after any entries: the nearest size with its full count, the earliest winning ties, unless zero is nearest. |
| XcursorFormat.NearestUnique | examples/xcursor.c:398-426 | There is only one such size. |
| XcursorFormat.ChoiceRightIff | examples/xcursor.c:398-426 | For any table with an image and any request, the choice is the nearest size with its full count if and only if the nearest size is not zero. |
| XcursorFormat.ChoiceCanBeWrong | examples/xcursor.c:398-426 | A table and request for which a farther size is chosen, and one for which none is. |
| XcursorFormat.MatchesAll | examples/xcursor.c:428-453 | No entry of the chosen size is missed. |
| XcursorFormat.LoadsTheNearest | examples/xcursor.c:513-558 | Unless zero is the nearest size, loading returns the images of the nearest size, all, in table order; every lookup the count asks for succeeds. |
| XcursorFormat.ZeroNeverLoads | examples/xcursor.c:513-558 | When zero is the nearest size, no image of size zero comes back. |
| XcursorFormat.LoadsNothing | examples/xcursor.c:513-558 | A file without images loads nothing. |
| XcursorFormat.LoadedAll | examples/xcursor.c:540-556 | All chosen chunks come back, each as its bytes say, exactly when all are sound; else nothing does. |
| XcursorRoundTrip.WriteThenLoad | examples/xcursor.c:36-75 | Writing any images the format can hold, behind a header of any length, and loading them for any request whose nearest size is not zero returns exactly those of the nearest size, in order, pixel for pixel, or nothing if one of those has bad dimensions or a hot spot outside. |
| XcursorRoundTrip.ZeroIsLost | examples/xcursor.c:513-558 | For a request whose nearest size is zero, no image of that size comes back. |
| XcursorRoundTrip.WrittenHeader | examples/xcursor.c:312-358 | The written table parses to one entry per image. |
| XcursorRoundTrip.WrittenImage | examples/xcursor.c:455-511 | Every written chunk is accepted exactly if its image is sane, and then reads back as it, newer versions as version one. |
| XcursorTheme.Normalise | examples/xcursor.c:767-784 | The colon-joined tokens always fit the allocated buffer, and are exactly the tokens of the value. |
| XcursorTheme.Separators | examples/xcursor.c:741-742 | The five separators. |
| XcursorTheme.TokensSplit | examples/xcursor.c:770-782 | A separator separates: the tokens are those before it and those after it. |
| XcursorTheme.TokensWord | examples/xcursor.c:770-782 | Nothing else does: a text without separators is one token, or none if empty. |
| XcursorTheme.ThemeInherits | examples/xcursor.c:744-790 | The list of the first line that is an Inherits line, or nothing. |
| XcursorTheme.FirstInherits | examples/xcursor.c:757-786 | The first Inherits line counts, whatever follows it. |
| XcursorTheme.InheritsLine | examples/xcursor.c:759-766 | The word, spaces, an equals sign, spaces and a value make an Inherits line with that value. |
| XcursorTheme.OnlyInheritsLine | examples/xcursor.c:759-766 | And nothing else does. |
| XcursorTheme.WalkVisitsTokensIff | examples/xcursor.c:731-790 | Walking the normalised list visits exactly the value's tokens, in order, if and only if the value holds a name and no colon. |
| XcursorTheme.WalkOfJoinIff | examples/xcursor.c:731-739 | Walking joined names gives them back if and only if there is one and none holds a colon. |
| XcursorTheme.WalkMeetsNameless | examples/xcursor.c:731-790 | A value without tokens for which the walk visits the nameless theme. |
| XcursorTheme.WalkSplitsName | examples/xcursor.c:731-790 | A value with one token for which the walk visits two themes. |
| XcursorTheme.TokensMention | examples/xcursor.c:741-742 | A character that is no separator is in the value exactly when it is in a token. |
| XcursorTheme.AddPathElt | examples/xcursor.c:628-649 | The element is appended in place after one slash, within the buffer. |
| XcursorTheme.BuildThemeDir | examples/xcursor.c:651-706 | The theme's directory, or nothing exactly when an argument or a needed HOME is missing; the computed length always suffices. |
| XcursorTheme.ThemeDirInOrder | examples/xcursor.c:651-706 | Home for the tilde, then the directory up to its colon, then the theme up to its colon, with a slash before each; nothing without a needed home. |
| XcursorTheme.SlashesStripped | examples/xcursor.c:641-646 | Exactly the leading slashes of a piece go. |
| XcursorTheme.ThemeDirCleanIff | examples/xcursor.c:628-706 | The path is absolute, and holds a doubled slash if and only if a piece does after its leading slashes: joining never makes one. |

## Left out

- Remote calls, protobuf, platform buffers, wait handles beyond their two counters, and the surface map's own errors.
- `set_scale`: floating point; its effect on the protocol is that of a resize.
- The `done` callbacks and the waking of a future happen in the same step as the critical section that triggers them.
- VaultModel.BufferVault.Deposit: does not model the age of the buffer's content, which belongs to the platform's buffer.
- BufferSwapping.Buffer.Received: does not model the callback it makes, which is the arrival step, nor the update of the platform's buffer from a package.
- SwapTheorems.RenderThreadProgress: does not model the depository's mutex, which a running set_interval holds: an idle render thread waits for it in submit until the trimming loop, which always ends (`TrimToTheEnd`), is done. The protocol lets it go on, which only adds runs to those the other results cover.
- BufferSwapping.BufferDepository.Submit: starts where its wait for the future is over; the wait itself is in the protocol.
- Integer widths: counts, coordinates, sizes and times are unbounded; the count is shown never to go below zero.
- Clock ids and changing clocks, and a period change by another thread during the resync callback.
- `set_resync_callback` and the swap-interval override from the environment: thin setters.
- GL itself: colours are reals, a texture is a function of the point, and a transformed element covers an arbitrary set of points.
- Focus, activation, session lists, dragging and keyboard policy; placement of new windows; reparenting; display updates; the set of fullscreen surfaces and the output id, which is always cleared before it could place a window.
- The display layout's size_to_output is an arbitrary function.
- ResizeConstraints.ConstrainResize: needs increments that are not zero and, where a correction is due, ratio terms that are not zero, because the code divides by them.
- XcursorFormat.CursorFile.ReadFileHeader: does not model a table length of 2^31 or more turning negative in an int parameter; the model refuses such files.
- XcursorFormat.CursorFile.ReadImage: does not model overflow of the pixel count in int, which needs an image of nearly 2^31 pixels.
- Failing malloc, comment chunks, the 8192-byte line buffer, and the recursion over inherited themes.

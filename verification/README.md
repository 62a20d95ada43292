# PocketJS: proofs about its turn machine, its numerics and its containers

This project models parts of the PocketJS repository in Dafny and proves what those parts are for. Each module
follows one core of the program, in the form the source has: what the C and Python code does step by step on its
statics and buffers is a method on a class or a loop with invariants, proved against a function; the properties
are lemmas about that function.

- `TurnMachine` -- one logical JavaScript turn (pumps, frame(), the whole job queue) cut by a time budget into many
  host turns, with display turns, held keys and the Back turn in between. The guest is any deterministic
  program; where the budget cuts, what the panel answers and what the pumps deliver are inputs.
- `TurnTrace` -- the same turns told by their trace: a lawful order of events, each with its own effect, and what
  drawing and time do to the display.
- `Lifecycle` -- every way the one static guest slot changes hands: start, failed start, Back, suspend, resume,
  eviction, overlay, USB diagnostics, remote control.
- `Pacing` -- the waits at the end of a pass of the user-interface task.
- `SquareRoots` -- five scalar integer square roots and an eight-lane one, with their machine words.
- `RangeReduction` -- folding an angle into half a period with every operation rounded to doubles.
- `BridgeReader` -- frames spliced into log text, split again byte by byte.
- `FrameLint` -- the abstract interpreter for far stack accesses, against a small machine.
- `RowPacking` -- run-length rows with a table for random access, and the firmware's reading of them.
- `GlyphPlacement`, `FontImage` -- glyphs clipped into cells; the font image, its parser and its binary search.
- `TokenLedger` -- the incremental reader of a transcript: a cursor and a high-water table.
- `OpusContainer` -- the packet container, its seek index, and the firmware's header check, seek and refill.
- `Bits`, `Bytes`, `Records`, `Options` -- bit operations on naturals, packed fields and hexadecimal, records of one
  size, the two value-or-nothing shapes.

`dafny verify dfyconfig.toml` checks the whole project.

## Where the code says less, or more, than its comments

- `SqrtNewton`: the comment promises the result below 2^31; it is exact for every 32-bit argument.
- Pacing: "charged once per frame()" does not hold in a pass that ticks more than once, as with a key's press and its
  release (`PressAndReleaseShareAPeriod`) or with remote taps (`RemoteTapSharesAPass`); `PeriodIsEnough` says exactly
  when a period keeps 33 ms for each frame(), `PassKeepsEight` when a pass keeps the 8 ms of the floor.
- Range reduction: the comment says the result rounds once; it does not round at all (`RestIsDouble`, `FoldTau`).
- Frame lint: an access within an instruction's reach is credited as a far one after an `addi` that steps back, or
  through a negative offset of its own (`ShortStepIsCredited`, `NegativeOffsetIsCredited`); `FarFactsAreFar` gives the
  exact condition and `NearCreditsStepBack` shows these are the only ways. The offset itself is always exact
  (`CreditsAreExact`).
- Lifecycle: `NativeStop` checks a generation number only. Once the 32-bit counter has wrapped onto the number the
  remote side holds, while an overlay wears it, the overlay is left believing in a guest that is gone
  (`OverlayLosesItsGuest`); `Handle` and `Run` hold with exactly that exception.
- Overlay: a blocked one is said to stay blocked until it is turned off and on again, and its flag to be left in NVS
  until then. Opening another screen, choosing the other overlay, or starting anything but the kept app clears the
  flag (`BlockedIsForgotten`; `Forgets` in the contract of `Handle` lists exactly the events that do).
- Font image: a table that maps U+0000 collides with the tofu entry, and is the only table whose image the parser
  refuses (`ParseAcceptsBuild`).
- Token ledger: a line longer than the read limit is not skipped but holds the cursor for ever (`OverlongLineHolds`).
- Opus seek: the reported position wraps when the lookahead reaches past the start of the group sought; every seek is
  exact only for a lookahead below 2400 samples or a multiple of them (`EverySeekIsExact`, `SeekCanMiss`). The
  encoder's own lookahead of a few milliseconds is below.

## Model

| member | source | states |
|---|---|---|
| `TurnMachine.Refinement` | main/app_session.c:2219-2441 | For every session started or resumed, guest program, budget cut, display outcome and key sequence without Back or an earlier error, the guest with its whole visible trace is that of the machine that honours exit, runs the pumps, calls frame() once and drains the queue, so that only the first turn may meet jobs already queued (those of a resume hook); the masks of all frames, flattened, plus the keys still held are exactly the masks accepted, in order |
| `TurnMachine.BudgetIsInvisible` | main/app_session.c:2296-2311 | Two runs that answer the same logical turns, cut at any budget boundaries and presented in any way, end in the same guest and trace once their queues are empty |
| `TurnMachine.DrainIsUnique` | components/pocketjs_guest/src/vm_sched.c:64-108 | However a drain is cut, once nothing is left it ends in the same guest |
| `TurnMachine.StepsCompose` | components/pocketjs_guest/src/guest.c:1109-1212 | A continuation is the same drain: a opcodes and then b opcodes are a + b opcodes |
| `TurnMachine.TickIsHostTurn` | main/app_session.c:2312-2441 | A non-Back host turn shows JavaScript nothing but some of the parked work and then either one frame() with every key held so far, on an empty queue unless it is the session's first, or no frame() and this turn's keys held too |
| `TurnMachine.KeysDroppedOnlyAtTheGates` | main/app_session.c:2247-2284 | A successful non-Back turn drops its keys exactly when it is a capture or display turn or the input scope is blocked; otherwise they count as accepted |
| `TurnMachine.FramesMeetNoPicture` | main/app_session.c:2360-2393 | No frame() is dispatched while a submission or procedural commit of an earlier turn or of the parked frame() just finished is unpresented; a procedural frame stays open only while work is parked, one opened by a resume hook only until JavaScript runs; a turn charged as a continuation called no frame() |
| `TurnMachine.EveryFrameMeetsNoPicture` | main/app_session.c:2205-2208 | The same over every run of non-Back turns from a started or resumed session |
| `TurnMachine.BackReachesFrame` | main/app_session.c:2219-2228 | A Back turn passes every gate and is never held: it reaches frame() with all held keys or fails, and meets an unpresented picture only where the panel kept one for a retry |
| `TurnMachine.AppSession.AppTick` | main/app_session.c:2219-2441 | The step-by-step method leaves the statics and the return code that the turn function gives |
| `TurnMachine.AppSession.PassGate` | main/app_session.c:2228-2282 | Capture scope, presenter step and display gate: new display, time of last present, whether JavaScript is reached |
| `TurnMachine.AppSession.GuestTail` | main/app_session.c:2312-2441 | Continuation, hand-over of a finished parked frame(), or straight to the frame |
| `TurnMachine.AppSession.FrameTail` | main/app_session.c:2394-2441 | exit(), pumps, frame() with the deferred keys, present |
| `TurnMachine.AppSession.PumpTail` | main/app_session.c:2394-2405 | The held keys are merged and cleared exactly once, exit() is honoured before the pumps |
| `TurnMachine.AppSession.RunPumps` | main/app_session.c:2157-2195 | What pumps deliver is queued behind what is there, their drawing reaches the display in order |
| `TurnMachine.AppSession.RunGuest` | components/pocketjs_guest/src/vm_sched.c:64-108 | The loop that runs opcodes up to the cut equals the unbounded semantics cut there |
| `TurnMachine.PicturesAreKept` | main/app_session.c:2498-2583 | Until a present reaches the panel, no retry, error, continuation or frame() loses a picture that JavaScript submitted or committed |
| `TurnMachine.AppSession.constructor` | main/app_session.c:1463-1970 | A started session has no work, no key held and no frame open; a picture drawn while the source was evaluated stands |
| `TurnMachine.AppSession.Resume` | main/app_session.c:1240-1274 | A resumed session is one the theorems cover: statics cleared, the hook's jobs queued behind a work flag that is down |
| `TurnTrace.TraceIsTheStory` | main/app_session.c:2394-2441 | On every ordinary run of a started or resumed session the visible trace is a lawful order of events -- exit() and pumps only between drained turns, then one frame(), then the running job before the first that waits, what is queued going last -- each having the program's own effect; the n-th frame() gets exactly the keys of the masks of the n-th turn |
| `TurnTrace.FrameIsEntered` | main/app_session.c:2412-2412 | Wherever the trace of such a run says frame(mask), what runs next, or is running at its end, is the program's frame of that very mask |
| `TurnTrace.AllKeysOfAny` | main/app_session.c:2399-2399 | A key is in the merged mask exactly if some held mask has it |
| `TurnTrace.DrawingMarks` | main/app_session.c:2378-2378 | What drawing marks on the display, over any list of effects: a picture submitted, an open procedural frame committed, a frame open since its beginning |
| `TurnTrace.RunningDraws` | components/pocketjs_guest/src/vm_sched.c:64-108 | Between two points of a drain the display changes by exactly what the jobs traced there draw |
| `TurnTrace.PumpingDraws` | main/app_session.c:2157-2195 | The pumps change the display by exactly what they deliver |
| `TurnTrace.SubmissionsAreMarked` | main/app_session.c:2228-2282 | After a turn whose presents did not reach the panel a picture waits exactly if one did before, the host put a ticket up, or JavaScript submitted one in it |
| `TurnTrace.ParkedFrameStaysOpen` | main/app_session.c:2196-2208 | While work stays parked the procedural frame it began stays open, until its own commit |
| `TurnTrace.ContinuationsShareAPeriod` | main/app_session.c:2346-2359 | A continuation presents exactly when 33 ms have passed since the last present |
| `TurnTrace.FaultsAreReported` | main/app_session.c:2312-2333 | A fault of the guest, of the presenter or of the present after frame() always fails the turn, nothing but a fault does, and a turn times out exactly as a runaway continuation |
| `Lifecycle.Device.Run` | main/main.c:1082-1493 | Over any sequence of events a guest exists exactly when a foreground run, a kept app or an overlay owns it, and no two own it, if and only if no remote stop met an overlay wearing the remote side's number; short of wrapping the 32-bit guest counter none does |
| `Lifecycle.Device.Handle` | main/main.c:1178-1372 | Each event keeps that exactly when it is not such a remote stop; the owner, the app id and the screen after it, and whether it clears the crash flag of a blocked overlay |
| `Lifecycle.Device.HandleKey` | main/main.c:1198-1300 | The same of keys: opening, leaving, dismissing, running, choosing an overlay, Back on one |
| `Lifecycle.Device.HandlePass` | main/main.c:1178-1372 | The same of a foreground turn, a forced stop, an overlay turn and a diagnostic |
| `Lifecycle.Device.HandleRemote` | main/main.c:1036-1069 | The same of the remote requests |
| `Lifecycle.OpenAndLeave` | main/main.c:935-945 | An app opened at home and left with Back, after any turns that do not end it, is kept as the guest it was made, under the id it was opened by |
| `Lifecycle.OpenLeaveOpen` | main/main.c:842-856 | Opening that id again, from the menu or remotely, wakes that very guest; opening any other ends it and starts anew |
| `Lifecycle.BlockedIsForgotten` | main/ui/overlay.c:247-260 | The comment at overlay.c:217-220 fails: opening another screen clears a blocked overlay's flag, and choosing it once more starts it |
| `Lifecycle.AllNumbersGivenOut` | main/app_session.c:1563-1563 | From boot the guest counter reaches its last number, one app after the other, while the remote side still holds number 1 |
| `Lifecycle.OverlayLosesItsGuest` | main/main.c:1062-1069 | The failing case, reached from boot: then one overlay start and one remote stop leave an overlay without a guest |
| `Lifecycle.Device.CreateGuest` | main/app_session.c:1562-1563 | The one place a guest is created; every caller is proved to reach it with the slot empty |
| `Lifecycle.Device.AppStop` | main/app_session.c:1006-1121 | The slot is empty and no id is kept, also for a dormant guest |
| `Lifecycle.Device.AppStartTest` | main/app_session.c:1463-2001 | A start either leaves a new awake guest with the next generation, or, on every failure path, an empty slot |
| `Lifecycle.Device.AppStart` | main/app_session.c:2002-2005 | The same for a foreground start, which is never an overlay session |
| `Lifecycle.Device.AppStartOverlay` | main/app_session.c:2007-2017 | The same for an overlay; its flag stands on failure too |
| `Lifecycle.Device.AppSuspend` | main/app_session.c:1174-1238 | Success exactly when it was allowed and every step succeeded; every failure leaves the guest as awake as before and no id kept |
| `Lifecycle.Device.AppResume` | main/app_session.c:1240-1274 | Success exactly for a dormant guest with a kept id, which becomes the current app again |
| `Lifecycle.Device.StopWith` | main/ui/overlay.c:234-245 | Ends the overlay's guest and nobody else's; the crash flag goes where it can be cleared |
| `Lifecycle.Device.OverlayRelease` | main/ui/overlay.c:247-260 | Afterwards no overlay is up, one that was waits to start again, and the crash flag is cleared; a guest that was not the overlay's is untouched |
| `Lifecycle.Device.OverlayYield` | main/ui/overlay.c:486-491 | The overlay stands down; any other owner keeps its guest |
| `Lifecycle.Device.OverlayStart` | main/ui/overlay.c:335-408 | An overlay owns a new guest exactly when every gate of the start passes; otherwise the slot is empty again; the crash flag stands before an unproven start and stays unless the start is refused |
| `Lifecycle.Device.OverlayTick` | main/ui/overlay.c:410-468 | After an overlay frame: the owner, the state, the crash flag and whether the overlay is proven, by the two charges, the fault and the picture still waiting |
| `Lifecycle.Device.OverlayArmedSet` | main/ui/overlay.c:196-230 | Changing or clearing the choice ends a running overlay; setting the same choice does not; when it blocks, starts or is off, and when the crash flag is cleared |
| `Lifecycle.Device.Enter` | main/main.c:749-769 | Leaving the home screen ends the overlay, never a kept app |
| `Lifecycle.Device.BeginRun` | main/main.c:829-883 | Opening the kept app resumes that very guest; any other start ends it and the overlay first; either way the guest goes by the id opened, and a failure is shown at home |
| `Lifecycle.Device.EndRun` | main/main.c:778-803 | The slot is emptied, or taken by the work the session asked for under its own id; a failed turn is shown at home |
| `Lifecycle.Device.TickRun` | main/main.c:887-989 | Back keeps an app exactly when it may be and the suspension succeeds; else the session ends |
| `Lifecycle.Device.NativeStart` | main/main.c:676-690 | A request refused as busy, away from home or for a wrong kept id changes no owner; any other fails only where the start fails, leaving the slot empty; success names the guest made or resumed |
| `Lifecycle.Device.NativeStop` | main/main.c:1062-1069 | Stops only the guest the remote side started; the invariant survives if and only if no overlay wears that number again |
| `Lifecycle.Device.NativeSuspend` | main/main.c:1050-1061 | Kept under its id exactly when it was awake in front and fell asleep; a guest half put to sleep is ended if it may be, else stays the owner's |
| `Lifecycle.Device.StartDiagnostic` | main/main.c:1312-1370 | A diagnostic takes the slot only from home and only after ending a kept app and the overlay |
| `Lifecycle.Device.constructor` | main/ui/overlay.c:156-192 | Boot: no guest, no owner; a selected overlay is blocked exactly when the crash flag stands |
| `Pacing.RateLimit` | main/main.c:1008-1015 | n passes take at least 8n ms however often completions wake the loop, and call frame() beyond once a pass only in extra ticks: releases of keys and remote taps |
| `Pacing.PassKeepsEight` | main/main.c:1008-1015 | Exactly when a pass keeps 8 ms for each of its frame() calls: it made at most one, or its work and waits filled that time |
| `Pacing.FourAlwaysFit` | main/main.c:1448-1466 | A pass that opens a period and is not woken keeps 8 ms for up to four frame() calls whatever its work, and for more exactly if its work and fixed waits fill them |
| `Pacing.EightAddsUp` | main/main.c:1008-1015 | Over a run of passes that keep it, every frame() has its 8 ms |
| `Pacing.DisplayRate` | main/main.c:1413-1419 | Without early wake-ups every period closed takes 33 ms, and every frame() but those of extra ticks has a period of its own |
| `Pacing.PeriodIsEnough` | main/main.c:1413-1419 | Exactly when a period keeps 33 ms for each of its frame() calls: it made at most one, or its work and fixed waits filled that time |
| `Pacing.EnoughAddsUp` | main/main.c:1413-1419 | Over any number of such periods every frame() has its 33 ms |
| `Pacing.TicksArePossible` | main/main.c:1094-1198 | Whatever ticks a pass makes -- one, a press and its release, those of remote taps, Back, or none while a picker is up, on any sessions -- its frame() calls and its continuation flag are what the pacing results assume |
| `Pacing.RemoteTapSharesAPass` | main/main.c:1036-1048 | With no key pressed a remote tap and the ordinary tick put three frame() calls into one pass of an idle program |
| `Pacing.PressAndReleaseShareAPeriod` | main/main.c:966-968 | A run in which a key's press and release put two frame() calls into one 33 ms period, so the plain claim of one per period fails |
| `Pacing.OnePass` | main/main.c:1441-1480 | Every pass takes 8 ms, a continuation yields at least 1 ms and leaves the period alone, an uncut one ends a full period |
| `Pacing.PassLength` | main/main.c:1441-1480 | How long every pass takes, exactly, by its work, its slack and the wait served, and where the next period begins |
| `Pacing.ContinuationsStayInThePeriod` | main/main.c:1417-1418 | Any number of continuations keep the period's start and add exactly their own time |
| `Pacing.PeriodLength` | main/main.c:1437-1440 | A period with its continuations lasts the longer of 33 ms and what was spent in it, to within 1 ms: continuation time is charged exactly once |
| `Pacing.UiTask.EndOfPass` | main/main.c:1402-1486 | The waits at the end of a pass leave the clock and the period start of the pacing function |
| `SquareRoots.SqrtRestore` | tools/flower_sqrt_variants.c:17-26 | For every 32-bit x the prescaled loop ends without wrap-around in the r with r*r <= x < (r+1)*(r+1) |
| `SquareRoots.SqrtRestoreNoBranch` | tools/flower_sqrt_variants.c:31-42 | The same for the masked form, whose steps are written with wrap-around |
| `SquareRoots.SqrtNewton` | tools/flower_sqrt_variants.c:48-58 | The same for Newton, for all 32-bit x and not only below 2^31, with at most one correction in the two correction loops together |
| `SquareRoots.SqrtRestoreUnroll3` | tools/flower_sqrt_variants.c:66-77 | The same for the loop unrolled by three |
| `SquareRoots.SqrtRestoreUnroll16` | tools/flower_sqrt_variants.c:84-91 | The same for the sixteen fixed steps |
| `SquareRoots.UnrolledStep` | tools/flower_sqrt_variants.c:65-65 | One unrolled step keeps the restoring invariant, one bit further |
| `SquareRoots.RootIsUnique` | tools/flower_sqrt_variants.c:8-12 | At most one r satisfies that, so all five forms agree |
| `SquareRoots.RestoreStep` | tools/flower_sqrt_variants.c:21-23 | One restoring step, taken or not, keeps x as square plus remainder and cannot exceed the word |
| `SquareRoots.ThreePasses` | tools/flower_sqrt_variants.c:52-54 | From the leading-bit seed three truncated passes land on floor(sqrt x) or one above |
| `SquareRoots.FirstPass` | tools/flower_sqrt_variants.c:50-52 | After one pass the excess of the square is at most an eighth of x |
| `SquareRoots.LaterPass` | tools/flower_sqrt_variants.c:44-46 | A pass turns an excess of x/f into one of x/(4 f f), or the last unit |
| `SquareRoots.TopRoot` | tools/flower_sqrt_variants.c:55-56 | From 65535*65535 on the passes stay in 16 bits |
| `SquareRoots.PassFits` | tools/flower_sqrt_variants.c:52-54 | The sum in a pass stays below 32 bits for every value the passes reach, so wrapping does not change it |
| `SquareRoots.Restore16` | tools/flower_sqrt_lanes.c:24-33 | The scalar form returns the root capped by its step count; it is the true root if and only if x < 2^(2*steps) |
| `SquareRoots.Restore8` | tools/flower_sqrt_lanes.c:37-50 | All eight 16-bit lanes return that same number, with no lane wrapping; with 8 steps it is floor(sqrt) of every 16-bit lane |
| `SquareRoots.StepLanes` | tools/flower_sqrt_lanes.c:41-48 | One step over eight lanes in place keeps the restoring invariant in each lane |
| `SquareRoots.CappedRootIsUnique` | tools/flower_sqrt_lanes.c:35-36 | Lane form and scalar form agree |
| `SquareRoots.CappedRootIsRoot` | tools/flower_sqrt_lanes.c:12-17 | When the step count is enough, exactly |
| `RangeReduction.FoldTau` | tools/fold_harness.c:35-47 | With every operation rounded by any order-keeping rounding that fixes doubles, for every double m of up to 2^25 - 2 periods: the result is exactly m minus n periods, n nearest with ties to even, and lies within half a period; the one correction always suffices |
| `RangeReduction.Correct` | tools/fold_harness.c:38-45 | The rounded comparisons choose exactly the correction that the exact rest calls for |
| `RangeReduction.NearestIsUnique` | tools/fold_harness.c:22-25 | That n is unique, so what the fold returns is the IEEE remainder (section 5.3.1 of IEEE 754-2008) |
| `RangeReduction.RestIsDouble` | tools/fold_harness.c:22-25 | What is left of a double after the nearest number of periods is a double, so the remainder needs no rounding |
| `RangeReduction.GuessWithinOne` | tools/fold_harness.c:37-37 | The rounded and truncated estimate leaves less than one and a half periods |
| `RangeReduction.Settle` | tools/fold_harness.c:39-45 | One correction from such a guess reaches the nearest period |
| `RangeReduction.Threshold` | tools/fold_harness.c:38-44 | The split comparisons decide exactly where the rest stands against half a period |
| `RangeReduction.RoundingIsSmall` | tools/fold_harness.c:37-37 | Such a rounding moves nothing up to 2^27 by more than 2^-24, which is all the estimate needs |
| `RangeReduction.SplitIsExact` | tools/fold_harness.c:33-34 | The two halves sum to the period and twice the half period |
| `RangeReduction.ConstantsAreTheLiterals` | tools/fold_harness.c:33-37 | Every constant is the double its decimal literal rounds to |
| `RangeReduction.ProductsAreExact` | tools/fold_harness.c:15-18 | Every operand and product of the fold has at most 53 bits, for h of magnitude up to 2^25 |
| `RangeReduction.ComparisonsAreExact` | tools/fold_harness.c:19-21 | A rounded difference compares with the low half exactly as the unrounded one does |
| `RangeReduction.ResultRoundsOnce` | tools/fold_harness.c:19-21 | The first subtraction of the result is exact |
| `BridgeReader.ReaderSplitsTheStream` | tools/pocket_bridge.py:59-67 | Frames anywhere in log text without 0x1d, chopped in any way: the reports come in the order seen, each frame after the lines complete before it; they hold exactly those frames, exactly the non-empty lines of the rejoined text, and nothing bad |
| `BridgeReader.OneLineReads` | tools/pocket_bridge.py:74-80 | Feeding a line, any number of returns and a newline reports that line, or nothing if it is empty, and leaves a fresh reader |
| `BridgeReader.RunReads` | tools/pocket_bridge.py:103-137 | What stands between a start byte and the next newline is never text: another kind's run is silent, a byte that is no digit is reported once, digits are reported as they read |
| `BridgeReader.FinishDecides` | tools/pocket_bridge.py:82-101 | What any run of digits is reported as, byte by byte: too short, version, checksum, length, or its frame |
| `BridgeReader.EncodeTakes` | tools/pocket_bridge.py:50-55 | encode() takes exactly payloads of up to 480 bytes and fields that fit |
| `BridgeReader.HeaderLayout` | tools/pocket_bridge.py:54-54 | Where each header field stands, little-endian |
| `BridgeReader.BodyLayout` | tools/pocket_bridge.py:54-55 | The header, the payload and the checksum of both, little-endian |
| `BridgeReader.WireLayout` | tools/pocket_bridge.py:56-56 | 0x1d, the type, two lower-case digits a byte, the upper half first, and a newline |
| `BridgeReader.ReportIsComplete` | tools/pocket_bridge.py:59-67 | That order loses, adds and repeats nothing |
| `BridgeReader.StreamReads` | tools/pocket_bridge.py:103-137 | One feed of any list of pieces from inside text reports it piece by piece, by its structure |
| `BridgeReader.FeedIsSeamless` | tools/pocket_bridge.py:103-137 | feed(a) then feed(b) reports and leaves what feed(a + b) does, from every reachable state |
| `BridgeReader.ChoppingIsInvisible` | tools/pocket_bridge.py:103-137 | Any way of chopping reads as one feed |
| `BridgeReader.FrameAlwaysReads` | tools/pocket_bridge.py:113-136 | From every reachable state an encoded frame is read exactly once, last, and the reader is back in text: no garbage swallows it |
| `BridgeReader.FinishReadsBody` | tools/pocket_bridge.py:50-56 | What encode() packs reads back |
| `BridgeReader.FinishReadsNothingElse` | tools/pocket_bridge.py:82-101 | Only the encoding of a frame reads as that frame: digits, version, length and checksum all agree |
| `BridgeReader.LinesSplit` | tools/pocket_bridge.py:74-80 | Lines of joined text are the lines of its parts, with the unfinished tail carried over |
| `BridgeReader.Reader.FlushText` | tools/pocket_bridge.py:74-80 | The loop reports the complete stripped lines and keeps the tail |
| `BridgeReader.Reader.FeedBytes` | tools/pocket_bridge.py:103-137 | The byte loop on the fields equals the feed function |
| `BridgeReader.Reader.constructor` | tools/pocket_bridge.py:69-72 | A new reader is in text with nothing held |
| `FrameLint.ScanIsSound` | tools/frame_lint.py:92-131 | On every run of every analysable program from the entry, every const fact equals its register and every far fact is a1 plus its offset, modulo 2^32 |
| `FrameLint.CreditsAreExact` | tools/frame_lint.py:108-110 | Every credited access really has the credited stack offset, and that is at most the reported worst |
| `FrameLint.TransferIsSound` | tools/frame_lint.py:111-131 | Kill and update rules keep the facts true over any instruction |
| `FrameLint.AccessesAreCounted` | tools/frame_lint.py:109-109 | accesses is the number of credited instructions |
| `FrameLint.WorstIsDeepest` | tools/frame_lint.py:110-110 | worst is the largest credited offset, and is attained |
| `FrameLint.NearCreditsStepBack` | tools/frame_lint.py:108-125 | An access at or below the limit is credited only after an addi that stepped short, or by a negative offset of its own |
| `FrameLint.FarFactsAreFar` | tools/frame_lint.py:124-131 | All far facts up to an instruction exceed the limit if and only if no addi before it takes one to the limit or below with no target directly after |
| `FrameLint.ShortStepIsCredited` | tools/frame_lint.py:124-125 | For every limit, address past it and step back within it, a program whose one short addi gets an access within the limit credited |
| `FrameLint.NegativeOffsetIsCredited` | tools/frame_lint.py:43-44 | For every limit, address past it and negative access offset back within it, as those of l32e and s32e, a program without any addi whose access within the limit is credited |
| `FrameLint.BothAtTheReach` | tools/frame_lint.py:36-36 | Both at the reach of 1020 bytes with operands an assembler emits |
| `FrameLint.FactsAfter` | tools/frame_lint.py:101-131 | Exactly what is known and what is far after any instruction, read off the instruction and the facts before it |
| `FrameLint.TargetsAreListed` | tools/frame_lint.py:93-97 | The addresses collected are exactly those a branch, a jump or a loop lists, which is where the machine may land |
| `FrameLint.CreditIsAccess` | tools/frame_lint.py:108-110 | An instruction is credited exactly if it is a load or store of three operands whose base holds a far address, and at that address plus its own offset |
| `FrameLint.ComputesAreCounted` | tools/frame_lint.py:115-123 | computes counts the additions of a far constant to a1 and its far steps; extra is two for each addition and one for each step |
| `FrameLint.FrameIsLargest` | tools/frame_lint.py:105-107 | frame is the largest frame that an entry of the function sets up |
| `FrameLint.CollectTargets` | tools/frame_lint.py:93-97 | The target loop collects exactly the addresses listed as targets of a branch, a jump or a loop |
| `FrameLint.Scan` | tools/frame_lint.py:92-133 | The instruction loop gives a row exactly when there is something to report, with the counts above |
| `RowPacking.GreedyIsShortest` | tools/pack_pet_compact.py:126-131 | No sequence of runs of at most 16 that encodes the row is shorter than the greedy one |
| `RowPacking.GreedyExpands` | tools/pack_pet_compact.py:126-131 | The greedy runs expand to the row |
| `RowPacking.SuffixNeedsNoMore` | tools/pack_pet_compact.py:126-131 | A suffix of a row never needs more runs |
| `RowPacking.RowReadsBack` | main/pet/pet_pixels.c:38-51 | Every row is read back from its table entry alone: all 64 indices, from inside the streams |
| `RowPacking.RunsWhereShorter` | tools/pack_pet_compact.py:123-134 | A row of given indices, two a byte with the low nibble first, is stored as runs exactly if some runs shorter than 32 bytes expand to it, and reads back as those indices |
| `RowPacking.RunsAddUp` | main/pet/pet_pixels.c:18-19 | Each run byte stands for one more than its upper nibble of its lower nibble |
| `RowPacking.CheckRow` | main/pet/pet_pixels.c:11-21 | The loop of the firmware's check accepts exactly the rows whose bytes lie in order and hold 64 indices |
| `RowPacking.UnpackRow` | main/pet/pet_pixels.c:38-51 | On any row that the check accepts the loops of the firmware write all 64 pixels and none beyond, from the row's own bytes |
| `RowPacking.TableIsAccepted` | main/pet/pet_pixels.c:8-22 | The firmware's check accepts every row the packer writes |
| `RowPacking.StreamsAreShort` | tools/pack_pet_compact.py:132-134 | A stored row takes at most 32 bytes |
| `RowPacking.OffsetsStayBelowTheFlag` | tools/pack_pet_compact.py:133-135 | No offset reaches the flag bit, so offset and flag read back from an entry |
| `RowPacking.RowStandsAtItsOffset` | tools/pack_pet_compact.py:133-134 | Each stored row stands at its offset and later rows do not disturb it |
| `RowPacking.Build` | tools/pack_pet_compact.py:119-135 | The nested loops write the table and the streams of all 192 rows |
| `RowPacking.RowOfBody` | tools/pack_pet_compact.py:120-122 | The 192 rows are the 64 rows of each body, body after body |
| `RowPacking.PackRow` | tools/pack_pet_compact.py:122-134 | One row: its entry and its stored bytes |
| `RowPacking.EncodeRow` | tools/pack_pet_compact.py:124-131 | The greedy loop |
| `RowPacking.CountRun` | tools/pack_pet_compact.py:127-129 | The inner loop finds the longest run, up to 16 |
| `RowPacking.ReadIndices` | tools/pack_pet_compact.py:123-123 | Two indices a byte, low nibble first |
| `GlyphPlacement.Place` | tools/make_jpfont.py:114-142 | Pixel-exact clipping for every box and offset: cell pixel (r, c) is set exactly when the glyph has pixel (r - (ascent - yoff - h), c - xoff) inside its box, the leftmost pixel the highest bit of whole bytes; every row fits the cell |
| `GlyphPlacement.PlacedPixel` | tools/make_jpfont.py:132-141 | One row, for positive and negative shifts alike |
| `FontImage.LookupReadsTheTable` | tools/make_jpfont.py:249-269 | The whole round trip: in the parsed image of a built font every mapped codepoint gives its advance and rows, every other glyph 0 with the tofu rows |
| `FontImage.ParseAcceptsBuild` | tools/make_jpfont.py:227-246 | A written image is accepted, with its fields and its map, exactly when U+0000 is not in the table; otherwise the map is not ascending |
| `FontImage.ParseAcceptsExactly` | tools/make_jpfont.py:227-246 | Exactly which images are accepted, byte by byte, and what is read from them: a wrong magic, version, checksum, size, alignment or order of any image is refused |
| `FontImage.PixelInRow` | tools/make_jpfont.py:216-219 | Pixel c of a row from the left is bit 7 - c mod 8 of its byte c / 8; the fill is clear |
| `FontImage.EntryInImage` | tools/make_jpfont.py:206-214 | Each map entry of a written image stands at 32 + 4k: codepoint, advance, zero |
| `FontImage.PixelInImage` | tools/make_jpfont.py:206-219 | The byte and the bit of a written image that hold any pixel of any glyph |
| `FontImage.HeaderReadsBack` | tools/make_jpfont.py:220-223 | Every header field reads back |
| `FontImage.CmapReadsBack` | tools/make_jpfont.py:213-214 | Entry k of the map reads back at its place |
| `FontImage.BitmapReadsBack` | tools/make_jpfont.py:216-219 | The rows of every glyph read back from its place in the bitmap |
| `FontImage.RowReadsBack` | tools/make_jpfont.py:217-219 | A row moved up to its bytes and back down is the row |
| `FontImage.MapAscends` | tools/make_jpfont.py:206-207 | The map ascends exactly when U+0000 is not in the table |
| `FontImage.Lookup` | tools/make_jpfont.py:249-269 | The binary search finds what a scan of the map finds |
| `FontImage.ReadRows` | tools/make_jpfont.py:263-269 | The row loop |
| `FontImage.ParseImage` | tools/make_jpfont.py:227-246 | The loops of the parser give the parse function's result, errors included |
| `FontImage.Build` | tools/make_jpfont.py:201-224 | The image of the one list of glyphs with the tofu box first and the table by ascending codepoint |
| `FontImage.ListsIsUnique` | tools/make_jpfont.py:204-208 | There is only one such list, so the built image is determined by the table |
| `FontImage.SortedKeys` | tools/make_jpfont.py:204-204 | The codepoints ascending, each once |
| `FontImage.TofuIsTheBorder` | tools/make_jpfont.py:145-148 | Exactly the border pixels of the tofu box are set |
| `FontImage.WriteCmap` | tools/make_jpfont.py:213-214 | The map loop |
| `FontImage.WriteBitmap` | tools/make_jpfont.py:216-219 | The bitmap loops |
| `FontImage.AscendingFar` | tools/make_jpfont.py:242-244 | Neighbours ascending means all ascending |
| `TokenLedger.AgreesWithOneRead` | tools/pet_companion.py:104-110 | On a file that is only appended to, whatever the partial last lines and bounded calls, the table is that of the lines before the cursor read once from an empty table |
| `TokenLedger.GrowingIsReadOnce` | tools/pet_companion.py:117-126 | There every line before the cursor was read exactly once, in order, and the cursor stands at a line boundary |
| `TokenLedger.OneCall` | tools/pet_companion.py:117-148 | One call in full: where it starts -- from the beginning for a file not seen, replaced or cut short -- where it stops, the lines in between applied to the table, and no other cursor touched |
| `TokenLedger.ReplacedIsReadAnew` | tools/pet_companion.py:118-118 | A file not seen before, replaced or cut short is read from its first line: the table is that of those lines |
| `TokenLedger.TableIsHighWater` | tools/pet_companion.py:147-147 | After any calls on any files, appended to, replaced or cut short, the table holds exactly the per-message maximum over all lines read, and a call never lowers the total |
| `TokenLedger.RestartKeepsTheTable` | tools/pet_companion.py:118-118 | Starting over on lines already read changes nothing |
| `TokenLedger.ReadingAgainChangesNothing` | tools/pet_companion.py:107-109 | Repeated lines change nothing |
| `TokenLedger.SameLinesSameTable` | tools/pet_companion.py:109-109 | Neither order nor repetition of lines matters |
| `TokenLedger.SplitIsUnique` | tools/pet_companion.py:124-126 | Bytes split into lines in one way only |
| `TokenLedger.CallReadsLines` | tools/pet_companion.py:120-128 | A call reads whole lines and every byte up to where it stops |
| `TokenLedger.AdvancesOnCompleteLines` | tools/pet_companion.py:124-128 | A call moves the cursor if and only if its next line is complete and within the read limit |
| `TokenLedger.OverlongLineHolds` | tools/pet_companion.py:124-126 | A line past the limit holds the cursor for ever, whatever is appended |
| `TokenLedger.CallReadsABatch` | tools/pet_companion.py:122-126 | A call stops only where no line can be read or after 4 MiB |
| `TokenLedger.CallsCatchUp` | tools/pet_companion.py:122-126 | n calls read n batches or all that can be read |
| `TokenLedger.UpsertSum` | tools/pet_companion.py:147-149 | A record raises the total by exactly what it raises its message by |
| `TokenLedger.ApplyIsHighWater` | tools/pet_companion.py:147-147 | Upserting line after line gives the high-water table |
| `TokenLedger.Ledger.TranscriptTokens` | tools/pet_companion.py:104-149 | A call leaves the cursors and the table of the step function and returns the sum, or nothing for no file or an empty table |
| `TokenLedger.Ledger.ReadOn` | tools/pet_companion.py:121-147 | The read loop |
| `TokenLedger.SumTokens` | tools/pet_companion.py:149-149 | The sum over all messages; nothing for an empty table |
| `OpusContainer.IndexMeetsScan` | tools/make_opus_asset.c:138-143 | For every packet p, walking p mod 5 packets from index[p/5] and p packets from the data offset lead to one place, and packet p is there |
| `OpusContainer.FillPlays` | main/pocket/pocket_av.c:716-752 | Reading slot by slot plays every packet once, in order, each slot whole packets, the last one flagged, and as many slots as packets always suffice |
| `OpusContainer.WholeCutsAtPackets` | main/pocket/opus_feed.h:147-156 | A slot is cut after the last packet that fits it, wherever in the body it begins |
| `OpusContainer.WrittenIsAccepted` | main/pocket/opus_feed.h:94-136 | The firmware accepts a written file exactly when it has a sample to play, and reads back every field |
| `OpusContainer.ParseAcceptsExactly` | main/pocket/opus_feed.h:94-136 | Exactly which headers are accepted, byte by byte, and what is read from them: any wrong magic, version, channels, rate, frame, packet size, count, index or data offset is refused |
| `OpusContainer.WrittenHeader` | tools/make_opus_asset.c:153-164 | Every header field of a written file, byte by byte; the longest packet is one of the packets; as many packets as cover the samples |
| `OpusContainer.WrittenIndex` | tools/make_opus_asset.c:138-167 | Entry i of a written file is where packet 5i begins, and the packets follow the index |
| `OpusContainer.BodyOfOneMore` | tools/make_opus_asset.c:141-143 | A packet is written behind its length, low byte first |
| `OpusContainer.WholeIsPackets` | main/pocket/opus_feed.h:147-156 | Of any bytes the prefix taken is whole packets, none empty, and no other whole one follows |
| `OpusContainer.FillGivesUp` | main/pocket/pocket_av.c:716-752 | Where no whole packet is met one empty slot is published, flagged as the last, and reading ends |
| `OpusContainer.LocateReadsTheEntry` | main/pocket/pocket_av.c:881-899 | On any accepted header: the entry of the sample's interval, or the last, is read, and a place outside the packets is refused |
| `OpusContainer.SeekLands` | main/pocket/pocket_av.c:881-899 | A seek to a playable sample reads on from its group of five packets; the reported position is exact if and only if the lookahead does not reach past that group's start (group 0 apart) |
| `OpusContainer.EverySeekIsExact` | main/pocket/pocket_av.c:881-899 | Every playable sample is sought exactly if and only if the lookahead is less than 2400 samples or a multiple of them |
| `OpusContainer.SeekCanMiss` | main/pocket/pocket_av.c:893-895 | A container with a lookahead of 3000 where the seek to sample 0 misses |
| `OpusContainer.IndexReadsBack` | tools/make_opus_asset.c:165-165 | Every index entry reads back as the offset of its group's first packet |
| `OpusContainer.HeaderReadsBack` | tools/make_opus_asset.c:153-164 | Every header field reads back |
| `OpusContainer.FileLayout` | tools/make_opus_asset.c:118-118 | Header and index are exactly data_offset bytes, and the body follows |
| `OpusContainer.PacketStands` | tools/make_opus_asset.c:141-143 | Packet p stands whole behind its length at its offset |
| `OpusContainer.WalkFollows` | tools/make_opus_asset.c:141-143 | k length prefixes lead from any packet to the k-th after it |
| `OpusContainer.GateReadsTheToc` | tools/make_opus_asset.c:48-51 | The gate passes exactly CELT, 20 ms, mono, one frame by section 3.1 of RFC 6716, that is four byte values |
| `OpusContainer.MakeAsset` | tools/make_opus_asset.c:115-167 | The file, exactly when the encoder never failed and the gate passed every packet; the first bad packet otherwise; neither the slot check nor the header length check fires |
| `OpusContainer.WritePackets` | tools/make_opus_asset.c:120-144 | The packet loop: body, index and longest packet |
| `OpusContainer.PutIndex` | tools/make_opus_asset.c:165-165 | The index loop |
| `OpusContainer.Whole` | main/pocket/opus_feed.h:147-156 | The prefix loop |
| `OpusContainer.Player.FeedOpus` | main/pocket/pocket_av.c:716-752 | The refill loop publishes the slots and leaves the place of the fill function |
| `OpusContainer.Player.constructor` | main/pocket/pocket_av.c:594-596 | Playing begins at the data offset |

## Left out

- QuickJS, Kasane and the `pocket_*` surfaces: a guest is a deterministic step function with effects; a surface is
  what it delivers.
- What the display's BUSY answer would do inside JavaScript: `TurnMachine` shows that no frame() meets the pictures
  that cause it, and does not model the exception itself.
- The Back turn is outside `Refinement`; `BackReachesFrame` is what is shown of it.
- Key masks are sets of bit numbers, so their width is not modelled.
- The length of the budget itself, the leave budget and the runaway count: a cut and a runaway verdict are inputs.
- Sound, network, SD and logging calls of the lifecycle, and the screens' own state.
- Delays in `Pacing` are served in full; ticks are milliseconds.
- Pacing.UiTask.EndOfPass: the passes with no guest, which only restart the period, are not modelled.
- Rounding in `RangeReduction` is any order-keeping map that leaves doubles alone; infinities, signed zeros and angles
  beyond 2^25 - 2 periods are not modelled.
- UTF-8 decoding of log lines, the texts of bad-frame reasons, `Adapter` and the host side of the bridge.
- The text parsing of objdump output, and the baseline file of the lint.
- Palettes, patches and eyes of the pets, and the images they come from: only rows and their table.
- FontImage.Build: leaves out the exceptions for a codepoint, an advance or a row too wide for its field; the round trips
  are stated for fonts whose fields fit.
- BDF parsing and the choice of codepoints.
- CRC-32 is any function on bytes; SHA-256 digests are numbers that name their message and path.
- The JSON decoding of a transcript line: any function from a line to a message and its tokens, for one session.
- TokenLedger.AgreesWithOneRead: a file replaced by one of the same inode and no shorter than the cursor is not told apart by
  the code; the property is stated for appends, and `TableIsHighWater` for everything.
- Database transactions, and snapshots published from the total.
- The Opus encoder and decoder, the WAV reader, and short reads of the file while refilling.
- Other tools and games of the repository, whose floating-point code has no promise to prove.

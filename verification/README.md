# OpenWrt USB displays and the ninja jobserver: verified models

The repository packages three drivers for USB displays (AX206, MPro, BeadaPanel) and a patch that makes
ninja a client of the GNU make jobserver. This project models their concurrent state machines, their pixel
geometry and their bounded arithmetic in Dafny, and proves what holds over every run and every input.
`dafny verify dfyconfig.toml` checks all of it.

| modules | what they model |
|---|---|
| `Ax206Blit`, `Ax206Runs`, `Ax206Idle`, `Ax206Draws`, `Ax206Driver`, `Ax206Picture` | the shadow buffer, its lossy dirty rectangle and the blit worker: the state machine, its runs, idling, the driver code on fields and arrays, and what the panel ends up showing |
| `MproPipeline`, `MproRuns`, `MproDriver`, `MproScreen` | the latest-wins frame pipeline with one transfer in flight and one pending slot, and what the panel shows after it |
| `JobserverPool`, `JobserverSystem`, `JobserverWin32` | the POSIX token pool and command runner, any number of pools on one pipe, and the two-semaphore handshake on Win32 |
| `PanelLink` | the host's cache of the firmware's dimension latch, against the firmware as an automaton |
| `Orientation`, `PixelFormat`, `PixelBlits`, `FrameCopy`, `UpdateSlice` | rotations of all three drivers, pixel formats, the permutation blits, the copy into the MPro frame, and which part of it is sent |
| `Checksum`, `ProtocolTags` | the RFC 1071 checksum and the tags that carry it |
| `IdleAccounting`, `Ewma`, `GammaText` | power statistics, moving averages, gamma text |
| `Grid`, `Words` | pixels and rectangles; optional values and 32-bit words |

The concurrent parts share one form: a state, the steps that the source performs under a lock or between
two locks, and theorems over every sequence of enabled steps. The methods of the driver classes follow the
source statement by statement and are proved to be runs of those machines or to compute the specification
functions beside them.

## Where the code differs from what its texts promise

* The AX206 idle exit called from `pipe_enable` may finish while the queue is still sending the black frame
  of an idle entry; the panel then stays black, exactly where `Ax206Runs.LostExact` says
  (`OvertakenEntryBlackens`). The convergence theorems count those pixels as lost.
* A rotation set through sysfs makes the next AX206 flush of the whole screen read outside a framebuffer that
  keeps its size from probe, say 320x480 of 480x320 pixels (`Ax206Driver.RotationStrays`, `Driver.PipeUpdate`).
* A failed MPro submit that finds a pending frame strands it, and the order of frames breaks from every such
  state (`MproRuns.StrandedFrameOvertaken`, `StrandingHappens`).
* MPro shutdown waits for the completion work but not for senders, nor for a URB that the work submits after the
  others were killed. It is safe exactly if it begins while no transfer is about to be submitted and no sender
  handles a failed submit (`MproRuns.ShutdownExact`, `HasteHappens`, `WorkerHappens`).
* The damage of an MPro frame that is displaced, dropped while the display is idle, or refused stays off the
  panel until it is drawn again (`MproScreen.ScreenExact`, `WholeFramesAgree`, `DisplacedDamageStays`). The black
  frame that `idle_work` pushes comes after `is_idle` is set and is dropped too (`IdleAcceptsNothing`).
* A framebuffer from before a sysfs rotation makes a rotated MPro copy leave its temporary buffer or its source
  (`UpdateSlice.StaleEnable`, `StaleUpdate`, `FrameCopy.TempFitsExact`), and one that reaches beyond the Beada
  screen is folded onto its edge (`Orientation.BeadaFolds`).
* On Win32 a call that `TokenIsAvailable` queued too late makes the child deaf for a round, exactly if it is
  pending and no packet is when a round starts whose child still has to announce itself
  (`JobserverWin32.RoundDeafness`, `DeafnessExact`, `StaleCallDeafens`); a DoWork call without a token pool can
  take the child's packet for a subprocess (`PlainPacketExact`, `PacketLeftBehind`).
* `GNUmakeTokenPool::Clear` retries failed writes for ever: it ends exactly when as many have succeeded as the
  pool holds characters (`JobserverPool.ClearExact`).
* PL_RESET on resume is never sent once GET_INFO has disabled Status-Link, and a START that arrives late or a
  frame in the resume window spoils the stream, in the window exactly as `PanelLink.SettlingWindowExact` and
  `WokenWindowExact` say (also `ResumeExact`, `LateStartBreaks`); a first frame that is too large locks every
  later one out (`OversizeLocksOut`).
* `compose_rotation` and the touch rotation are off by a half turn for some reflected quarter turns
  (`Orientation.ComposeExact`, `Orientation.TouchRotate`), sysfs modes 5 and 7 are exchanged between two
  drivers, and AX206 modes 1, 3, 7 need a square panel.
* Partial MPro frames that touch the bottom row are refused (`UpdateSlice.MproDrm.RequestUpdate`).
* The checksum is stored in host order, so tags check on little-endian hosts and otherwise only by accident
  (`ProtocolTags.FillPanelTag`).
* A gamma without a dot wraps at 32 bits (`GammaText.WholeExact`).

## Model

| member | source | states |
|---|---|---|
| `Ax206Runs.CoverageTheorem` | kernel/ax206/src/drm/ax206-drm-plane.c:54-275 | In every interleaving of flush, blank, blit worker, idle entry, resume and disconnect: once cleared, while neither idle nor closing, a pixel on which panel and shadow differ is in the dirty rectangle, the in-flight rectangle, an unfinished flush box or blank, an unsent full transfer, or lost |
| `Ax206Runs.Convergence` | kernel/ax206/src/drm/ax206-drm-plane.c:54-139 | At rest nothing is dirty and the panel equals the shadow outside the pixels lost and not repainted since, hence everywhere if there is none |
| `Ax206Runs.NoLostWakeup` | kernel/ax206/src/drm/ax206-drm-plane.c:64-102 | Dirty implies active; active holds exactly while the one work item is queued or looping, never both; a taken rectangle always passes the sanity test; rectangles are taken at most once per damage event |
| `Ax206Runs.NothingLost` | kernel/ax206/src/drm/ax206-drm-plane.c:108-135 | Pixels are lost only by a failed transfer or allocation or an idle exit that finishes before a black frame still being sent |
| `Ax206Runs.FaultHarms` | kernel/ax206/src/drm/ax206-drm-plane.c:108-135 | and each of those steps does lose some, or arms a black frame that will |
| `Ax206Runs.SendsExact` | kernel/ax206/src/drm/ax206-drm-plane.c:91-113 | A taken rectangle is sent exactly if the driver is awake, not disconnected and gets the memory; if only memory is missing it is lost |
| `Ax206Runs.BlitDecreases` | kernel/ax206/src/drm/ax206-drm-plane.c:64-138 | Each worker step decreases (dirty, phase, pixels left to copy), the termination measure of its loop |
| `Ax206Runs.BlitEnabled` | kernel/ax206/src/drm/ax206-drm-plane.c:64-138 | While work is marked active the worker always has a step that is not a failure |
| `Ax206Runs.Drain` | kernel/ax206/src/drm/ax206-drm-plane.c:64-138 | Left alone the worker reaches rest without losing a pixel or touching the shadow, and repaints the lost pixels it still had to send |
| `Ax206Runs.WorkerSettles` | kernel/ax206/src/drm/ax206-drm-plane.c:54-139 | From every reachable state between commits the worker alone makes panel and shadow equal on every pixel that is not lost or is about to be sent, and everywhere if all lost pixels are |
| `Ax206Runs.BlitHeals` | kernel/ax206/src/drm/ax206-drm-plane.c:128-135 | A transfer that arrives ends the loss of the pixels it carries |
| `Ax206Runs.OvertakenEntryBlackens` | kernel/ax206/src/drm/ax206-drm-pm.c:69-106 | Counterexample run: an idle exit from pipe_enable overtakes the black frame of an idle entry, and at rest the panel is black although the shadow is not and no transfer failed |
| `Ax206Runs.LostExact` | kernel/ax206/src/drm/ax206-drm-pm.c:69-106 | If no transfer and no allocation fails, at rest the panel shows a pixel of the shadow exactly if that pixel is not lost, or black |
| `Ax206Idle.IdleStaysDark` | kernel/ax206/src/drm/ax206-drm-pm.c:69-80 | Whatever is drawn meanwhile, in every interleaving the panel stays black while the driver is idle, once the black frame has arrived |
| `Ax206Idle.IdleEntry` | kernel/ax206/src/drm/ax206-drm-pm.c:69-80 | An idle entry from a driver at rest gets there |
| `Ax206Idle.IdleExit` | kernel/ax206/src/drm/ax206-drm-pm.c:87-119 | An idle exit from pipe_enable shows the shadow and ends every loss, or loses everything if its transfer fails; either way the driver is awake and the commit thread through |
| `Ax206Idle.Resume` | kernel/ax206/src/drm/ax206-drm-pm.c:131-137 | The same for the resume work item |
| `Ax206Runs.BlankRun` | kernel/ax206/src/drm/ax206-drm-plane.c:257-275 | A whole blank is a run that leaves a black shadow, the whole panel dirty and idle cleared |
| `Ax206Blit.StepInv` | kernel/ax206/src/drm/ax206-drm-plane.c:54-275 | Every step of every thread keeps the invariant behind coverage and wake-up, including that a copied pixel that is stale is covered by pending damage |
| `Ax206Blit.MergeIsHull` | kernel/ax206/src/drm/ax206-drm-plane.c:223-235 | The u16 merge never wraps and gives the least proper rectangle that holds the old rectangle and the new box |
| `Ax206Blit.InitInv` | kernel/ax206/src/drm/ax206-drm-plane.c:257-275 | The state after loading the driver satisfies the invariant |
| `Ax206Driver.Driver.constructor` | kernel/ax206/src/drm/ax206-drm-rotation.c:50-72 | A new driver object represents exactly the initial state: black shadow, nothing dirty |
| `Ax206Driver.Driver.SetRotation` | kernel/ax206/src/drm/ax206-drm-rotation.c:50-72 | The logical size is the domain of the rotation map |
| `Ax206Driver.Driver.RotatePixel` | kernel/ax206/src/drm/ax206-drm-rotation.c:74-124 | Gives the panel pixel whose source is the logical pixel; it is the only one |
| `Ax206Driver.Driver.PutPixel` | kernel/ax206/src/drm/ax206-drm-plane.c:203-216 | An equal pixel is skipped; otherwise it is written and the box grows |
| `Ax206Driver.BoxHolds` | kernel/ax206/src/drm/ax206-drm-plane.c:210-216 | The accumulated box is valid and holds every pixel that a write of the flush changed |
| `Ax206Driver.BoxIsLeast` | kernel/ax206/src/drm/ax206-drm-plane.c:210-216 | and it is the least box that does |
| `Ax206Driver.Driver.Scan` | kernel/ax206/src/drm/ax206-drm-plane.c:165-218 | The loops say exactly whether the clip lies in the framebuffer; if it does, they leave the shadow as unconditional conversion would, by exactly the writes of ScanOps |
| `Ax206Driver.Driver.MarkDamage` | kernel/ax206/src/drm/ax206-drm-plane.c:223-244 | The fields become the merged rectangle, and work is queued exactly if none was active |
| `Ax206Driver.Driver.Flush` | kernel/ax206/src/drm/ax206-drm-plane.c:148-245 | The flush is a run of the state machine. For a clip in the framebuffer the shadow then equals unconditional conversion, damage is marked exactly if the shadow changed, and the draw steps are FlushOps; for any other clip the run ends in the middle of the flush |
| `Ax206Driver.FlushDraws` | kernel/ax206/src/drm/ax206-drm-plane.c:165-218 | The draw steps of a flush, a function of its arguments, convert the clip on whatever shadow they fall |
| `Ax206Driver.PanelReads` | kernel/ax206/src/drm/ax206-drm-plane.c:171-194 | The number that the big-endian panel reads out of a stored pixel is 2048 * (r / 8) + 32 * (g / 4) + b / 8 for the channels r, g, b of an XRGB8888 pixel, and an RGB565 pixel itself |
| `Ax206Draws.ShadowIsDrawn` | kernel/ax206/src/drm/ax206-drm-plane.c:54-275 | In every interleaved run the shadow is what the commit thread's draw steps make it; the queue thread only reads it |
| `Ax206Draws.PrefixCovers` | kernel/ax206/src/drm/ax206-drm-plane.c:196-213 | The shadow covers the panel after every draw step of a run |
| `Ax206Driver.Driver.Blank` | kernel/ax206/src/drm/ax206-drm-plane.c:257-275 | The blank is a run of the state machine to a black shadow with the whole panel dirty |
| `Ax206Driver.Driver.PipeUpdate` | kernel/ax206/src/drm/ax206-drm-plane.c:316-352 | A page update flushes the whole logical screen after a size change, which stays inside exactly if the framebuffer holds that screen, and each damage rectangle otherwise; it is a run of the state machine with exactly the draw steps of that update |
| `Ax206Driver.RotationStrays` | kernel/ax206/src/drm/ax206-drm-plane.c:338-347 | A framebuffer of the size set at probe holds the logical screen of a mode set later exactly if that mode keeps the dimensions, or the screen at probe was not wider than high, or one pixel wide |
| `Ax206Driver.Driver.TakeDirty` | kernel/ax206/src/drm/ax206-drm-plane.c:70-89 | The lock section of the worker: takes and resets the rectangle, or goes inactive |
| `Ax206Driver.Driver.CopyRect` | kernel/ax206/src/drm/ax206-drm-plane.c:115-124 | The transfer buffer is the rectangle of the shadow, packed row by row |
| `Ax206Driver.FlushAdvances` | kernel/ax206/src/drm/ax206-drm-plane.c:196-213 | Writing the one panel pixel of clip pixel l, or skipping it off the panel, advances the scan by exactly l |
| `Ax206Picture.UpdatesShow` | kernel/ax206/src/drm/ax206-drm-plane.c:316-352 | Over any sequence of updates whose damage holds every changed framebuffer pixel, at constant rotation, the shadow shows the newest framebuffer |
| `Ax206Picture.ScreenCoversPanel` | kernel/ax206/src/drm/ax206-drm-rotation.c:74-124 | The logical screen covers every panel pixel exactly for modes 0, 2, 4, 5, 6 and on square panels |
| `Ax206Picture.UpdatesDraw` | kernel/ax206/src/drm/ax206-drm-plane.c:316-352 | The draw steps of a sequence of updates leave the shadow those updates describe |
| `Ax206Picture.PanelShowsFramebuffer` | kernel/ax206/src/drm/ax206-drm-plane.c:54-352 | Damage tracking, flush and blit together, for every interleaved run whose draw steps end with those of well-damaged updates: at rest every panel pixel that is not lost shows the newest framebuffer, rotated |
| `MproRuns.ExactlyOnePlace` | kernel/mpro/src/mpro_pipeline.c:241-276 | At every moment each accepted transfer is in exactly one place, a retired one has exactly one holder or is freed, and nobody works on a freed one |
| `MproRuns.FreedOnce` | kernel/mpro/src/mpro_pipeline.c:262-274 | No run frees a transfer twice, failed submits and URB errors included |
| `MproRuns.Conservation` | kernel/mpro/src/mpro_pipeline.c:403-461 | Accepted = completed + displaced + submit-failed + shutdown-freed + live; dropped = displaced + idle-dropped, up to drops still being counted |
| `MproRuns.LatestWins` | kernel/mpro/src/mpro_pipeline.c:433-442 | Without a stranding failed submit frames reach the wire in strictly increasing order, at most one at a time, running and pending imply in flight, only newer frames displace, and the newest accepted frame is the last sent |
| `MproRuns.StrandedFrameOvertaken` | kernel/mpro/src/mpro_pipeline.c:452-459 | From every state that a failed submit leaves with a pending frame, a newer frame can reach the wire first and the old one after it |
| `MproRuns.StrandingStep` | kernel/mpro/src/mpro_pipeline.c:453-457 | That state arises exactly from a failed submit that finds a pending frame |
| `MproRuns.StrandingHappens` | kernel/mpro/src/mpro_pipeline.c:403-461 | A run from the start strands a frame and sends a newer one before it |
| `MproRuns.HastyShutdown` | kernel/mpro/src/mpro_pipeline.c:540-563 | If shutdown starts while a sender or the completion work is about to submit, the transfer can be freed and on the wire |
| `MproRuns.DoubleFree` | kernel/mpro/src/mpro_pipeline.c:453-459 | If it starts while a sender handles a failed submit, that transfer can be freed twice |
| `MproRuns.ShutdownExact` | kernel/mpro/src/mpro_pipeline.c:540-563 | Shutdown is safe, over all runs that begin with it, exactly if no transfer is about to be submitted and a failed submit is handled by the completion work, for which cancel_work_sync waits |
| `MproRuns.HasteHappens` | kernel/mpro/src/mpro_pipeline.c:403-461 | Both unsafe states of a sender are reached from the start |
| `MproRuns.WorkerHappens` | kernel/mpro/src/mpro_pipeline.c:262-275 | Both states of the completion work are reached from the start: about to submit, unsafe, and with a failed submit, safe |
| `MproRuns.OrderStep` | kernel/mpro/src/mpro_pipeline.c:249-260 | Every step except a stranding one keeps the order invariant |
| `MproPipeline.StepInv` | kernel/mpro/src/mpro_pipeline.c:241-563 | Every step, the three of shutdown included, keeps token, ownership and counters, if shutdown begins at a calm moment |
| `MproPipeline.TokenStep` | kernel/mpro/src/mpro_pipeline.c:249-260 | in_flight is a token: exactly one thread, URB, queued completion or unfinished shutdown answers for the current transfer |
| `MproPipeline.OwnershipStep` | kernel/mpro/src/mpro_pipeline.c:410-447 | Every step keeps each transfer in exactly one place with one holder |
| `MproScreen.ScreenExact` | kernel/mpro/src/mpro_pipeline.c:403-447 | After every run without stranding, whichever URBs fail and whichever updates are dropped while idle or refused, panel and frame agree whatever was drawn exactly if for every pixel the last update requested for it has arrived |
| `MproScreen.AgreementExact` | kernel/mpro/src/mpro_pipeline.c:437-442 | The same for any increasing sequence of arrivals |
| `MproScreen.AgreeAt` | kernel/mpro/src/mpro_pipeline.c:437-442 | Pixel by pixel, one direction |
| `MproScreen.ArrivalsIncrease` | kernel/mpro/src/mpro_pipeline.c:249-260 | Transfers arrive in the order of their acceptance |
| `MproScreen.WholeFramesAgree` | kernel/mpro/src/mpro_pipeline.c:418-447 | With whole frames only, after a run without failures, at rest, panel and frame agree whatever was drawn exactly if the newest update was accepted, neither dropped while idle nor refused |
| `MproScreen.ShownIncrease` | kernel/mpro/src/mpro_pipeline.c:403-447 | Accepted updates reach the panel in the order in which they were requested |
| `MproScreen.IdleAcceptsNothing` | kernel/mpro/src/mpro_pm.c:91-113 | While the display is idle nothing is accepted, the black frame of idle_work included |
| `MproScreen.IdleFrameMissing` | kernel/mpro/src/mpro_pipeline.c:424-429 | A run without failure after which a frame drawn while idle is missing on the awake display |
| `MproScreen.DisplacedDamageStays` | kernel/mpro/src/mpro_pipeline.c:437-442 | Without any failure, the damage of a displaced partial frame can stay off the panel |
| `MproDriver.Pipeline.constructor` | kernel/mpro/src/mpro_pipeline.c:526-537 | The initialised object represents the start state |
| `MproDriver.Pipeline.SendXfer` | kernel/mpro/src/mpro_pipeline.c:403-461 | Each branch (not running, idle, in flight, submitted, submit failed) as a run of the state machine, with the return value and the new slots |
| `MproDriver.Pipeline.CompleteWork` | kernel/mpro/src/mpro_pipeline.c:241-276 | The finished transfer is freed, and the pending one is sent next or freed if its submit fails |
| `MproDriver.Pipeline.Shutdown` | kernel/mpro/src/mpro_pipeline.c:540-563 | From a calm moment, waiting for a failed submit of the completion work, both slots are emptied, what they held is freed once, and no URB and no work is left |
| `JobserverPool.TokenPool.constructor` | devel/ninja/100-make_jobserver_support.patch:324-327 | A new pool owns its implicit token only |
| `JobserverPool.TokenPool.Acquire` | devel/ninja/100-make_jobserver_support.patch:373-385 | Succeeds with an available token or by reading one; pipe and stack together keep their characters |
| `JobserverPool.TokenPool.AcquireToken` | devel/ninja/100-make_jobserver_support.patch:1714-1791 | A character read is pushed, and none is made or lost |
| `JobserverPool.TokenPool.ReturnToken` | devel/ninja/100-make_jobserver_support.patch:1793-1805 | Retries interrupted writes; pops the top character exactly if it was written |
| `JobserverPool.TokenPool.Reserve` | devel/ninja/100-make_jobserver_support.patch:387-390 | Moves one token from available to used |
| `JobserverPool.TokenPool.Return` | devel/ninja/100-make_jobserver_support.patch:392-395 | Counts the token down exactly if it was written back |
| `JobserverPool.TokenPool.Release` | devel/ninja/100-make_jobserver_support.patch:397-402 | Gives the top character back exactly if the implicit token is already available |
| `JobserverPool.TokenPool.Clear` | devel/ninja/100-make_jobserver_support.patch:404-409 | With enough successful writes, failed and interrupted ones in between, it ends as Clearing says: one available and none used, and exactly the characters this pool holds are back in the pipe |
| `JobserverPool.ClearExact` | devel/ninja/100-make_jobserver_support.patch:404-409 | Clear has ended exactly when as many of its writes have succeeded as the pool holds characters, however many fail in between, and then leaves a new pool |
| `JobserverPool.ReleaseGivesTop` | devel/ninja/100-make_jobserver_support.patch:397-402 | A release changes only the counters unless it gives back the top character |
| `JobserverPool.IdlePoolNeverBlocks` | devel/ninja/100-make_jobserver_support.patch:373-385 | A pool with no job running can always start one |
| `JobserverPool.CommandRunner.CanRunMore` | devel/ninja/100-make_jobserver_support.patch:153-174 | Unbounded exactly with a token; otherwise one job exactly if none runs, and then a finished one still waits |
| `JobserverPool.CommandRunner.StartCommand` | devel/ninja/100-make_jobserver_support.patch:180-190 | Jobs and used tokens stay equal |
| `JobserverPool.CommandRunner.WaitForCommand` | devel/ninja/100-make_jobserver_support.patch:191-213 | Each result has its exact condition on the DoWork calls: the first that brings an interrupt, an exit or (with more work ready) a token decides, in that order, and a command that had finished comes before all; a reaped job releases its token, and nothing else changes the pool or the number of jobs |
| `JobserverPool.OutcomeExact` | devel/ninja/100-make_jobserver_support.patch:191-213 | The same conditions, for every sequence of DoWork calls |
| `JobserverPool.CommandRunner.Abort` | devel/ninja/100-make_jobserver_support.patch:146-151 | All jobs go, and all their characters go back |
| `JobserverSystem.TokensConserved` | devel/ninja/100-make_jobserver_support.patch:373-409 | For any number of pools on one pipe, in every run: pipe plus stacks is the initial multiset of characters, each pool keeps available + used = 1 + stack height and can account for every character it read |
| `JobserverSystem.JobsAccounted` | devel/ninja/100-make_jobserver_support.patch:162-174 | The number of jobs follows from where the tokens are, progress rule and failed writes included |
| `JobserverSystem.JobsBounded` | devel/ninja/100-make_jobserver_support.patch:387-402 | With Reserve only after a successful Acquire, jobs never exceed pools plus initial tokens |
| `JobserverSystem.AtMostOneInReserve` | devel/ninja/100-make_jobserver_support.patch:397-402 | With that discipline and working writes every pool has 0 or 1 token available |
| `JobserverSystem.FailedWriteHoards` | devel/ninja/100-make_jobserver_support.patch:392-402 | One failed write leaves a pool with two |
| `JobserverSystem.StepInv` | devel/ninja/100-make_jobserver_support.patch:373-409 | Every operation of every client keeps conservation |
| `JobserverWin32.SemaphoresInRange` | devel/ninja/100-make_jobserver_support.patch:1968-2041 | In every uninterrupted run both semaphores are 0 or 1 and never both 1, no release finds its semaphore at the maximum, and tokens are conserved |
| `JobserverWin32.NeverBothBlocked` | devel/ninja/100-make_jobserver_support.patch:2027-2029 | Whenever the parent is blocked on enter_wait the child has an enabled step, stale calls included |
| `JobserverWin32.WaitingEnds` | devel/ninja/100-make_jobserver_support.patch:1968-1990 | Each child step brings the announcement closer and nobody else defers it |
| `JobserverWin32.WaitBounded` | devel/ninja/100-make_jobserver_support.patch:1968-2029 | A wait for enter_wait is over with at most the fifth step of the child, in every interleaving |
| `JobserverWin32.InterruptedRoundBlocks` | devel/ninja/100-make_jobserver_support.patch:970-990 | After an interrupted DoWork a further one would block on a child that cannot move exactly if the child listens with no call and no token |
| `JobserverWin32.DeafnessExact` | devel/ninja/100-make_jobserver_support.patch:1968-2041 | While the parent sleeps in the queue its listening child can go deaf exactly if a call is pending |
| `JobserverWin32.RoundDeafness` | devel/ninja/100-make_jobserver_support.patch:1968-2041 | Over a whole round: it can leave the child deaf exactly if at its start a call is pending, no packet is, and the child is at the top of its loop or blocked until it is let go |
| `JobserverWin32.StaleCallDeafens` | devel/ninja/100-make_jobserver_support.patch:2034-2041 | A run in which that happens and a free token goes unreported |
| `JobserverWin32.PlainPacketExact` | devel/ninja/100-make_jobserver_support.patch:192-203 | A DoWork call without a token pool can take the child's packet for a subprocess exactly if more packets were posted than fetched |
| `JobserverWin32.PacketLeftBehind` | devel/ninja/100-make_jobserver_support.patch:970-990 | A run in which it can |
| `JobserverWin32.DeafStays` | devel/ninja/100-make_jobserver_support.patch:1968-1990 | Only an event of a subprocess ends that state |
| `JobserverWin32.FreshRoundListens` | devel/ninja/100-make_jobserver_support.patch:1968-1990 | A round that starts with no pending call never gets there |
| `PanelLink.LatchTracked` | kernel/beadapanel/src/beada-pipeline.c:147-190 | Over every proper run of frames, suspends with or without loss of the latch, resumes, failed transfers and disconnect, the firmware gets no START while latched, no pixels while unlatched, only frames of its START size; the cache is the latch |
| `PanelLink.StepInv` | kernel/beadapanel/src/beada-pm.c:113-251 | Every step that keeps to the conditions keeps that |
| `PanelLink.ResumeExact` | kernel/beadapanel/src/beada-pm.c:201-225 | The next frame after a resume is accepted exactly if the latch was lost or PL_RESET reached the firmware (never sent once GET_INFO has disabled Status-Link) |
| `PanelLink.LateStartBreaks` | kernel/beadapanel/src/beada-pipeline.c:154-169 | A START that arrives although its transfer fails is sent again and read as pixels |
| `PanelLink.SettlingWindowExact` | kernel/beadapanel/src/beada-pm.c:215-225 | With a frame between PL_RESET and the zeroing of the cache, the stream up to the next frame is accepted exactly if the cache is not empty and that frame is one the host does not send |
| `PanelLink.WokenWindowExact` | kernel/beadapanel/src/beada-pm.c:209-225 | With a frame before PL_RESET, exactly when, by cache, latch, frame and whether the reset arrives |
| `PanelLink.WindowReached` | kernel/beadapanel/src/beada-pm.c:113-225 | Every combination of cache and latch at such a frame is reached from probe by proper steps |
| `PanelLink.WindowHappens` | kernel/beadapanel/src/beada-pm.c:201-225 | A run from every probe in which one window frame spoils the stream |
| `PanelLink.LateStartHappens` | kernel/beadapanel/src/beada-pipeline.c:154-169 | A run from every probe in which a late START spoils it |
| `PanelLink.OversizeHappens` | kernel/beadapanel/src/beada-pipeline.c:168-185 | An oversize first frame latches its size on every probed device |
| `PanelLink.OversizeLocksOut` | kernel/beadapanel/src/beada-pipeline.c:168-185 | A first frame that is too large latches its size all the same, and then no frame gets through |
| `PanelLink.Device.constructor` | kernel/beadapanel/src/beada-drv.c:152-165 | A probed device has an empty cache behind a delivered PL_RESET |
| `PanelLink.Device.PlSend` | kernel/beadapanel/src/beada-pipeline.c:147-190 | Success exactly if START has gone through, now or earlier, for these dimensions, the frame fits and the pixels went through; each other code, the transfers made and the new cache have exact conditions |
| `PanelLink.SentExact` | kernel/beadapanel/src/beada-pipeline.c:147-190 | The codes, as a statement about the model function |
| `PanelLink.SentEffect` | kernel/beadapanel/src/beada-pipeline.c:147-190 | The transfers and the cache likewise |
| `PanelLink.Device.SendFrame` | kernel/beadapanel/src/beada-pipeline.c:431-456 | Refuses exactly empty or mis-sized frames, and hands the others to the worker |
| `PanelLink.Device.XferWorker` | kernel/beadapanel/src/beada-pipeline.c:196-218 | One frame of the model; it counts as displayed exactly if the device is neither disconnected nor suspended and the whole frame went through, and as dropped otherwise |
| `PanelLink.Device.PanellinkReset` | kernel/beadapanel/src/beada-pipeline.c:224-245 | One reset of the model, with the exact condition of each code and of what is sent |
| `PanelLink.Device.QueryDeviceInfo` | kernel/beadapanel/src/beada-pipeline.c:310-340 | A failed GET_INFO disables Status-Link |
| `PanelLink.Device.Suspend` | kernel/beadapanel/src/beada-pm.c:113-146 | The suspend step of the model |
| `PanelLink.Device.Resume` | kernel/beadapanel/src/beada-pm.c:201-225 | The three resume steps of the model in a row |
| `Orientation.Ax206MapBijective` | kernel/ax206/src/drm/ax206-drm-rotation.c:74-124 | The map stays on the panel, and is onto it, exactly in modes 0, 2, 4, 5, 6 and on square panels |
| `Orientation.Ax206MapInjective` | kernel/ax206/src/drm/ax206-drm-rotation.c:74-124 | No two logical pixels share a panel pixel |
| `Orientation.MproMapUndone` | kernel/mpro/src/drm/mpro_drm_color.c:186-235 | rotate_buffer stays in its target, and MproSource is its left inverse |
| `Orientation.MproMapOnto` | kernel/mpro/src/drm/mpro_drm_color.c:186-235 | and its right inverse |
| `Orientation.BeadaUnclamped` | kernel/beadapanel/src/drm/beada-drm-plane.c:128-160 | The clamp never acts on a framebuffer that fits |
| `Orientation.BeadaMapUndone` | kernel/beadapanel/src/drm/beada-drm-plane.c:128-160 | The Beada map stays on the panel, and BeadaSource is its left inverse |
| `Orientation.BeadaMapOnto` | kernel/beadapanel/src/drm/beada-drm-plane.c:128-160 | and its right inverse |
| `Orientation.BeadaFolds` | kernel/beadapanel/src/drm/beada-drm-plane.c:128-160 | A pixel beyond the logical screen is folded onto the cell of the nearest pixel on it, and exactly the pixels beyond it are |
| `Orientation.SysfsModesAgree` | kernel/beadapanel/src/drm/beada-drm-plane.c:128-160 | MPro and Beada sysfs modes denote the same map with 5 and 7 exchanged |
| `Orientation.SysfsModesDiffer` | kernel/beadapanel/src/drm/beada-drm-plane.c:128-160 | so they agree on 0, 1, 2, 3, 4, 6 and differ by exactly a half turn on 5 and 7 |
| `Orientation.Ax206MatchesBeada` | kernel/ax206/src/drm/ax206-drm-rotation.c:50-124 | Pixel by pixel the AX206 map equals the Beada map in modes 0, 2, 4, 5, 6 always, in 1, 3, 7 exactly on square panels |
| `Orientation.Ax206VersusBeada` | kernel/ax206/src/drm/ax206-drm-rotation.c:50-124 | The two maps are equal exactly where the AX206 map is a bijection |
| `Orientation.ComposeMeaning` | kernel/mpro/src/drm/mpro_drm.h:146-181 | compose_rotation(b, e) denotes "b then e" if they commute, and is off by exactly the half turn otherwise |
| `Orientation.ComposeExact` | kernel/mpro/src/drm/mpro_drm.h:146-181 | On a whole screen it is right exactly if e reflects both axes or none, or b is 0 or 180 degrees (or the screen is one pixel) |
| `Orientation.TouchRotate` | kernel/mpro/src/touchscreen/mpro_touchscreen.c:55-87 | A touch maps back to the pixel shown under the finger when the angle is 0 or 180 or the reflections are equal, and to exactly the opposite pixel otherwise |
| `PixelBlits.RotateBuffer` | kernel/mpro/src/drm/mpro_drm_color.c:186-235 | Every cell of the target holds the source pixel that the display map sends there; cells outside the image stay |
| `PixelBlits.WrittenOnce` | kernel/mpro/src/drm/mpro_drm_color.c:198-234 | Each target cell is written by one source pixel and by no other |
| `PixelBlits.TurnedDetermined` | kernel/mpro/src/drm/mpro_drm_color.c:186-235 | so the turned image is determined |
| `PixelBlits.TurnedTwice` | kernel/mpro/src/drm/mpro_drm.h:146-181 | Turning twice gives the image of the composed rotation if the two commute |
| `PixelBlits.BlitRect` | kernel/beadapanel/src/drm/beada-drm-plane.c:185-245 | Never leaves the shadow, wherever the clip reaches in its framebuffer; with matching size and a clip on the logical screen exactly the cells whose source is in the clip are converted, the others stay |
| `PixelBlits.BlitPixel` | kernel/beadapanel/src/drm/beada-drm-plane.c:207-243 | One iteration advances the scan by one pixel |
| `PixelBlits.ConvertedNumber` | kernel/beadapanel/src/drm/beada-drm-plane.c:207-243 | A converted pixel is, as a number, its color after the tables, each channel through its own, in RGB565 or with red and blue exchanged in BGR565 |
| `PixelBlits.BlittedCell` | kernel/beadapanel/src/drm/beada-drm-plane.c:207-243 | and that is what the cell of a blitted pixel holds |
| `PixelBlits.SoleCell` | kernel/beadapanel/src/drm/beada-drm-plane.c:128-160 | A source pixel has exactly one cell |
| `PixelBlits.SamePicture` | kernel/beadapanel/src/drm/beada-drm-plane.c:185-245 | For one image without color correction, read as RGB565 or as XRGB8888 with the same widened channels, the Beada shadow equals the rotate_buffer image, with sysfs modes 5 and 7 exchanged |
| `PixelFormat.ChannelsOfXrgb8888` | kernel/beadapanel/src/drm/beada-drm-plane.c:213-218 | The channels of every XRGB8888 pixel n are n / 65536, n / 256 and n, each modulo 256 |
| `PixelFormat.ChannelsOfRgb565` | kernel/beadapanel/src/drm/beada-drm-plane.c:219-229 | The channels of every RGB565 pixel are its three fields with their top bits repeated below |
| `PixelFormat.PackedNumber` | kernel/beadapanel/src/drm/beada-drm-plane.c:87-92 | Packing gives 2048 * (r / 8) + 32 * (g / 4) + b / 8 |
| `PixelFormat.PackedBackwards` | kernel/beadapanel/src/drm/beada-drm-plane.c:98-103 | and for BGR565 the same with red and blue exchanged |
| `PixelFormat.SwappedNumber` | kernel/ax206/src/drm/ax206-drm-plane.c:185-193 | The stored pixel has its two bytes exchanged |
| `PixelFormat.Rgb565Unchanged` | kernel/beadapanel/src/drm/beada-drm-plane.c:216-236 | Without gamma an RGB565 framebuffer reaches an RGB16 panel bit for bit |
| `PixelFormat.Bgr565Exchanges` | kernel/beadapanel/src/drm/beada-drm-plane.c:98-103 | A BGR16 panel gets red and blue exchanged |
| `PixelFormat.PackingError` | kernel/beadapanel/src/drm/beada-drm-plane.c:87-92 | Packing keeps the top bits of every channel |
| `UpdateSlice.MproDrm.RequestUpdate` | kernel/mpro/src/drm/mpro_drm_pipe.c:55-106 | Which of ignore, full, partial or failure happens, exactly (a partial frame that touches the bottom row is refused, and with disable_partial only whole frames leave); the cells handed over are exactly the slice of the rectangle on both the contiguous and the bounce path |
| `UpdateSlice.Bounce` | kernel/mpro/src/drm/mpro_drm_pipe.c:90-102 | The row-by-row bounce buffer is the slice |
| `UpdateSlice.RowsAreSlice` | kernel/mpro/src/drm/mpro_drm_pipe.c:83-88 | A run of whole rows is the slice |
| `UpdateSlice.SliceDetermined` | kernel/mpro/src/drm/mpro_drm_pipe.c:83-102 | so both paths hand over the same cells |
| `FrameCopy.ConvertRows` | kernel/mpro/src/drm/mpro_drm_color.c:108-176 | Exactly the cells of the clip are converted, if and only if the clip lies in the framebuffer |
| `FrameCopy.MproNumberOfXrgb8888` | kernel/mpro/src/drm/mpro_drm_color.c:138-172 | The copied cell of an XRGB8888 pixel is, as a number, the RGB565 value of its channels, each through its own table |
| `FrameCopy.MproNumberOfRgb565` | kernel/mpro/src/drm/mpro_drm_color.c:108-132 | An RGB565 pixel is kept, or its bare fields index the tables |
| `FrameCopy.ConvertClip` | kernel/mpro/src/drm/mpro_drm_color.c:283-322 | The conversion into the temporary buffer stays inside both buffers exactly under that condition and TempFits, and then holds the clip |
| `FrameCopy.TempFitsExact` | kernel/mpro/src/drm/mpro_drm_color.c:248-287 | Every write at the pitch of the frame stays in the w*h buffer exactly if the clip is as wide as the frame or one row high |
| `PixelFormat.HoldsExact` | kernel/mpro/src/drm/mpro_drm_color.c:274-280 | The clip lies in the framebuffer exactly if its last pixel does |
| `FrameCopy.CopyTurned` | kernel/mpro/src/drm/mpro_drm_color.c:283-331 | The rotated copy shows the clip through the effective rotation from its corner on and touches nothing else |
| `UpdateSlice.StaleEnable` | kernel/mpro/src/drm/mpro_drm_pipe.c:410-419 | pipe_enable with the framebuffer from before a rotation that exchanged the dimensions clamps to a square, whose rotated copy leaves the buffer exactly on a frame wider than high and more than one row high (800x480 with a 480x800 framebuffer, for one) |
| `UpdateSlice.StaleUpdate` | kernel/mpro/src/drm/mpro_drm_pipe.c:487-500 | pipe_update with it reads outside the framebuffer exactly on a frame higher than wide and more than one row high |
| `UpdateSlice.MproDrm.CopyFrame` | kernel/mpro/src/drm/mpro_drm_color.c:241-332 | Each outcome has its exact condition, straying outside the buffers included; success changes only the clip, or turns it in place; errors leave the frame alone; the margin never changes |
| `UpdateSlice.MproDrm.MarkDirty` | kernel/mpro/src/drm/mpro_drm_pipe.c:108-148 | What is copied is exactly the part of the rectangle on the frame; the exact outcome, when something is transferred, and that it is the slice of that part |
| `UpdateSlice.ClampIsIntersection` | kernel/mpro/src/drm/mpro_drm_pipe.c:121-125 | The clamped rectangle holds exactly the pixels of the rectangle that are on the frame |
| `UpdateSlice.MproDrm.Bound` | kernel/mpro/src/drm/mpro_drm_pipe.c:468-483 | The loop over the damage gives the least rectangle that holds all of it |
| `UpdateSlice.MproDrm.PipeUpdate` | kernel/mpro/src/drm/mpro_drm_pipe.c:444-506 | Damage is handed on as its bounding box, or the whole frame when rotated; when the copy succeeds, and what it draws and transfers |
| `UpdateSlice.FrameFollows` | kernel/mpro/src/drm/mpro_drm_pipe.c:468-501 | If the new framebuffer differs from the one the frame shows only inside the damage, an upright update makes the frame show the new one |
| `UpdateSlice.MproDrm.constructor` | kernel/mpro/src/drm/mpro_drm_main.c:161-181 | A new frame is zero, margin included |
| `UpdateSlice.PanelFollowsFrame` | kernel/mpro/src/drm/mpro_drm_pipe.c:108-148 | If the panel showed the old frame and gets the slice of the changed rectangle, it shows the new frame; the margin is unchanged |
| `Checksum.Checksum16` | kernel/beadapanel/src/beada-protocol.c:33-47 | The loop and the folds on an unsigned long of either width |
| `Checksum.OnesSumIsCanon` | kernel/beadapanel/src/beada-protocol.c:33-47 | Deferring the carries gives the one's-complement sum of section 1 of RFC 1071 |
| `Checksum.SumCongruent` | kernel/beadapanel/src/beada-protocol.c:36-44 | The one's-complement sum is congruent to the word sum modulo 0xffff |
| `Checksum.TwoFoldsExact` | kernel/beadapanel/src/beada-protocol.c:42-44 | Up to 2^48 two folds are enough exactly if no carry is left after them |
| `Checksum.TwoFoldsEnough` | kernel/beadapanel/src/beada-protocol.c:42-44 | They are for every sum below 0x1_0000_ffff |
| `Checksum.Correct64` | kernel/beadapanel/src/beada-protocol.c:33-47 | With a 64-bit sum the result is the RFC 1071 sum for every buffer up to 65,538 words |
| `Checksum.Correct32` | kernel/beadapanel/src/beada-protocol.c:36-40 | With a 32-bit sum, for buffers of any length, exactly if the lost carries vanish modulo 0xffff |
| `Checksum.CorrectOnBoth` | kernel/beadapanel/src/beada-protocol.c:33-47 | On both for every buffer up to 65,537 words |
| `Checksum.LimitIsSharp32` | kernel/beadapanel/src/beada-protocol.c:36-40 | 65,538 words of 0xffff already come out wrong on 32 bits |
| `Checksum.LimitIsSharp64` | kernel/beadapanel/src/beada-protocol.c:42-44 | One more word comes out wrong on 64 bits |
| `Checksum.SingleWordError` | kernel/beadapanel/src/beada-protocol.c:18-32 | Corrupting one word of a tag goes unnoticed exactly if it exchanges 0 and 0xffff |
| `ProtocolTags.FillPanelTag` | kernel/beadapanel/src/beada-protocol.c:64-77 | Every byte of a Panel-Link tag; the whole tag sums to 0xffff exactly if the host is little-endian or the two checksum bytes are equal |
| `ProtocolTags.FillStatusTag` | kernel/beadapanel/src/beada-protocol.c:103-116 | The same for a Status-Link header |
| `ProtocolTags.PanelTagRoundTrip` | kernel/beadapanel/src/beada-priv.h:83-110 | A receiver reads back exactly the type and the format string, cut to 255 bytes |
| `ProtocolTags.StatusTagRoundTrip` | kernel/beadapanel/src/beada-priv.h:116-140 | A receiver reads back exactly the type and the length |
| `IdleAccounting.TimeAccounted` | kernel/mpro/src/mpro_pm.c:49-72 | The recorded totals telescope, and with the current state they are the nanoseconds the trace spent in each state since the last reset |
| `IdleAccounting.ChangesAlternate` | kernel/mpro/src/mpro_pm.c:60-71 | Recorded transitions strictly alternate |
| `IdleAccounting.TransitionsAccounted` | kernel/mpro/src/mpro_pm.c:60-71 | Sleeps less wakes is what the state bit gained since the reset, modulo 2^32 |
| `IdleAccounting.CountersExact` | kernel/mpro/src/mpro_pm.c:60-71 | Unwrapped, that holds exactly and touch wakes never exceed wakes |
| `IdleAccounting.WrapBreaksOrder` | kernel/mpro/src/mpro_pm.c:64-70 | The wake that wraps the counter puts it behind the touch wakes |
| `IdleAccounting.WrapHappens` | kernel/mpro/src/mpro_pm.c:64-70 | A trace since initialisation in which it does |
| `IdleAccounting.RunAccounted` | kernel/mpro/src/mpro_pm.c:49-279 | Totals and counters describe the trace after every run since initialisation |
| `IdleAccounting.CountsBalance` | kernel/mpro/src/mpro_pm.c:60-71 | The same balance on the true counts |
| `IdleAccounting.MproPm.constructor` | kernel/mpro/src/mpro_pm.c:124-133 | Initial statistics |
| `IdleAccounting.MproPm.RecordTransition` | kernel/mpro/src/mpro_pm.c:49-72 | Accounts the elapsed time to the state being left and counts real changes |
| `IdleAccounting.MproPm.IdleWork` | kernel/mpro/src/mpro_pm.c:79-95 | One sleep of the trace |
| `IdleAccounting.MproPm.ActiveGet` | kernel/mpro/src/mpro_pm.c:147-178 | One wake of the trace, or only a reference with an fbdev console |
| `IdleAccounting.MproPm.ActivePut` | kernel/mpro/src/mpro_pm.c:181-197 | Idle is scheduled exactly when the last reference goes and a delay is set |
| `IdleAccounting.MproPm.ForceIdle` | kernel/mpro/src/mpro_pm.c:204-220 | One sleep of the trace |
| `IdleAccounting.MproPm.ForceActive` | kernel/mpro/src/mpro_pm.c:223-239 | One wake of the trace |
| `IdleAccounting.MproPm.WakeWork` | kernel/mpro/src/mpro_pm.c:249-279 | One touch wake of the trace, and when idle is scheduled again |
| `IdleAccounting.MproPm.ResetStats` | kernel/mpro/src/mpro_sysfs.c:407-416 | One reset of the trace |
| `Ewma.RunBetween` | kernel/ax206/src/drm/ax206-drm-stats.c:68-75 | Over any run the average stays between the smallest and the largest sample |
| `Ewma.NextBetween` | kernel/mpro/src/mpro_pipeline.c:297-307 | One update cannot wrap |
| `Ewma.ZeroMeansNoSample` | kernel/ax206/src/drm/ax206-drm-stats.c:70-71 | The restart at zero happens only before the first positive sample |
| `Ewma.NextCloser` | kernel/ax206/src/drm/ax206-drm-stats.c:73-75 | The distance to a constant sample strictly shrinks until average and sample share a k-th part |
| `Ewma.Settles` | kernel/ax206/src/drm/ax206-drm-stats.c:73-75 | So it is below 8 or 16 after at most as many samples as it was away |
| `Ewma.Rests` | kernel/ax206/src/drm/ax206-drm-stats.c:73-75 | and does not move from then on |
| `Ewma.PartExact` | kernel/mpro/src/mpro_pipeline.c:301-306 | The k-th part is rounded down, with k 8 or 16 |
| `Ewma.FpsSampleExact` | kernel/ax206/src/drm/ax206-drm-stats.c:67-68 | A sample is the largest rate s with s * delta up to 10^12, unless it is cut to 32 bits |
| `Ewma.PeriodSampleExact` | kernel/mpro/src/mpro_pipeline.c:297-303 | The period, or the largest u32 if it does not fit |
| `Ewma.Ax206Stats.FrameReceived` | kernel/ax206/src/drm/ax206-drm-stats.c:78-86 | After every call the field is the average of the samples that the recorded frame times give |
| `Ewma.Ax206Stats.UpdateFps` | kernel/ax206/src/drm/ax206-drm-stats.c:49-76 | The same for the update itself, first frame and zero interval included |
| `Ewma.Ax206Stats.Reset` | kernel/ax206/src/drm/ax206-drm-stats.c:35-47 | Starts an empty history |
| `Ewma.MproStats.BulkComplete` | kernel/mpro/src/mpro_pipeline.c:286-309 | After every completion the field is the average of the clamped periods |
| `GammaText.ParseBeada` | kernel/beadapanel/src/bl/beada-backlight-sysfs.c:53-101 | The trimming loop and all branches compute BeadaGamma |
| `GammaText.ParseMpro` | kernel/mpro/src/mpro.h:248-275 | The scan and the digit loop compute MproGamma |
| `GammaText.BeadaRoundTrip` | kernel/beadapanel/src/bl/beada-backlight-sysfs.c:107-115 | Parsing the printed text gives the value back below 10^9 and is refused from there on |
| `GammaText.MproRoundTrip` | kernel/mpro/src/backlight/mpro_backlight.c:143-151 | Parsing the printed text gives every u32 back |
| `GammaText.ParsersAgree` | kernel/beadapanel/src/bl/beada-backlight-sysfs.c:53-101 | The two parsers agree on every "D+", "D+.D", "D+.DD" that the Beada one accepts |
| `GammaText.BeadaReads` | kernel/beadapanel/src/bl/beada-backlight-sysfs.c:62-101 | Which of those forms the Beada parser accepts, and their value |
| `GammaText.MproReads` | kernel/mpro/src/mpro.h:255-274 | The MPro parser accepts all of them |
| `GammaText.MproIgnoresRest` | kernel/mpro/src/mpro.h:255-274 | and whatever follows them that does not go on with the number |
| `GammaText.MproRefuses` | kernel/mpro/src/mpro.h:259-267 | In digits, dot, digits, exactly a third digit behind the dot is refused |
| `GammaText.BeadaRefuses` | kernel/beadapanel/src/bl/beada-backlight-sysfs.c:72-84 | The Beada parser refuses that, 8 digits in front, and texts of 16 characters, and nothing else |
| `GammaText.BeadaPadded` | kernel/beadapanel/src/bl/beada-backlight-sysfs.c:68-70 | It allows newlines and spaces behind the number |
| `GammaText.LeadingSpace` | kernel/beadapanel/src/bl/beada-backlight-sysfs.c:62-101 | Space in front is skipped by the MPro parser and refused by the Beada parser |
| `GammaText.SignAfterDot` | kernel/beadapanel/src/bl/beada-backlight-sysfs.c:72-92 | A sign after the dot is read differently by the two |
| `GammaText.WholeExact` | kernel/beadapanel/src/bl/beada-backlight-sysfs.c:94-100 | Without a dot the result is right exactly up to 42949672 and wraps beyond |

## Left out

- AX206: `dpf->blanked` (read only by the backlight child), backlight writes, timers, statistics and how USB commands are packed.
- AX206: the disconnect is one state in which arbitrary black or garbage frames may still arrive; when the idle and resume items start is left open, which allows more runs than the timers do.
- Ax206Picture.PanelShowsFramebuffer: rotation is constant over the sequence of updates, as the driver redraws nothing when it changes.
- MPro: LZ4 compression, the wrap of the atomic statistics, and an unplugged DRM device, for which mark_dirty returns at once. What the completion work and shutdown free after their lock sections may be freed at any later moment. Why an update is refused is left open.
- MproRuns.LatestWins: stated for runs in which no failed submit finds a pending frame; MproRuns.StrandedFrameOvertaken shows that it fails from every such state.
- MproRuns.ExactlyOnePlace: shutdown begins at a calm moment; MproRuns.ShutdownExact shows that this is needed.
- MproScreen: a frame counts as shown when its transfer arrives; the device's own drawing is not modelled.
- Jobserver: MAKEFLAGS parsing, signal handlers and load limits. The pipe is a multiset of characters, and the race between poll and read is one outcome: a character or none.
- JobserverPool.TokenPool.Clear: enough writes succeed; JobserverPool.ClearExact says that it does not end otherwise.
- Ax206Driver.Driver.PipeUpdate: after a read outside the framebuffer the model stops, and only says how far the run has come. The damage iterator of the DRM core keeps its rectangles inside the framebuffer.
- JobserverWin32: the parent and child threads are steps of a state machine rather than methods, because both block; the destructor is not modelled, nor what happens to a packet that is taken for a subprocess.
- JobserverWin32.SemaphoresInRange: runs in which DoWork leaves on an interrupt packet are excluded; JobserverWin32.InterruptedRoundBlocks says exactly when another DoWork would then hang.
- BeadaPanel: a transfer that is cut off in the middle, the clock, the backlight commands and the resume handlers.
- Orientation: rotation bits are a datatype, so a value with no angle bit or several of them is not modelled; touch positions lie on the panel.
- PixelBlits.BlitRect: for a clip beyond the logical screen only that writes stay inside the buffer; Orientation.BeadaFolds says which cells the pixels beyond it share. Framebuffer pitch is a whole number of pixels.
- UpdateSlice: cells are 16 bits wide (the margin is 0 or 320 bytes), and the device's own placement of a partial frame is taken to be the requested rectangle. The indexing of a 256-entry table with 5- and 6-bit values is kept as in the code.
- UpdateSlice.MproDrm.CopyFrame: after an access outside the buffers the model stops, and says nothing of the image.
- IdleAccounting: the clock does not run backwards and the 64-bit totals do not wrap; timers and screen notifications are only return values.
- Ewma: the clock has left zero when the first frame arrives.
- GammaText: the library functions kstrtou32 and sscanf are modelled for the one format each is used with.
- Gamma power curves, EDID and model tables, sysfs wrappers, probe error paths, package recipes: constants, one-branch facts or plumbing.

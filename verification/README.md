# CarPlay alternate-screen hook: a verified model

A Dafny model of the logic in the native hook (`altscreen/native/`) and in the renderer
(`altscreen/renderer/k2161/vc_render.c`), and proofs about it. `dafny verify dfyconfig.toml` checks everything.

The native code is C that updates global structs under locks. Each part is modelled twice: as functions on
values (one function per lock-held section), and as a class whose methods update the source's fields and arrays in
place, with the source's loops, and are proved to do exactly what those functions say. Interleavings are then
sequences of events, one per critical section, and the theorems are about all of them. In route guidance a handler or
tick also acts behind its critical section: `RgdRuns` and `RgdStore` take each as one step, and `RgdThreads` splits
them where the source gives the lock back, interleaves the two threads, shows that the state is the same, and says
exactly when what Java knows is not. Ledgers that only the proofs see record what a run did: what was sent, accepted,
stored, or told to Java. The `..History` modules say what the events of a run amount to and what was sent when, without
a look at the fields of the state, and prove that the state is just that.

| part | files | what is proved |
|---|---|---|
| CarPlay control protocol | `AltscreenSession`, `AltscreenController`, `AltscreenRuns`, `AltscreenHistory`, `AltscreenTimes`, `AltscreenLate`, `AltscreenExample` | the phone may acknowledge, fail, stay silent or answer late: the view asked for always matches what gauge and phone reported; exactly when a command is sent, given up and answered; each is resolved at most once, none out of order |
| 0x5200 retry protocol | `SendHook`, `SendHookState`, `SendHookRuns`, `SendHookHistory`, `SendHookTable`, `SendHookInert`, `SendHookStray` | every decision by what happened in the generation; one worker per generation, the back-off bound on the n-th attempt, when a send leaves outside its generation |
| video forwarding | `AnnexB`, `AnnexBTheorems`, `Av11`, `Forwarder`, `ForwarderState`, `ForwarderRuns`, `ForwarderHistory`, `ForwarderGate`, `ForwarderExamples`, `VcRender` | the renderer recovers exactly the frames written whole; no predictive frame before an IDR picture; what the scanner's flags and its cache mean |
| route guidance | `RgdSlots`, `RgdSlotMap`, `RgdStore`, `RgdVersions`, `RgdLanes`, `RgdSentinel`, `Rgd`, `RgdState`, `RgdRuns`, `RgdHistory`, `RgdThreads`, `RgdExamples`, `RgdOvertaken` | the slot store refines a map and never gives up what is on display; exactly when a route end is decided, and when Java's view of it is wrong |
| TLVs | `Tlv`, `RouteUpdate`, `RouteUpdateTheorems`, `Newlines`, `RouteMessage`, `ManeuverParse`, `ManeuverMessage`, `LaneParse`, `LaneMessage`, `Identify`, `IdentifyPatcher`, `IdentifyTheorems` | round trips from typed messages; merging parsed updates is parsing the concatenation; lanes are the groups between index TLVs; the Identify patch is local and, on exactly described frames, idempotent |
| bus | `Bus`, `BusState`, `BusRuns` | FIFO delivery, gapless distinct numbers, snapshots with the latest sticky frames |

`Wrappers`, `Bytes` and `Sequences` hold shared types, the byte-order codecs and operations on sequences.
`RgdExamples` holds two short runs: a reset frame whose route ends after exactly 800 ms (`GraceIsExact`), and one while
rerouting, which no tick ends (`RerouteIsHeld`).

## What the proofs brought to light

- `IdentifyTheorems.PatchTwice`: on a frame whose TLVs do not run to its end and that has no component, a second
  patch does not see the component of the first one and changes the frame again (`PatchTwiceFails`).
- `AnnexBTheorems.UncleanCacheWitness`, `MissedIdrWitness`: a unit with more than 64 NALs can leave slices of pictures
  in the parameter-set cache, and its IDR picture can go unreported. `CachedSliceIsClean` and `FlagsAgree` give the
  exact conditions.
- `ForwarderExamples.PredictiveFirst`: an IDR picture larger than the forward buffer ends the wait although it was
  dropped; `ForwarderGate.SendKeepsGate` shows that this is the only way. `UnprimedFirst` and `SendKeepsPrimed` are the
  same for the first frame.
- `RgdSentinel.SentinelIsLost`, `SentinelEvicts`: maneuver index 0xFFFF is the marker of an empty slot, so what is
  stored under it does not last, and storing it can push out a live maneuver. For every other index the store is exact.
- `SendHookRuns.StraySendWitness`: a send promised before a reset can go out in the next generation on the same
  context, because sends are authorised by context alone; `SendHookStray` says exactly when.
- `RgdOvertaken.EndOvertakesRoute`: the tick sends its frame after giving the lock back, so a route that begins in
  between is told first and then taken for ended; `RgdThreads.JavaAgreesUnlessOvertaken` says that nothing else makes
  Java disagree.
- The comments in `rgd_hook.c` (lines 24, 1396-1397) let `source_supports_rg=0` bypass the debouncing; the code does
  so only if the same update carries a route state of 0. The model follows the code (`RgdThreads.EndIsDecidedOnlyFor`).
- `bus.h` documents policies for a full queue; `bus.c` stores them and never looks at them. The model follows the code.

## Model

| member | source | states |
|---|---|---|
| AltscreenController.Controller.FindReceiver | altscreen/native/altscreen_session.c:977-986 | finds the live session of a receiver, or none |
| AltscreenController.Controller.AllocState | altscreen/native/altscreen_session.c:1000-1022 | takes the first free entry under a new generation; refuses a registered receiver and a full table |
| AltscreenController.Controller.NoteRouteState | altscreen/native/altscreen_session.c:1041-1058 | records a route change of the receiver's session and says whether it was one |
| AltscreenController.Controller.QueueRouteView | altscreen/native/altscreen_session.c:1069-1081 | the pending view becomes that of layout and route, due after the delay |
| AltscreenController.Controller.RequestCluster | altscreen/native/altscreen_session.c:1228-1244 | the start-up view request of a session |
| AltscreenController.Controller.ChangeLayout | altscreen/native/altscreen_session.c:1325-1338 | a changed layout queues the new view for every streaming session, with the loop of the source |
| AltscreenController.Controller.ObserveGauge | altscreen/native/altscreen_session.c:1316-1338 | a confirmed gauge layout re-requests the view of every streaming session |
| AltscreenController.Controller.ObserveZoomArea | altscreen/native/altscreen_session.c:1345-1395 | the size heuristic changes the layout only while no gauge layout is confirmed |
| AltscreenController.Controller.ControlCompletion | altscreen/native/altscreen_session.c:1503-1551 | an acknowledgement counts only for the awaited token of the current generation |
| AltscreenController.Controller.ControlDispatchFailed | altscreen/native/altscreen_session.c:1553-1575 | a synchronous refusal resolves the command it belongs to, and only that |
| AltscreenController.Controller.ControlTick | altscreen/native/altscreen_session.c:1621-1711 | the tick visits the entries in order up to the first that sends, and returns its command |
| AltscreenController.Controller.VisitEntry | altscreen/native/altscreen_session.c:1630-1690 | one visit: time-out, adoption of a due request, dispatch |
| AltscreenController.Controller.AdvanceControl | altscreen/native/altscreen_session.c:1653-1686 | the part of a visit behind the time-out |
| AltscreenController.Controller.GiveUpEntry | altscreen/native/altscreen_session.c:1559-1569 | a failure makes the session idle |
| AltscreenController.Controller.AdvanceEntry | altscreen/native/altscreen_session.c:1520-1542 | a success moves on to the next stage; the last one makes the view current |
| AltscreenController.Controller.SetScreenStarted | altscreen/native/altscreen_session.c:1922-1955 | the worker announces that its screen runs or has ended |
| AltscreenController.Controller.FirstRealFrame | altscreen/native/altscreen_session.c:2340-2356 | the first frame of a session is claimed once |
| AltscreenController.Controller.BeginCleanup | altscreen/native/altscreen_session.c:2069-2100 | teardown marks the session of the receiver as stopping |
| AltscreenController.Controller.WipeEntry | altscreen/native/altscreen_session.c:2144-2158 | teardown frees the entry |
| AltscreenRuns.StepInv | altscreen/native/altscreen_session.c:1000-1711 | every event of every thread keeps the invariant of sessions, ledgers and tokens |
| AltscreenRuns.ReachableInv | altscreen/native/altscreen_session.c:1000-1711 | so it holds after every run |
| AltscreenRuns.RouteAgreement | altscreen/native/altscreen_session.c:1041-1081 | in every reachable state the view last requested from a settled session is twice the gauge slot plus the route bit |
| AltscreenHistory.HistoryHolds | altscreen/native/altscreen_session.c:977-1711 | in every reachable state the session table holds exactly what the events say: registrations, screens, teardowns, the route and the layout reported last, the request not taken up and from when on it may be, and the command not answered and when it was sent |
| AltscreenTimes.RequestFollowsReports | altscreen/native/altscreen_session.c:1041-1081 | past its first frame the view last asked for is twice the slot of the last gauge indication (or zoom area), plus 1 if the phone last reported a route |
| AltscreenTimes.RouteNewsIsExact | altscreen/native/altscreen_session.c:1041-1058 | a route report counts as a change if and only if the last one said otherwise or there was none |
| AltscreenTimes.FirstFrameOnce | altscreen/native/altscreen_session.c:2340-2356 | the first frame is claimed if and only if the screen runs, no teardown has begun and none was claimed before |
| AltscreenTimes.TimeOutIsExact | altscreen/native/altscreen_session.c:1634-1648 | a tick gives a command up if and only if it reaches the session 2500 ms or more after the command was sent; before that it leaves the session alone |
| AltscreenTimes.RequestIsTakenUp | altscreen/native/altscreen_session.c:1649-1673 | a tick takes a request up if and only if it reaches the session when the request is due (150 ms after a route or gauge change, at once for the first frame) and no command is on its way |
| AltscreenTimes.SendsExactly | altscreen/native/altscreen_session.c:1631-1690 | which session sends in a tick, and which command: showUI first if and only if the last showUI resolved did not put up the gauge slot of the view, else the next of the sequence; without the marker only while starting up |
| AltscreenTimes.AnswerCounts | altscreen/native/altscreen_session.c:1503-1575 | a completion counts if and only if its command is the one on its way of a session that is not stopping; a refusal for any session |
| AltscreenRuns.UiBeforeView | altscreen/native/altscreen_session.c:1510-1542 | in the stages behind showUI the last resolved showUI was acknowledged for the target's gauge slot |
| AltscreenRuns.DispatchIsCurrent | altscreen/native/altscreen_session.c:1636-1686 | a dispatched command is new, carries the view requested last, and needs no UI other than the one acknowledged |
| AltscreenRuns.Conservation | altscreen/native/altscreen_session.c:1510-1569 | dispatches equal acknowledgements, time-outs, refusals and the one awaited, and are at most three per adopted request |
| AltscreenLate.IdleStaysQuiet | altscreen/native/altscreen_session.c:1636-1686 | over every run in which nobody asks for its view and no layout changes while it streams, an idle session stays idle and dispatches nothing |
| AltscreenRuns.WordDiscipline | altscreen/native/altscreen_session.c:1520-1686 | since the last adoption a session sent a prefix of showUI, updateViewArea, forceKeyFrame (the first may be skipped) for one view, all but the last acknowledged |
| AltscreenRuns.CurrentViewOnlyByCompleteWord | altscreen/native/altscreen_session.c:1520-1542 | the current view changes only when a whole word for it was acknowledged |
| AltscreenRuns.OneSessionPerReceiver | altscreen/native/altscreen_session.c:977-1022 | a live session is the one its receiver is looked up as |
| AltscreenRuns.UnawaitedIgnored | altscreen/native/altscreen_session.c:1503-1575 | a duplicate, late or unknown completion or refusal changes nothing |
| AltscreenLate.RegisteredIsNew | altscreen/native/altscreen_session.c:1000-1022 | a receiver that is registered, again or not, gets a generation later than that of every command issued |
| AltscreenLate.TornDownStaysDead | altscreen/native/altscreen_session.c:1510-1569 | a command of a session that is torn down counts in no later state of any run, whoever is registered then |
| AltscreenRuns.AcceptedOnce | altscreen/native/altscreen_session.c:1510-1569 | once accepted, a command is awaited by nobody |
| AltscreenRuns.ResolvedForever | altscreen/native/altscreen_session.c:1503-1711 | nor in any later state of any run |
| AltscreenExample.FirstViewIsShown | altscreen/native/altscreen_session.c:1503-1711 | a reachable state in which a settled session put its first view up with three acknowledged commands |
| SendHookState.RetryState.RetryWorkerPass | altscreen/native/send_hook.c:96-140 | one pass of the worker: leave, wait or mark an attempt |
| SendHookStray.TriggerMeans | altscreen/native/send_hook.c:143-151 | in reachable states a reply may start a cycle if and only if none has begun in this generation and no message has arrived |
| SendHookState.RetryState.RetrySoftRearmIfStale | altscreen/native/send_hook.c:153-183 | a long silence starts a new generation |
| SendHookState.RetryState.RetryBegin | altscreen/native/send_hook.c:195-240 | a cycle begins once per generation, with its first attempt |
| SendHookState.RetryState.RetryClaimPending | altscreen/native/send_hook.c:243-266 | an attempt that is due is claimed by one caller |
| SendHookState.RetryState.NoteRgiRx | altscreen/native/send_hook.c:268-290 | the first route-guidance message stops the retries |
| SendHookState.RetryState.RetryReset | altscreen/native/send_hook.c:301-317 | a reset starts a new generation with nothing pending |
| SendHookStray.AuthorisedSend | altscreen/native/send_hook.c:353-380 | in reachable states a promised send leaves if and only if the current cycle retries on its context, and is booked by its generation |
| SendHookState.RetryState.TrackReply | altscreen/native/send_hook.c:475-488 | a reply is tracked in the first usable entry |
| SendHookState.RetryState.TakeReply | altscreen/native/send_hook.c:418-450 | answering a message takes its tracked reply, once |
| SendHookState.RetryState.DropReplies | altscreen/native/send_hook.c:503-510 | once the stock handler of a message has returned, no reply to it is tracked |
| SendHookState.RetryState.ResetReplies | altscreen/native/send_hook.c:324-345 | an Identification start forgets all tracked replies |
| SendHookTable.TrackPushes | altscreen/native/send_hook.c:475-488 | the table is a stack for each receive id: tracking puts a reply on top if there is room, and touches no other id |
| SendHookTable.TakePops | altscreen/native/send_hook.c:418-450 | an answer takes the reply tracked last |
| SendHookTable.DropEmpties | altscreen/native/send_hook.c:503-510 | dropping leaves none of the id and all others |
| SendHookTable.StaysBlank | altscreen/native/send_hook.c:418-510 | an entry that is not in use holds no generation |
| SendHookState.RetryState.RetrySpawnFailed | altscreen/native/send_hook.c:228-237 | a worker that could not be started counts as not running, in its own generation |
| SendHookRuns.RetryStateIsSound | altscreen/native/send_hook.c:96-317 | retrying implies no answer yet, a context and an attempt; a needed send implies retrying; one cycle and one worker start per generation |
| SendHookHistory.HistoryHolds | altscreen/native/send_hook.c:66-330 | in every reachable state the retry state is what happened in the current generation: its cycle, its attempts, whether one is due, whether and when the phone answered |
| SendHookHistory.WorkerDecidesExactly | altscreen/native/send_hook.c:96-140 | a worker finds the next attempt due if and only if its generation still retries, none is due, and 2 s (30 s from the fifth attempt on) have passed since the last one; it leaves if and only if there is nothing to retry |
| SendHookHistory.BeginsExactly | altscreen/native/send_hook.c:195-240 | a cycle begins, with a worker, if and only if a reply of this generation arrives on a real context while none has begun and the phone has not answered |
| SendHookHistory.ClaimsExactly | altscreen/native/send_hook.c:243-266 | an attempt is claimed if and only if it is due, on the context of the cycle, and is the next one |
| SendHookHistory.StaleExactly | altscreen/native/send_hook.c:153-183 | a new generation is opened if and only if the phone answered and its last route-guidance message is 10 s old |
| SendHookRuns.OneWorker | altscreen/native/send_hook.c:96-240 | at most one worker of the current generation exists |
| SendHookRuns.AttemptsKeepBackoff | altscreen/native/send_hook.c:123-133 | the n-th attempt of a generation, and its n-th send, come no earlier than 2000(min(n,5)-1)+30000 max(0,n-5) ms after the first attempt |
| SendHookInert.OlderGenerationsDoNotMatter | altscreen/native/send_hook.c:96-240 | every run without the steps that workers, worker starts and replies of other generations take in it is a run too, and ends in the same retry state, attempts and sends |
| SendHookRuns.StraySendWitness | altscreen/native/send_hook.c:353-415 | a run in which a send of an earlier generation goes out beside the one of the current generation |
| SendHookStray.StraySend | altscreen/native/send_hook.c:353-415 | a send leaves outside its own generation if and only if a later cycle retries on its context |
| SendHookStray.NoStrayWithoutReuse | altscreen/native/send_hook.c:195-415 | a run has no such send if no cycle begins on a context on which an earlier send is on its way |
| SendHookStray.ReuseEnablesStray | altscreen/native/send_hook.c:195-415 | and whenever one does, that send can leave at once |
| AnnexB.ScanParameterSets | altscreen/native/altscreen_output.c:722-786 | the flags and the cached slice, in terms of the declarative list of NALs |
| AnnexB.FindNals | altscreen/native/altscreen_output.c:728-753 | the tables hold start and type of the first 64 NALs of Annex B |
| AnnexB.StartCodeAt | altscreen/native/altscreen_output.c:737-745 | a start code of three or four bytes is found exactly where a NAL starts |
| AnnexB.RunOfParameterSets | altscreen/native/altscreen_output.c:765-774 | the run of parameter sets from the first sequence parameter set on |
| AnnexB.NalsComplete | altscreen/native/altscreen_output.c:737-753 | the list of NALs misses none |
| AnnexBTheorems.FlagsAreExact | altscreen/native/altscreen_output.c:728-760 | a type is reported if and only if it is that of one of the first 64 NALs |
| AnnexBTheorems.FlagsAgree | altscreen/native/altscreen_output.c:728-760 | so the report agrees with the unit if and only if the type is not only behind those; always with at most 64 NALs |
| AnnexBTheorems.CachedSliceHasBoth | altscreen/native/altscreen_output.c:762-785 | a cached slice fits the cache and holds a sequence and a picture parameter set |
| AnnexBTheorems.RunIsCached | altscreen/native/altscreen_output.c:765-783 | of a unit whose first sequence parameter set begins a run of parameter sets with a picture one, the run is cached up to the NAL behind it if it takes at most 512 bytes, whatever else the unit has |
| AnnexBTheorems.NothingElseIsCached | altscreen/native/altscreen_output.c:765-783 | of every other unit nothing is cached |
| AnnexBTheorems.CachedSliceIsClean | altscreen/native/altscreen_output.c:762-785 | it holds nothing else if and only if the scanner saw the run end or only parameter sets follow its tables |
| AnnexBTheorems.SmallUnitsCacheCleanly | altscreen/native/altscreen_output.c:762-785 | so it holds nothing else for units with at most 64 NALs |
| AnnexBTheorems.UncleanCacheWitness | altscreen/native/altscreen_output.c:728-785 | a unit of 65 NALs that leaves part of a picture in the cache |
| AnnexBTheorems.MissedIdrWitness | altscreen/native/altscreen_output.c:728-760 | a unit of 65 NALs whose IDR slice is not reported |
| Av11.ReceiveRecovers | altscreen/renderer/k2161/vc_render.c:161-189 | of whole frames and a truncated tail exactly the whole frames are read, in order, and no bad header |
| VcRender.Connection.ReadFull | altscreen/renderer/k2161/vc_render.c:148-159 | all bytes asked for, whatever the chunks, or a failure |
| VcRender.ReadFrame | altscreen/renderer/k2161/vc_render.c:170-175 | one turn of the loop reads one frame, rejects a bad header, or ends |
| VcRender.ServeClient | altscreen/renderer/k2161/vc_render.c:161-220 | the frames received are those of the stream for every chunking, up to a request to quit; they reach the decoder if it started |
| VcRender.Render | altscreen/renderer/k2161/vc_render.c:161-189 | end to end: every connection of every sender run is decoded into exactly its whole frames |
| ForwarderState.Globals.CacheParameterSets | altscreen/native/altscreen_output.c:776-783 | the slice replaces the cached one |
| ForwarderState.Globals.Scan | altscreen/native/altscreen_output.c:722-786 | flags and cache after a unit was scanned |
| ForwarderState.Globals.ConnectLocked | altscreen/native/altscreen_output.c:607-658 | connects at most every 250 ms; a new connection waits for an IDR picture |
| ForwarderState.Globals.FillBuffer | altscreen/native/altscreen_output.c:683-690 | header and payload are laid out as one encoded frame |
| ForwarderState.Globals.SendBuffer | altscreen/native/altscreen_output.c:692-716 | the line grows by exactly the prefix of the buffer that the socket accepted |
| ForwarderState.Globals.WriteLocked | altscreen/native/altscreen_output.c:661-720 | a frame goes out whole, or the connection is closed, or it is dropped for its size |
| ForwarderState.Globals.SendAccessUnit | altscreen/native/altscreen_output.c:788-861 | the whole path of an access unit, and when a keyframe is requested |
| ForwarderState.Globals.GateAndWrite | altscreen/native/altscreen_output.c:830-856 | the wait for an IDR picture ends, asks for a keyframe now and then, and holds predictive units back |
| ForwarderState.Globals.VideoClose | altscreen/native/altscreen_output.c:1110-1115 | the state after the stub is closed |
| ForwarderState.Globals.ResetLocked | altscreen/native/altscreen_output.c:593-605 | the state after it is opened |
| ForwarderRuns.SendSurvives | altscreen/native/altscreen_output.c:692-716 | up to 20 stalls and any number of interrupts cost nothing |
| ForwarderRuns.SendGivesUp | altscreen/native/altscreen_output.c:692-716 | the 21st stall of a frame gives the connection up, whatever the socket would accept after it |
| ForwarderHistory.SendCompletes | altscreen/native/altscreen_output.c:693-716 | a frame goes out whole if and only if the socket takes all its bytes before it fails or stalls for the 21st time |
| ForwarderRuns.ExecKeepsFramed | altscreen/native/altscreen_output.c:661-720 | every connection is whole frames and, only once closed, a truncated tail |
| ForwarderRuns.RendererRecovers | altscreen/native/altscreen_output.c:661-720 | so the receiver recovers exactly those frames and never sees a bad header |
| ForwarderRuns.WrittenOrDropped | altscreen/native/altscreen_output.c:788-861 | each unit goes out whole once, behind all before it, or is counted as dropped once; only cached parameter sets may precede it |
| ForwarderHistory.UnitIsExact | altscreen/native/altscreen_output.c:788-860 | exactly when a unit makes a new connection, is preceded by the cached parameter sets, goes out whole, counts as dropped, and has a keyframe asked for (the first time in a wait, then 750 ms after the last time) |
| ForwarderHistory.HistoryHolds | altscreen/native/altscreen_output.c:593-860 | in every run the globals are what the units, closings and openings made them: the connection, the last attempt to make one, the wait, the last keyframe request, and the cache |
| ForwarderGate.SendKeepsGate | altscreen/native/altscreen_output.c:830-856 | a unit keeps the wait for an IDR picture sound if and only if it does not lose one for its size |
| ForwarderGate.NothingPredictiveBeforeIdr | altscreen/native/altscreen_output.c:830-856 | in runs whose IDR pictures fit, every frame before the first of them brings a parameter set |
| ForwarderExamples.PredictiveFirst | altscreen/native/altscreen_output.c:661-856 | a run of two units from the start in which an IDR picture is lost and a predictive frame is the first to reach the renderer |
| ForwarderGate.SendKeepsPrimed | altscreen/native/altscreen_output.c:808-828 | a unit leaves primed connections starting with a parameter set if and only if it does not skip the replay for its size |
| ForwarderGate.FirstFrameHasParameterSet | altscreen/native/altscreen_output.c:808-828 | in runs whose units with parameter sets fit, a connection made with a filled cache starts with one |
| ForwarderExamples.UnprimedFirst | altscreen/native/altscreen_output.c:661-856 | a run of two units from the start in which the priming is skipped and a frame without parameter sets comes first |
| RgdSlotMap.SlotMap.MapReset | altscreen/native/routeguidance/rgd_hook.c:223-241 | the store and the list are empty |
| RgdSlotMap.SlotMap.FindSlot | altscreen/native/routeguidance/rgd_hook.c:305-310 | the first slot of an index, untouched |
| RgdSlotMap.SlotMap.IsActiveIndex | altscreen/native/routeguidance/rgd_hook.c:297-303 | whether an index is on display |
| RgdSlotMap.SlotMap.SlotForIndex | altscreen/native/routeguidance/rgd_hook.c:332-382 | the slot of an index: its own, a free one, or the victim's |
| RgdSlotMap.SlotMap.ScanVictim | altscreen/native/routeguidance/rgd_hook.c:356-376 | the slot to give up |
| RgdSlotMap.SlotMap.RefreshIndex | altscreen/native/routeguidance/rgd_hook.c:332-341 | a look-up that touches the slot it finds |
| RgdSlotMap.SlotMap.ResolveLinkedLanes | altscreen/native/routeguidance/rgd_hook.c:785-810 | copies the lanes of the linked maneuver, if it has any |
| RgdSlotMap.SlotMap.BackpropagateLanes | altscreen/native/routeguidance/rgd_hook.c:817-838 | copies lanes to the maneuvers that link here |
| RgdSlotMap.SlotMap.KeepManeuver | altscreen/native/routeguidance/rgd_hook.c:863-882 | stores an accepted maneuver |
| RgdSlotMap.SlotMap.SetList | altscreen/native/routeguidance/rgd_hook.c:1074-1079 | a list in an update replaces the one on display |
| RgdSlotMap.SlotMap.PublishList | altscreen/native/routeguidance/rgd_hook.c:1114-1146 | the published slots; the text is never cut off |
| RgdSlots.VictimIsLeast | altscreen/native/routeguidance/rgd_hook.c:356-376 | the scan ends with the least recently used slot that is not on display |
| RgdStore.LinkedLanesAreNeverCopied | altscreen/native/routeguidance/rgd_hook.c:785-838 | since the parser never provides lanes, resolving and propagating links copies nothing |
| RgdLanes.LinkedShareLanes | altscreen/native/routeguidance/rgd_hook.c:785-885 | on any store: behind storing a maneuver with lanes every maneuver that links to it has lanes; it takes the lanes of the one it links to; own lanes are kept and nothing else changes |
| RgdStore.VictimIsInactive | altscreen/native/routeguidance/rgd_hook.c:352-376 | a full store always has a slot not on display, so the fallback scan is never needed |
| RgdStore.VictimIsForgotten | altscreen/native/routeguidance/rgd_hook.c:378-381 | a slot taken from another index holds nothing of it |
| RgdStore.VictimIsLeastRecentlyTouched | altscreen/native/routeguidance/rgd_hook.c:332-382 | of the indices not on display the one touched the longest time ago is given up |
| RgdStore.StoreHoldsLatest | altscreen/native/routeguidance/rgd_hook.c:332-885 | in every run occupied slots have distinct indices and hold what was accepted last under them |
| RgdHistory.StoresExactly | altscreen/native/routeguidance/rgd_hook.c:273-291 | a 0x5202 message stores a maneuver under the index it names last if and only if an update has come in and the list on display is absent, empty or has an index not above it, or the last route state is rerouting |
| RgdHistory.EmptiesExactly | altscreen/native/routeguidance/rgd_hook.c:1398-1462 | an event empties the store if and only if it clears the state, or reports route state 0 with no support for route guidance or while a route counts and the last state was not 0 |
| RgdHistory.KeptIsStored | altscreen/native/routeguidance/rgd_hook.c:840-885 | the map that the theorems about the store speak of is that of the maneuvers accepted by these rules since the store was emptied |
| RgdStore.LookupFindsLatest | altscreen/native/routeguidance/rgd_hook.c:305-382 | a look-up finds the last maneuver accepted, and always finds it while at most 32 indices were stored |
| RgdStore.ActiveIsKept | altscreen/native/routeguidance/rgd_hook.c:332-382 | over every run a cached index keeps its slot and version for as long as it is on display and nothing resets, and its data unless a maneuver is stored under that very index |
| RgdStore.PublishedIsTypedList | altscreen/native/routeguidance/rgd_hook.c:1114-1146 | the published list read back is the list on display filtered to indices with a stored type, in order; if the list names 0xFFFF, this holds of all other indices |
| RgdHistory.PublishedIsReported | altscreen/native/routeguidance/rgd_hook.c:1074-1146 | the published list read back is the list in the last published update that had one, filtered to indices accepted with a type |
| RgdVersions.VersionTells | altscreen/native/routeguidance/rgd_hook.c:332-382 | over every run without a reset versions only grow, and a slot that has kept its version was given to no other index in between |
| RgdSentinel.SentinelIsLost | altscreen/native/routeguidance/rgd_hook.c:332-382 | in any store, what is stored under 0xFFFF stays if and only if the next maneuver is under an index that is cached |
| RgdSentinel.SentinelEvicts | altscreen/native/routeguidance/rgd_hook.c:332-382 | a message with index 0xFFFF is accepted, and in a full store makes it give up a live maneuver |
| RgdState.Globals.CancelPendingZero | altscreen/native/routeguidance/rgd_hook.c:157-171 | the pending zero is forgotten |
| RgdState.Globals.WriteUpdate | altscreen/native/routeguidance/rgd_hook.c:458-470 | merges and publishes an update that says anything |
| RgdHistory.UpdateSays | altscreen/native/routeguidance/rgd_hook.c:1374-1462 | what the handler reads off an update (state, list, signs of a route, support) is what its last TLVs that are long enough say |
| RgdHistory.HistoryHolds | altscreen/native/routeguidance/rgd_hook.c:1353-1510 | in every run the route state, the pending reset, the list on display and the cache are what the messages and ticks made them |
| RgdState.Globals.ApplyState | altscreen/native/routeguidance/rgd_hook.c:1404-1450 | the handling of a received route state |
| RgdState.Globals.DecideUpdate | altscreen/native/routeguidance/rgd_hook.c:1398-1460 | the 0x5201 handler up to where it gives the lock back |
| RgdState.Globals.CanProcess | altscreen/native/routeguidance/rgd_hook.c:273-291 | which maneuver indices are accepted |
| RgdState.Globals.WriteManeuver | altscreen/native/routeguidance/rgd_hook.c:840-885 | stores and publishes a maneuver that is accepted |
| RgdState.Globals.OnManeuver | altscreen/native/routeguidance/rgd_hook.c:1465-1483 | the handling of a 0x5202 message |
| RgdState.Globals.WriteLane | altscreen/native/routeguidance/rgd_hook.c:887-969 | a snapshot follows if the message has lanes of a lane event, named by it or first on display, or is about the current one |
| RgdHistory.LanesPublishExactly | altscreen/native/routeguidance/rgd_hook.c:887-969 | by messages: a snapshot follows if and only if the event named last, or else the first one on display, is described or is the one named last by an update |
| RgdState.Globals.OnLane | altscreen/native/routeguidance/rgd_hook.c:1484-1509 | a 0x5204 message cancels the pending zero and may lead to a snapshot |
| RgdState.Globals.ClaimEnd | altscreen/native/routeguidance/rgd_hook.c:1694-1717 | the tick under the lock claims a route end whose deadline has passed |
| RgdState.Globals.SendEnd | altscreen/native/routeguidance/rgd_hook.c:1722-1729 | its frame, sent without the lock |
| RgdState.Globals.BeginClear | altscreen/native/routeguidance/rgd_hook.c:1185-1206 | the clearing of the state under the lock |
| RgdState.Globals.FinishClear | altscreen/native/routeguidance/rgd_hook.c:1207-1219 | and behind it: store and cache are emptied and Java is told |
| RgdThreads.HandlersAreAtomic | altscreen/native/routeguidance/rgd_hook.c:1353-1729 | however message and timer thread interleave, all state but what Java knows is that of whole handlers and ticks in the order of their decisions |
| RgdThreads.JavaAgreesUnlessOvertaken | altscreen/native/routeguidance/rgd_hook.c:1353-1729 | with neither thread at work, Java's last route state is the emitted one if and only if no claimed end was overtaken by the news of a route; otherwise Java takes a route for ended that goes on |
| RgdThreads.EndIsDecidedOnlyFor | altscreen/native/routeguidance/rgd_hook.c:1404-1717 | with the threads interleaved, the emitted state turns to 0 if and only if by a hard clear, a clearing of the state, or a claim 800 ms after a reset frame neither from rerouting nor cancelled |
| RgdOvertaken.EndOvertakesRoute | altscreen/native/routeguidance/rgd_hook.c:1710-1729 | a run in which a claimed end is overtaken |
| RgdRuns.PendingSince | altscreen/native/routeguidance/rgd_hook.c:1424-1444 | a pending zero dates from the first reset frame since the last event that cancels, and knows whether it came while rerouting |
| RgdRuns.RerouteNeverTimesOut | altscreen/native/routeguidance/rgd_hook.c:1699-1702 | no tick ends a route whose reset came while rerouting |
| Tlv.RoundTrip | altscreen/native/framework/iap2_protocol.c:74-85 | the TLVs that were written are read, up to the end |
| Tlv.EncodeTlvs | altscreen/native/framework/iap2_protocol.c:48-85 | writing out what was read gives the bytes back |
| Tlv.Iterator.Next | altscreen/native/framework/iap2_protocol.c:74-85 | yields the readable TLVs one by one |
| Tlv.FindTlvOffset | altscreen/native/framework/iap2_protocol.c:109-126 | offset and length of the first readable TLV with an id |
| RouteUpdate.ReplaceNewlines | altscreen/native/routeguidance/rgd_tlv.c:31-50 | the text with its line breaks replaced, in place, cut to its buffer |
| Newlines.JoinedIsSlashed | altscreen/native/routeguidance/rgd_tlv.c:31-50 | the treated text is its lines with " / " in between, or a start of that of at least 252 characters |
| RouteUpdate.StoreText | altscreen/native/routeguidance/rgd_tlv.c:269-286 | a value as a terminated string in a fixed buffer |
| RouteUpdate.StoreWords | altscreen/native/routeguidance/rgd_tlv.c:246-252 | a value as a list of at most so many words |
| RouteUpdate.StoreField | altscreen/native/routeguidance/rgd_tlv.c:244-412 | one case of the switch |
| RouteUpdate.ParseUpdate | altscreen/native/routeguidance/rgd_tlv.c:230-433 | the fields of a 0x5201 message, TLV by TLV |
| RouteMessage.UpdateRoundTrip | altscreen/native/routeguidance/rgd_tlv.c:230-433 | of every update written with the types and numbers of its 21 fields exactly the fields it has are read, with what they say |
| RouteUpdate.UpdateCache.MergeUpdate | altscreen/native/routeguidance/rgd_hook.c:185-221 | the fields present replace those in the cache |
| RouteUpdateTheorems.TextHasNoNewline | altscreen/native/routeguidance/rgd_tlv.c:28-50 | texts treated that way contain no line break |
| RouteUpdateTheorems.StoreMeans | altscreen/native/routeguidance/rgd_tlv.c:230-433 | a stored field says what its value means, whatever its buffer held |
| RouteUpdateTheorems.FoldMeans | altscreen/native/routeguidance/rgd_tlv.c:230-433 | in a message the last TLV that is long enough decides a field |
| RouteUpdateTheorems.CacheIsLatest | altscreen/native/routeguidance/rgd_hook.c:185-221 | the merged cache says what the last such TLV of all messages said |
| RouteUpdateTheorems.MergeIsParse | altscreen/native/routeguidance/rgd_hook.c:185-221 | merging parsed messages equals parsing one message with all TLVs that can be read in them |
| RouteUpdateTheorems.MergeIsParseOfConcatenation | altscreen/native/routeguidance/rgd_hook.c:185-221 | for well-formed messages that is their concatenation |
| ManeuverParse.ParseManeuverMessage | altscreen/native/routeguidance/rgd_tlv.c:435-589 | the fields of a 0x5202 message, TLV by TLV |
| ManeuverMessage.ManeuverRoundTrip | altscreen/native/routeguidance/rgd_tlv.c:435-589 | the same for the 14 fields of a maneuver; the exit angle reads 1000 if there is an index and no angle |
| ManeuverParse.CopyPrintable | altscreen/native/routeguidance/rgd_tlv.c:52-79 | the exit text up to its NUL with control characters replaced, in a fixed buffer |
| ManeuverParse.CollectWords | altscreen/native/routeguidance/rgd_tlv.c:530-537 | angles are put behind those already there, while there is room |
| ManeuverParse.AnglesAreCollected | altscreen/native/routeguidance/rgd_tlv.c:530-537 | a message's junction angles are the first 16 of all its angle TLVs, in order |
| ManeuverParse.NumberIsLast | altscreen/native/routeguidance/rgd_tlv.c:435-545 | a number field keeps the last value that is long enough |
| ManeuverParse.StoreReadsParsed | altscreen/native/routeguidance/rgd_tlv.c:458-558 | index, link and type as the store reads them are those in the parsed struct |
| ManeuverParse.IndexedIsPublishable | altscreen/native/routeguidance/rgd_tlv.c:585-588 | a maneuver with an index always has an exit angle, so the test for publishable fields never turns it away |
| LaneParse.ParseLanes | altscreen/native/routeguidance/rgd_tlv.c:112-228 | the lanes of one lane-information value, sub-TLV by sub-TLV |
| LaneParse.CollectAngles | altscreen/native/routeguidance/rgd_tlv.c:182-204 | the loop over the angles of one TLV, with the direction taken from the first real one |
| LaneParse.LanesAreGroups | altscreen/native/routeguidance/rgd_tlv.c:112-228 | the lanes are exactly the groups that index TLVs mark off, up to the limit; a lane's direction is its last highlight or else its first real angle |
| LaneParse.ParseLaneGuidance | altscreen/native/routeguidance/rgd_tlv.c:591-665 | the TLV loop over a 0x5204 message: its lane event and the lanes of all its lane values |
| LaneParse.LanesAreCollected | altscreen/native/routeguidance/rgd_tlv.c:591-665 | the event is the one named last; the lanes are the first 8 of all lanes of all values, although each value is parsed with a limit of its own |
| LaneMessage.MessageRoundTrip | altscreen/native/routeguidance/rgd_tlv.c:591-665 | of every message written for a lane event with up to eight lanes exactly these are read, with position, status, angles and highlight |
| Identify.ExtractComponentId | altscreen/native/routeguidance/rgd_tlv.c:761-778 | the first identifier in a component, or 0 |
| IdentifyPatcher.BuildComponentTlv | altscreen/native/routeguidance/rgd_tlv.c:667-759 | the 86 bytes of the component, or 0 if they do not fit |
| IdentifyPatcher.PutU16Tlv | altscreen/native/framework/iap2_protocol.c:160-168 | a TLV with a 16-bit value is written as its encoding |
| IdentifyPatcher.Patcher.Locate | altscreen/native/routeguidance/rgd_hook.c:1572-1590 | finds the component and adopts its id unless it is 0 |
| IdentifyPatcher.Patcher.Patch | altscreen/native/routeguidance/rgd_hook.c:1568-1632 | rewrites the buffer to the patched frame, or leaves it if it cannot grow |
| IdentifyPatcher.ReplaceBytes | altscreen/native/routeguidance/rgd_hook.c:1612-1619 | the bytes of the component take the place of others, those behind them move |
| IdentifyTheorems.ExtractsWhatWasBuilt | altscreen/native/routeguidance/rgd_tlv.c:667-778 | extracting the id returns the id built in |
| IdentifyTheorems.ComponentIs | altscreen/native/routeguidance/rgd_tlv.c:667-759 | the component byte by byte: its identifier, its name and the seven capacities |
| IdentifyTheorems.AdoptsExistingId | altscreen/native/routeguidance/rgd_hook.c:1577-1586 | of any component in the frame, whoever built it, the first identifier inside is adopted unless that is 0; without one the id so far stays |
| IdentifyTheorems.PatchIsLocal | altscreen/native/routeguidance/rgd_hook.c:1592-1622 | in a well-formed frame the first component is replaced in place or one appended, all else stays, and the length field is right |
| IdentifyTheorems.PatchTwice | altscreen/native/routeguidance/rgd_hook.c:1568-1632 | patching twice is patching once if and only if there was a component or the TLVs run to the end |
| IdentifyTheorems.PatchTwiceFails | altscreen/native/routeguidance/rgd_hook.c:1568-1632 | a frame on which a second patch adds a second component |
| BusState.Globals.Enqueue | altscreen/native/framework/bus.c:187-194 | appends a frame, or refuses it when the ring is full |
| BusState.Globals.DequeueFrame | altscreen/native/framework/bus.c:196-203 | takes the oldest frame |
| BusState.Globals.Send | altscreen/native/framework/bus.c:313-370 | numbers, caches and queues a frame; a refusal gives the number back but not the cache |
| BusState.Globals.Snapshot | altscreen/native/framework/bus.c:379-409 | the frames of a snapshot |
| BusState.Globals.Hello | altscreen/native/framework/bus.c:630-644 | the greeting takes a number of its own |
| BusState.Globals.SetSticky | altscreen/native/framework/bus.c:257-265 | marks a type as sticky |
| BusRuns.WriterIsFifo | altscreen/native/framework/bus.c:184-203 | the writer takes exactly the accepted frames, in order |
| BusRuns.AnswersExactly | altscreen/native/framework/bus.c:313-370 | a send is accepted if and only if its payload has at most 128 KiB, its type is in range, the bus was not stopped and fewer than 256 accepted frames wait for the writer |
| BusRuns.GreetingSays | altscreen/native/framework/bus.c:630-644 | the greeting names version and protocol |
| BusRuns.NumbersAreDistinct | altscreen/native/framework/bus.c:334-362 | frames written or queued carry the numbers 1, 2, 3, .. once each, despite refusals |
| BusRuns.CacheIsLatest | altscreen/native/framework/bus.c:346-354 | the cache of a type is its latest sticky send, queued or refused |
| BusRuns.SnapshotIsLatest | altscreen/native/framework/bus.c:379-409 | a snapshot carries, between its markers and in ascending numbers, the latest sticky send of every type and nothing else |
| BusRuns.RefusedStickyIsReplayed | altscreen/native/framework/bus.c:346-362 | a refused sticky send still is in the next snapshot |

## Left out

- Counters (tokens, generations, LRU clocks, sequence numbers, statistics) are unbounded numbers; their wrap-around is not modelled.
- Clocks are parameters. A reading of 0 where the source treats it as a failed clock is modelled in the forwarder; elsewhere clocks are taken to run.
- Memory allocation succeeds, except when the Identify buffer has to grow, where both outcomes are modelled. Lengths do not come near the limits of `size_t`.
- Sockets, threads, locks, NvSS, AES, CoreFoundation objects, signals, marker files and logging are reduced to their outcomes (bytes accepted, refused, interrupted; commands acknowledged, refused or unanswered).
- Wheel zoom and `control_inflight`: teardown waits for in-flight work only for a bounded time, so nothing absolute holds of it.
- The standalone keyframe path `altscreen_request_fresh_keyframe` bypasses the control machine; the model states only when the forwarder asks for it.
- `native/send_hook.c` differs from `altscreen/native/send_hook.c` in its Identification reset; the latter is modelled.
- The lane cache of `rgd_hook.c`, which has no bearing on what Java is told of the route, and the text of snapshots other than the maneuver list.
- RgdSlots.ParseManeuver: keeps the readable TLVs of a 0x5202 message instead of its struct; `ManeuverParse` models the struct and shows that the store reads the same off both.
- RgdSlots.Keep: has no test for publishable fields as in lines 844-861 of `rgd_hook.c`, because it always passes (`ManeuverParse.IndexedIsPublishable`).
- Component ids and the description of a 0x5204 message, and the conversion of angles to signed numbers: the model keeps them as 16-bit words.
- The 0x5200 requests of `rgd_hook.c` itself (`rgd_request_updates`), a simpler form of the retry protocol that is modelled.
- Delivery of bus frames to Java: the route-guidance model takes it to succeed; the bus model says what is numbered, queued and cached.
- The inbound half of the bus, its handler table, reconnecting, and draining on shutdown.
- AirPlay property building, profiles, hook installation by fixed offsets, observers, diagnostics and the Java side.
- BusRuns.NumbersAreDistinct: does not claim that numbers ascend on the wire, because queued frames can follow a snapshot that was numbered later.
- AltscreenRuns.RouteAgreement: does not cover a session while a mode-state call is between recording a route change and queueing it, or before its first-frame request; then the two sources may differ.

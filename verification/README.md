# BadVPN: a verified model of its packet paths

BadVPN is a peer-to-peer virtual network written in C. This project models the parts of it where a
packet's fate depends on protocol state, and proves what they promise over every input and every run.
Each part has a specification on values, with an invariant and theorems over whole runs, and, where the C code
updates structures in place, a class with the same fields whose methods are proved to refine it.

- **Fair queue** (`FairQueue*`, `JobStack`, `PacketInterface`, `QueueJobs`). The virtual-time scheduler
  with 64-bit times picks the same flows as one with unbounded times while it is busy; two backlogged flows get service
  that differs by a bounded amount; no flow starves; a flow joins at the least time of those that wait; and the
  last-in-first-out job stack lets a flow that sends again at once keep its place.
- **FragmentProto** (`Fragment*`). Chunks of a frame may come in any order and between any others. The frame comes
  out once, byte for byte; it is lost exactly when its chunks do not fit together, are too many, it times out, or it
  makes room as the oldest. Splitting and assembling is the identity with the parameters that the client uses, and it is
  stated exactly what cancelling frames in the middle costs.
- **Flows and relays** (`FlowAttachment*`, `FlowDelivery`, `FlowCalls`, `Relay*`). Detaching a flow whose packet is being
  sent is postponed; what it is attached to and what it desires stay related in every reachable state, no packet is lost
  by it, and none is sent again unless its buffer was moved. Relay providers, their users and waiting peers stay
  consistent, nobody waits while there is a relay, and the events alone tell who relays for whom. The calls that the
  client makes to DataProto are stated one by one in the order of the code. Each is allowed when it is made, and in every
  run of the two together, with the steps of the queues in between, none of DataProto's assertions fails.
- **Frame decider** (`MacTable`, `GroupIndex`, `LinkedList3`, `FrameDecider*`, `Decisions`, `Recency`). Learned addresses
  have one owner, the peer they were last seen from; in every run what makes room is what was not used for longest; each
  multicast signature in use has exactly one master; a frame goes to exactly the destinations that the
  events tell, also when peers and entries come and go while they are handed out.
- **BProto** (`BProto*`). Message descriptions are data. For all of them, what the generated writer writes is
  accepted by the generated parser, and the getters return it; and nothing else is accepted.
- **PacketProto** (`PacketProto*`). The decoder gives the same packets however the byte stream is cut. Once a header is
  whole, it gives up exactly the streams that no encoder makes.
- **DHCP client** (`DhcpClient*`, `DhcpHistory`). Timers, reports, messages, transaction ids and the lease bound, in every
  run; the phase, the offer and the xid are told by what happened.

Linked lists are sequences, AVL trees are maps, and objects in the heap are named by ids. Times
are integers; 64-bit wrap-around in the fair queue, the 32-bit packet clock of the assembler and 16-bit frame ids are
written out. The clock, random transaction ids and whether an allocation succeeds are parameters.

Properties that do not hold of the code, with the exact condition under which they do:

- Across an idle gap the fair queue and the unbounded one can pick different flows, because the current time of an idle
  queue is 0 and rebased times may have been clamped. `IdleGapDiverges` is a run from the empty queue with 64-bit times
  in which they do. Whatever comes next, they go on picking the same flows if and only if the flow that wakes the queue was
  not clamped or no flow is ahead of it (`IdleWakeUp`, for packets that may have a byte).
- After a frame is cancelled in the middle, the disassembler uses its frame id again, and the assembler may still have
  pieces of it. `CancelLosesNext` is a run that loses a frame. Every frame comes out with its last chunk if and only if no
  frame was written whole that was begun while the assembler had pieces under its id (`RoundTrip`); the sender can tell
  from the chunks it sent (`Tracker`). With one cancel in the middle that means: if and only if no frame was written whole after
  it (`OneCancel`). With two in a row it does not, since the second frame may cost the pieces of the first, and the
  third then comes out (`SecondCancelSavesThird`). The list of frames that came out shows the loss as long as fewer than
  65536 frames were written whole since; after that the id comes round, and it may not (`IdComesRound`).
- Two multicast addresses share a group's signature, since the code looks at 23 bits. `SigsAgree` says which.
- A frame that comes while a multicast decision is under way decides nothing and detaches its iterator. If a peer is
  freed then, it can stay the next destination (`InterruptedDecision`): it does if and only if the detached iterator is at
  an entry of that peer (`FreedRemaining`). The client always drains a decision, so this does not happen in any of its
  runs (`HandleAll`).

`dafny verify dfyconfig.toml` checks the whole project.

## Model

| member | source | states |
|---|---|---|
| `FairQueue.FirstExists` | app/src/main/jni/badvpn/flow/PacketPassFairQueue.c:39-47 | among any non-empty set of queued flows there is a first one in the order of the queued tree (time, then flow), so the tree has a well-defined leftmost entry |
| `FairQueue.BoundedDone` | app/src/main/jni/badvpn/flow/PacketPassFairQueue.c:79-116 | a completed send with 64-bit unsigned arithmetic: although the subtraction may wrap below zero for the finished flow, its new time is its true time minus the rebase plus the amount and lies in (0, maxTime]; no queued flow is clamped by the rebase |
| `FairQueue.StepValid` | app/src/main/jni/badvpn/flow/PacketPassFairQueue.c:139-351 | every handler, in every allowed state, keeps the queue invariant (times in range, the flow being sent never ahead of a waiting one, and nothing waits unless a send or the schedule job is under way) |
| `FairQueueTheorems.RunValid` | app/src/main/jni/badvpn/flow/PacketPassFairQueue.c:139-351 | the invariant holds after every run of handlers |
| `FairQueueTheorems.RefineStep` | app/src/main/jni/badvpn/flow/PacketPassFairQueue.c:139-351 | one handler keeps the queue with 64-bit times, clamping and rebase in simulation with a queue with unbounded times, up to one shared offset |
| `FairQueueTheorems.RefineRun` | app/src/main/jni/badvpn/flow/PacketPassFairQueue.c:139-351 | the simulation lifts to whole runs: the unbounded queue can make the same run and sends the same flows in the same order |
| `FairQueueTheorems.SamePicksAsUnbounded` | app/src/main/jni/badvpn/flow/PacketPassFairQueue.c:79-217 | from any valid state the implementation picks exactly the flows that the unbounded-time queue picks, for as long as the queue is busy, and beyond when it is woken up only by flows whose time is not zero |
| `FairQueueTheorems.GapStep` | app/src/main/jni/badvpn/flow/PacketPassFairQueue.c:79-217 | one handler changes the gap between two backlogged flows by exactly the weighted service they got, and never lifts it over the larger of its old value and packet_weight + MTU |
| `FairQueueTheorems.FairShares` | app/src/main/jni/badvpn/flow/PacketPassFairQueue.c:79-217 | over any run in which two flows stay backlogged, the difference of their weighted service equals the change of the gap between their times, and that gap is at most the larger of its start value and packet_weight + MTU, whatever rebases happen |
| `FairQueueTheorems.DeficitStep` | app/src/main/jni/badvpn/flow/PacketPassFairQueue.c:79-217 | the total by which the times of the other flows lie behind a waiting flow never grows, and every completed send uses up some of it |
| `FairQueueTheorems.NoStarvation` | app/src/main/jni/badvpn/flow/PacketPassFairQueue.c:118-217 | a flow that waits sits out at most Deficit completed sends, whatever arrives meanwhile, and the queue is never stuck while it waits |
| `FairQueueIdle.BoundedTurn` | app/src/main/jni/badvpn/flow/PacketPassFairQueue.c:79-151 | one turn of two flows that keep sending, with 64-bit times: the gap between their times changes by exactly the service, whatever the rebase, and the one that comes first is sent |
| `FairQueueIdle.Fight` | app/src/main/jni/badvpn/flow/PacketPassFairQueue.c:79-151 | if g is further ahead of f with unbounded times than with 64-bit ones, there are packets with which the two queues come to pick different flows: the gap moves by one each round until it falls where the two orders disagree |
| `FairQueueIdle.StaysInStep` | app/src/main/jni/badvpn/flow/PacketPassFairQueue.c:52-77 | if the time of the flow that wakes the idle queue was not clamped, or no flow is ahead of it, the two queues stay in simulation, if need be with a smaller offset |
| `FairQueueIdle.NewBusyPeriod` | app/src/main/jni/badvpn/flow/PacketPassFairQueue.c:52-77 | a busy period that begins with equal times picks what unbounded times pick, also if a flow with time 0 begins it |
| `FairQueueIdle.IdleWakeUp` | app/src/main/jni/badvpn/flow/PacketPassFairQueue.c:52-77 | for every idle state, flow and packet: the queue goes on picking what the one with unbounded times picks, in every steady continuation, if and only if the time of the flow that wakes it was not clamped away by a rebase or no flow is ahead of it |
| `FairQueueIdle.LapStates` | app/src/main/jni/badvpn/flow/PacketPassFairQueue.c:79-116 | a flow that sends alone has its time grow by the service and, when that would overflow, taken away by a rebase |
| `FairQueueIdle.IdleGapDiverges` | app/src/main/jni/badvpn/flow/PacketPassFairQueue.c:52-116 | a run from the empty queue with the 64-bit times of the code in which it picks a different flow than with unbounded times: flow 0 sends alone until it is rebased, and then flow 1 wakes the idle queue |
| `FairQueueTimes.CurrentIsLeast` | app/src/main/jni/badvpn/flow/PacketPassFairQueue.c:52-77 | in every valid state that is not idle, the current time is the time of some flow that waits, is being sent or was just sent, and no such flow has a smaller one |
| `FairQueueTimes.JoinTime` | app/src/main/jni/badvpn/flow/PacketPassFairQueue.c:153-180 | a flow that gets a packet keeps its time if it was the one sent last or the queue is idle; otherwise it has exactly the larger of its old time and the least time of the live flows; no other time changes |
| `FairQueueTimes.DoneMeans` | app/src/main/jni/badvpn/flow/PacketPassFairQueue.c:79-116 | the closed form of a completed send for every flow: the one sent is charged the weight and the length; only if that is over the largest time, all are lowered by the least time of the waiting flows, or by the time of the sent flow if none waits, and those that were smaller become 0 |
| `FairQueueTimes.StaysAtZero` | app/src/main/jni/badvpn/flow/PacketPassFairQueue.c:296-321 | a flow that was made and has not sent stays at time 0, whatever the others do, also across rebases |
| `FairQueueTimes.FirstPacketJoins` | app/src/main/jni/badvpn/flow/PacketPassFairQueue.c:153-180 | in every run, the first packet of a flow, however long ago the flow was made, is queued at exactly the least time of the live flows |
| `FairQueueTimes.ChargedInEveryRun` | app/src/main/jni/badvpn/flow/PacketPassFairQueue.c:118-217 | in every run, what is charged for a packet is the length it was sent with |
| `FairQueueObject.PacketPassFairQueue.constructor` | app/src/main/jni/badvpn/flow/PacketPassFairQueue.c:219-266 | the new queue is valid and empty |
| `FairQueueObject.PacketPassFairQueue.TreeFirst` | app/src/main/jni/badvpn/flow/PacketPassFairQueue.c:39-47 | a search over the queued flows finds the unique first one by time and then flow order |
| `FairQueueObject.PacketPassFairQueue.GetCurrentTime` | app/src/main/jni/badvpn/flow/PacketPassFairQueue.c:52-77 | the time of the specification; in every valid state that is not idle it is the least time of the flows that wait, are being sent or were just sent |
| `FairQueueObject.PacketPassFairQueue.SubtractFromAll` | app/src/main/jni/badvpn/flow/PacketPassFairQueue.c:98-111 | a loop over the flow list gives every other flow its time less the amount, clamped at 0, and lets the sent flow wrap |
| `FairQueueObject.PacketPassFairQueue.IncrementSentFlow` | app/src/main/jni/badvpn/flow/PacketPassFairQueue.c:79-116 | rebases exactly when the addition would overflow and adds the amount modulo 2^64 |
| `FairQueueObject.PacketPassFairQueue.Schedule` | app/src/main/jni/badvpn/flow/PacketPassFairQueue.c:118-137 | takes the first flow out of the tree and makes it the one being sent |
| `FairQueueObject.PacketPassFairQueue.ScheduleJobHandler` | app/src/main/jni/badvpn/flow/PacketPassFairQueue.c:139-151 | refines the Job event on the real fields and keeps the invariant |
| `FairQueueObject.PacketPassFairQueue.InputHandlerSend` | app/src/main/jni/badvpn/flow/PacketPassFairQueue.c:153-180 | refines the Send event: the previous flow keeps its time, any other is not behind the current time |
| `FairQueueObject.PacketPassFairQueue.OutputHandlerDone` | app/src/main/jni/badvpn/flow/PacketPassFairQueue.c:182-217 | refines the Done event: service is charged, the flow becomes the previous one, and the schedule job is set before it may send again |
| `FairQueueObject.PacketPassFairQueue.FlowInit` | app/src/main/jni/badvpn/flow/PacketPassFairQueue.c:296-321 | a new flow starts at time 0 and is not queued |
| `FairQueueObject.PacketPassFairQueue.FlowFree` | app/src/main/jni/badvpn/flow/PacketPassFairQueue.c:323-351 | a freed flow leaves the tree, the list and the previous-flow field |
| `FairQueueObject.PacketPassFairQueue.Create` | app/src/main/jni/badvpn/flow/PacketPassFairQueue.c:219-266 | creation fails exactly when packet_weight + MTU is over the largest time |
| `FairQueueObject.PacketPassFairQueue.HandleAll` | app/src/main/jni/badvpn/flow/PacketPassFairQueue.c:139-351 | every run of the model is a run of the object, so the theorems on whole runs hold of it |
| `JobStack.BPendingGroup.constructor` | app/src/main/jni/badvpn/base/BPending.c:40-50 | no job is set |
| `JobStack.BPendingGroup.Set` | app/src/main/jni/badvpn/base/BPending.c:137-154 | the job is on top of the stack, once, wherever it was before |
| `JobStack.BPendingGroup.Unset` | app/src/main/jni/badvpn/base/BPending.c:156-171 | the job is no longer set, and the others keep their order |
| `JobStack.BPendingGroup.TakeJob` | app/src/main/jni/badvpn/base/BPending.c:66-88 | the job that runs is the one on top, and it is unset before its handler is called |
| `JobStack.ActAround` | app/src/main/jni/badvpn/base/BPending.c:66-171 | any one set, unset or run leaves a resting job with a subset of what was below it, and puts whatever is set above it |
| `JobStack.StaysBelow` | app/src/main/jni/badvpn/base/BPending.c:66-171 | the same over every run: nothing that is set later gets below a job that rests |
| `JobStack.LastSetRunsFirst` | app/src/main/jni/badvpn/base/BPending.c:66-171 | when a job comes to run, everything set after it, by whatever job, has run or was unset, and all that is left was pending beneath it: the stack is last in, first out over every run |
| `PacketInterface.PacketPassInterface.constructor` | app/src/main/jni/badvpn/flow/PacketPassInterface.h:112-128 | the interface is idle |
| `PacketInterface.PacketPassInterface.SenderSend` | app/src/main/jni/badvpn/flow/PacketPassInterface.h:181-198 | the operation job is pushed and the state follows the protocol automaton |
| `PacketInterface.PacketPassInterface.ReceiverDone` | app/src/main/jni/badvpn/flow/PacketPassInterface.h:149-162 | a pending cancel job is dropped and the done job is pushed |
| `PacketInterface.PacketPassInterface.SenderRequestCancel` | app/src/main/jni/badvpn/flow/PacketPassInterface.h:200-227 | a cancel before the operation ran turns it into a done; while busy it pushes the cancel job, once; after done it does nothing |
| `PacketInterface.PacketPassInterface.ExecuteJob` | app/src/main/jni/badvpn/flow/PacketPassInterface.c:32-68 | the job that runs calls the handler the protocol allows in that state |
| `PacketInterface.CallbacksLeft` | app/src/main/jni/badvpn/flow/PacketPassInterface.h:149-227 | from any state, how many operation, cancel and done callbacks can still come before the next Send |
| `PacketInterface.OneOperationOneDone` | app/src/main/jni/badvpn/flow/PacketPassInterface.h:149-227 | between one Send and the next, in every run, the operation and cancel handlers are called at most once, the done handler exactly when the interface is idle again, and without a cancel the packet is handed over exactly once |
| `PacketInterface.StateIsAsCalled` | app/src/main/jni/badvpn/flow/PacketPassInterface.h:149-227 | between two Sends the whole state is a function of which calls were made since, in whatever order they came: an operation cancelled before it started is not started and is done at once, a started one is over when the receiver says so, and the receiver is told of a cancel exactly while it has the packet and was not told before |
| `PacketInterface.CancelJobOnlyBusy` | app/src/main/jni/badvpn/flow/PacketPassInterface.h:149-227 | in every run a cancel job is pending only while the receiver is busy |
| `QueueJobs.EventEnabled` | app/src/main/jni/badvpn/flow/PacketPassFairQueue.c:139-217 | the interfaces and the job stack only ever call a queue handler in a state in which its assertions hold |
| `QueueJobs.NextKeepsInv` | app/src/main/jni/badvpn/flow/PacketPassFairQueue.c:139-217 | every action of the flows, the output and the job stack keeps jobs, interfaces and queue consistent; in particular the jobs of the previous flow are above the schedule job |
| `QueueJobs.KeepsRun` | app/src/main/jni/badvpn/flow/PacketPassFairQueue.c:182-217 | until the schedule job runs, the previous flow keeps its time in every run |
| `QueueJobs.ResentKeepsPlace` | app/src/main/jni/badvpn/flow/PacketPassFairQueue.c:182-217 | a flow that gets another packet before the schedule job runs, from whatever job, is queued with its time kept when the next flow is picked; this is what the last-in-first-out order is for |
| `FragmentChunks.FirstOfEncoded` | app/src/main/jni/badvpn/protocol/fragmentproto.h:51-80 | an encoded chunk is read back as itself whatever follows it |
| `FragmentChunks.PacketRoundTrip` | app/src/main/jni/badvpn/client/FragmentProtoAssembler.c:285-324 | for all chunk lists, reading an encoded packet gives exactly those chunks |
| `FragmentChunks.EncodeAppend` | app/src/main/jni/badvpn/client/FragmentProtoDisassembler.c:56-69 | a packet grows by appending the encoding of one chunk |
| `FragmentChunks.CoverSize` | app/src/main/jni/badvpn/client/FragmentProtoAssembler.c:105-108 | disjoint pieces cover exactly as many positions as their lengths add up to |
| `FragmentChunks.DisjointPiecesTile` | app/src/main/jni/badvpn/client/FragmentProtoAssembler.c:105-108 | disjoint pieces within a frame never add up to more than its length, and if they add up to it, every position is covered by exactly one of them |
| `FragmentChunks.ByteFromPiece` | app/src/main/jni/badvpn/client/FragmentProtoAssembler.c:253-254 | each byte of the assembled contents is the payload byte of a piece that covers it |
| `FragmentAssembler.AgreesKeeps` | app/src/main/jni/badvpn/client/FragmentProtoAssembler.c:197-226 | a chunk that passes the overlap and length checks keeps the chunks of the frame disjoint and within it |
| `FragmentAssembler.FinishedIsTiled` | app/src/main/jni/badvpn/client/FragmentProtoAssembler.c:197-283 | a frame that is passed on is tiled by its chunks: their lengths add up to its length, every byte is covered by exactly one chunk and is the payload byte of that chunk |
| `FragmentAssembler.Position` | app/src/main/jni/badvpn/client/FragmentProtoAssembler.c:179-195 | the look-up by frame id gives the first entry with the id and only fails if there is none |
| `FragmentAssembler.Purge` | app/src/main/jni/badvpn/client/FragmentProtoAssembler.c:117-136 | removes exactly the timed-out frames |
| `FragmentAssembler.Older` | app/src/main/jni/badvpn/client/FragmentProtoAssembler.c:326-339 | the end of a packet ages every frame by one |
| `FragmentAssembler.MakeRoomOk` | app/src/main/jni/badvpn/client/FragmentProtoAssembler.c:57-103 | eviction of the oldest frame leaves room and adds nothing |
| `FragmentAssembler.PrepareOk` | app/src/main/jni/badvpn/client/FragmentProtoAssembler.c:179-195 | whatever the id, the chunk gets an entry with that id and the pool stays within its size with unique ids |
| `FragmentAssembler.ProcessOk` | app/src/main/jni/badvpn/client/FragmentProtoAssembler.c:154-283 | every chunk, whatever it says, leaves a good pool |
| `FragmentAssembler.PurgeOk` | app/src/main/jni/badvpn/client/FragmentProtoAssembler.c:117-136 | the purge leaves a good pool |
| `FragmentAssembler.EndPacketOk` | app/src/main/jni/badvpn/client/FragmentProtoAssembler.c:326-346 | the end of a packet, with or without rebase, leaves a good pool |
| `FragmentOrder.NextTile` | app/src/main/jni/badvpn/client/FragmentProtoAssembler.c:197-283 | with the chunks of a split frame coming in any permutation, each is accepted, and the frame is complete with the last one and not before |
| `FragmentOrder.OwnStep` | app/src/main/jni/badvpn/client/FragmentProtoAssembler.c:154-283 | one chunk of the frame within an arbitrary pool does what it does for the frame alone |
| `FragmentOrder.OtherStep` | app/src/main/jni/badvpn/client/FragmentProtoAssembler.c:154-346 | chunks of other frames and ends of packets do not touch what was collected |
| `FragmentOrder.RestInAnyOrder` | app/src/main/jni/badvpn/client/FragmentProtoAssembler.c:154-346 | the same from any point of the delivery, over any continuation |
| `FragmentOrder.AnyOrder` | app/src/main/jni/badvpn/client/FragmentProtoAssembler.c:154-346 | the chunks of a split frame, delivered in any order and interleaved with any other chunks and packet ends, give the frame exactly once and byte for byte, and only when the last one is there, unless the frame is evicted or timed out on the way |
| `FragmentAges.AfterOk` | app/src/main/jni/badvpn/client/FragmentProtoAssembler.c:154-346 | after every run the pool is good |
| `FragmentAges.ProcessEntries` | app/src/main/jni/badvpn/client/FragmentProtoAssembler.c:154-283 | after a chunk every entry is the one that got it, with age 0, or was there before |
| `FragmentAges.AgeCountsPackets` | app/src/main/jni/badvpn/client/FragmentProtoAssembler.c:110-152 | in every run the age of a frame is the number of packets finished since its last chunk, also across rebases of the packet clock, and the frame is timed out if and only if these are more than there are frames |
| `FragmentEviction.RunByBirth` | app/src/main/jni/badvpn/client/FragmentProtoAssembler.c:57-103 | in every run the used frames are in the order in which they were made |
| `FragmentEviction.OldestIsEvicted` | app/src/main/jni/badvpn/client/FragmentProtoAssembler.c:57-103 | in every run, a frame that a chunk is not for is lost to it if and only if no frame has the id of the chunk, none is free, and the frame was made before all others that there are; a chunk beyond the MTU costs nothing |
| `FragmentEviction.EndPacketKeeps` | app/src/main/jni/badvpn/client/FragmentProtoAssembler.c:117-152 | at the end of a packet every frame is one packet older, and none is lost but timed-out ones when the packet clock is rebased |
| `FragmentOutcomes.OutcomeMeans` | app/src/main/jni/badvpn/client/FragmentProtoAssembler.c:154-283 | a frame is given up if and only if its chunks overlap or cannot all be parts of one frame, or there are too many of them and a byte is missing; it is finished if and only if they can and every byte is there, and then each chunk is a part of it; otherwise all chunks are kept |
| `FragmentOutcomes.CompleteIsWhole` | app/src/main/jni/badvpn/client/FragmentProtoAssembler.c:256-267 | comparing the sum of the lengths with the length of the frame tells exactly whether every byte is there |
| `FragmentOutcomes.ChunkTaken` | app/src/main/jni/badvpn/client/FragmentProtoAssembler.c:154-283 | the same in every run of the pool, for the chunks held for the frame with the id of the chunk, if it has not timed out |
| `FragmentAssemblerObject.ScanIsFeed` | app/src/main/jni/badvpn/client/FragmentProtoAssembler.c:285-346 | reading the packet in instalments, stopping at each completed frame, gives the frames and the pool of processing all its chunks |
| `FragmentAssemblerObject.BufferContents` | app/src/main/jni/badvpn/client/FragmentProtoAssembler.c:253-254 | the bytes copied into the frame buffer are the contents defined by the accepted chunks |
| `FragmentAssemblerObject.ShiftedSame` | app/src/main/jni/badvpn/client/FragmentProtoAssembler.c:138-152 | subtracting the same amount from the clock and all frame times changes no age |
| `FragmentAssemblerObject.LeastTimeBound` | app/src/main/jni/badvpn/client/FragmentProtoAssembler.c:117-152 | after the purge the smallest time of the used frames is recent enough for the rebase to leave room in the clock |
| `FragmentAssemblerObject.FragmentProtoAssembler.constructor` | app/src/main/jni/badvpn/client/FragmentProtoAssembler.c:370-445 | all frames are free |
| `FragmentAssemblerObject.FragmentProtoAssembler.FreeFrame` | app/src/main/jni/badvpn/client/FragmentProtoAssembler.c:46-55 | the frame leaves the used list and tree and joins the free list, and only that frame |
| `FragmentAssemblerObject.FragmentProtoAssembler.FreeOldestFrame` | app/src/main/jni/badvpn/client/FragmentProtoAssembler.c:57-68 | the longest-used frame goes |
| `FragmentAssemblerObject.FragmentProtoAssembler.AllocateNewFrame` | app/src/main/jni/badvpn/client/FragmentProtoAssembler.c:70-103 | a free entry, made by evicting the oldest if need be, becomes the newest used frame with no chunks |
| `FragmentAssemblerObject.FragmentProtoAssembler.FindFrame` | app/src/main/jni/badvpn/client/FragmentProtoAssembler.c:179-195 | the live frame with the id, or a new one if there is none or it timed out |
| `FragmentAssemblerObject.FragmentProtoAssembler.ChunkAgrees` | app/src/main/jni/badvpn/client/FragmentProtoAssembler.c:197-226 | the checks of the code against its arrays, sum and length fields decide exactly whether the chunk is disjoint from the accepted ones and consistent with the frame length |
| `FragmentAssemblerObject.FragmentProtoAssembler.AddChunk` | app/src/main/jni/badvpn/client/FragmentProtoAssembler.c:228-254 | the chunk is recorded with its bytes in the buffer, and the age is reset |
| `FragmentAssemblerObject.FragmentProtoAssembler.PutChunk` | app/src/main/jni/badvpn/client/FragmentProtoAssembler.c:197-283 | the chunk is accepted, refused with the frame freed, or completes the frame, exactly as the piece-level specification says |
| `FragmentAssemblerObject.FragmentProtoAssembler.ProcessChunk` | app/src/main/jni/badvpn/client/FragmentProtoAssembler.c:154-283 | one chunk on arrays, lists, tree and buffers refines the abstract step, and what is sent on is exactly the abstract frame |
| `FragmentAssemblerObject.FragmentProtoAssembler.FreeTimedOut` | app/src/main/jni/badvpn/client/FragmentProtoAssembler.c:117-136 | one pass with removal during iteration frees exactly the timed-out frames and finds the smallest remaining time |
| `FragmentAssemblerObject.FragmentProtoAssembler.SubtractTimes` | app/src/main/jni/badvpn/client/FragmentProtoAssembler.c:138-152 | the rebase changes no age |
| `FragmentAssemblerObject.FragmentProtoAssembler.ReduceTimes` | app/src/main/jni/badvpn/client/FragmentProtoAssembler.c:117-152 | purges exactly the timed-out frames, keeps all other ages, and leaves the clock at 0 or at most the number of frames |
| `FragmentAssemblerObject.FragmentProtoAssembler.EndOfPacket` | app/src/main/jni/badvpn/client/FragmentProtoAssembler.c:326-346 | every remaining frame is one packet older, with a rebase exactly when the clock is at its maximum |
| `FragmentAssemblerObject.FragmentProtoAssembler.ReadChunks` | app/src/main/jni/badvpn/client/FragmentProtoAssembler.c:285-324 | processes chunks up to the first that completes a frame, and stops at a malformed one |
| `FragmentAssemblerObject.FragmentProtoAssembler.ProcessInput` | app/src/main/jni/badvpn/client/FragmentProtoAssembler.c:285-346 | either a completed frame is sent and the rest of the packet stays, or the packet is finished |
| `FragmentAssemblerObject.FragmentProtoAssembler.InputHandlerSend` | app/src/main/jni/badvpn/client/FragmentProtoAssembler.c:348-360 | the same for a packet that comes in |
| `FragmentAssemblerObject.FragmentProtoAssembler.ReceivePacket` | app/src/main/jni/badvpn/client/FragmentProtoAssembler.c:285-368 | a whole packet with an output that takes every frame: exactly the frames that its chunks complete come out, in order |
| `FragmentRoundTripObject.AssembleAll` | app/src/main/jni/badvpn/client/FragmentProtoAssembler.c:285-368 | the object fed packet by packet computes the frames and the pool of the specification, with the rebases its clock made |
| `FragmentRoundTripObject.SplitAll` | app/src/main/jni/badvpn/client/FragmentProtoDisassembler.c:39-162 | the disassembler object fed any events passes on exactly the bytes of the packets of the specification |
| `FragmentRoundTripObject.Transfer` | app/src/main/jni/badvpn/client/DatagramPeerIO.c:197-226 | the two objects together, with the limits that the client sets, any frames and any cancels: the frames written whole come out, in order and once each, unless one of them was begun while the assembler had pieces of a cancelled one; then fewer do |
| `FragmentDisassembler.ChunkLength` | app/src/main/jni/badvpn/client/FragmentProtoDisassembler.c:50-54 | a chunk is never larger than what is left, the room and the chunk limit, makes progress, and without a limit fills the packet unless it ends the frame |
| `FragmentDisassembler.FillEnds` | app/src/main/jni/badvpn/client/FragmentProtoDisassembler.c:48-70 | the loop ends with the whole frame written or the packet full |
| `FragmentDisassembler.StepValid` | app/src/main/jni/badvpn/client/FragmentProtoDisassembler.c:39-162 | every handler leaves the state that the next ones assert |
| `FragmentDisassembler.FillOk` | app/src/main/jni/badvpn/client/FragmentProtoDisassembler.c:48-70 | the chunks written continue the frame exactly where it was, in order and complete |
| `FragmentDisassembler.WriteChunksOk` | app/src/main/jni/badvpn/client/FragmentProtoDisassembler.c:39-102 | after write_chunks a reader of all chunks written is exactly where the writer is |
| `FragmentDisassembler.NextOk` | app/src/main/jni/badvpn/client/FragmentProtoDisassembler.c:39-162 | the same for every handler in every reachable state |
| `FragmentDisassembler.EveryRun` | app/src/main/jni/badvpn/client/FragmentProtoDisassembler.c:39-162 | the same after every run, with any frames cancelled at any point |
| `FragmentDisassembler.WrittenIsFrames` | app/src/main/jni/badvpn/client/FragmentProtoDisassembler.c:39-162 | in every run, whatever is cancelled, the chunks written so far read as the frames that came in, whole and in order, with a part of each frame that was cancelled in the middle before the next one; without a chunk limit no frame takes more chunks than the bound of the protocol header |
| `FragmentDisassembler.CeilBound` | app/src/main/jni/badvpn/protocol/fragmentproto.h:82-98 | the counting argument behind that bound: full chunks that do not reach the end of the frame leave room for the first and the last |
| `FragmentPackets.PacketsTight` | app/src/main/jni/badvpn/client/FragmentProtoDisassembler.c:48-70 | in every run no chunk is longer than the chunk limit or the room in its packet, and none is shorter than it could be unless it ends its frame |
| `FragmentPackets.PassedWhenDue` | app/src/main/jni/badvpn/client/FragmentProtoDisassembler.c:83-162 | a packet is passed on before its timer only if no chunk fits any more or there is no latency; what is not passed on has room and waits for the timer, which passes on what there is |
| `FragmentDisassemblerObject.FragmentProtoDisassembler.constructor` | app/src/main/jni/badvpn/client/FragmentProtoDisassembler.c:164-199 | no input and no output |
| `FragmentDisassemblerObject.FragmentProtoDisassembler.WriteChunk` | app/src/main/jni/badvpn/client/FragmentProtoDisassembler.c:56-69 | header and payload are appended to the output buffer as the encoding of one more chunk |
| `FragmentDisassemblerObject.FragmentProtoDisassembler.FillOutput` | app/src/main/jni/badvpn/client/FragmentProtoDisassembler.c:48-70 | the do-while loop writes exactly the chunks of the specification |
| `FragmentDisassemblerObject.FragmentProtoDisassembler.WriteChunks` | app/src/main/jni/badvpn/client/FragmentProtoDisassembler.c:39-102 | refines the abstract step, and the packet passed on is the encoding of its chunks |
| `FragmentDisassemblerObject.FragmentProtoDisassembler.InputHandlerSend` | app/src/main/jni/badvpn/client/FragmentProtoDisassembler.c:104-120 | refines the arrival of a frame |
| `FragmentDisassemblerObject.FragmentProtoDisassembler.OutputHandlerRecv` | app/src/main/jni/badvpn/client/FragmentProtoDisassembler.c:134-149 | refines the arrival of an output buffer |
| `FragmentDisassemblerObject.FragmentProtoDisassembler.TimerHandler` | app/src/main/jni/badvpn/client/FragmentProtoDisassembler.c:151-162 | a partly filled packet is passed on as it is |
| `FragmentDisassemblerObject.FragmentProtoDisassembler.InputHandlerRequestCancel` | app/src/main/jni/badvpn/client/FragmentProtoDisassembler.c:122-132 | the frame is dropped and the frame id is not advanced |
| `FragmentDisassemblerObject.FragmentProtoDisassembler.Handle` | app/src/main/jni/badvpn/client/FragmentProtoDisassembler.c:39-162 | any event keeps the invariant, and the packet passed on is the encoding of the chunks that the specification passes on |
| `FragmentRoundTrip.NextInOrder` | app/src/main/jni/badvpn/client/FragmentProtoAssembler.c:197-283 | in-order chunks are always accepted, complete the frame exactly with the last one, and contain the bytes in order |
| `FragmentRoundTrip.CleanFollows` | app/src/main/jni/badvpn/client/FragmentProtoAssembler.c:154-283 | a chunk of a frame that was begun with nothing held under its id does what the sender expects: the frame comes out with its last chunk and not before |
| `FragmentRoundTrip.BlockedFollows` | app/src/main/jni/badvpn/client/FragmentProtoAssembler.c:154-283 | a chunk of a frame that was begun while pieces of a cancelled one were held completes nothing: bytes before it are missing, or a piece of the other frame lies ahead |
| `FragmentRoundTrip.LateStep` | app/src/main/jni/badvpn/client/FragmentProtoAssembler.c:154-283 | as long as the frame id has not come round, a chunk completes something only if it is the last of its frame |
| `FragmentRoundTrip.FeedSettles` | app/src/main/jni/badvpn/client/FragmentProtoAssembler.c:285-324 | what comes out of a packet, chunk by chunk, is what is due until the first frame is lost, and never again after that |
| `FragmentRoundTrip.AssembledSettles` | app/src/main/jni/badvpn/client/FragmentProtoAssembler.c:285-346 | the same for all packets, as bytes, with any rebases |
| `FragmentRoundTrip.RoundTripWithin` | app/src/main/jni/badvpn/client/DatagramPeerIO.c:197-226 | for any chunk limit and every run with any cancels: every frame comes out with its last chunk and nothing else does if and only if no frame was written whole that was begun while pieces of a cancelled one were held; then the frames are those written whole, and otherwise fewer, until the frame id comes round |
| `FragmentRoundTrip.ChunksSuffice` | app/src/main/jni/badvpn/client/DatagramPeerIO.c:197-226 | the number of chunks the client computes is enough for every run without a chunk limit |
| `FragmentRoundTrip.NoCutsNoLoss` | app/src/main/jni/badvpn/client/FragmentProtoDisassembler.c:122-132 | if no frame is cancelled in the middle, every frame is begun with nothing held |
| `FragmentRoundTrip.RoundTrip` | app/src/main/jni/badvpn/client/DatagramPeerIO.c:197-226 | with the limits the client uses, for every run with any frames (empty ones too) and any cancels, across wraps of the frame id and rebases of the packet clock: the same equivalence, and without a cancel in the middle the frames come out as they went in, once each |
| `FragmentCancel.LaterGrows` | app/src/main/jni/badvpn/client/FragmentProtoDisassembler.c:39-162 | later events only append chunks, and the first chunk after a cancel starts a frame |
| `FragmentCancel.LostAfterOne` | app/src/main/jni/badvpn/client/FragmentProtoDisassembler.c:122-132 | after one cancel in the middle the next frame that is written whole is lost, and no frame before it |
| `FragmentCancel.OneCancel` | app/src/main/jni/badvpn/client/FragmentProtoDisassembler.c:122-132 | every flushed run with one cancel in the middle: the frames come out on time if and only if none is written whole after it, and, for fewer than 65536 such frames, what comes out is what was written whole if and only if there are none |
| `FragmentCancelRuns.RealPass` | app/src/main/jni/badvpn/client/FragmentProtoDisassembler.c:39-162 | one more packet of a concrete run, through the disassembler, the bytes, the assembler and the tracker |
| `FragmentCancelRuns.CancelLosesNext` | app/src/main/jni/badvpn/client/FragmentProtoDisassembler.c:122-132 | a run of five events in which the frame after a cancelled one never comes out |
| `FragmentCancelRuns.SecondCancelSavesThird` | app/src/main/jni/badvpn/client/FragmentProtoDisassembler.c:122-132 | a run with two cancels in a row after which the third frame does come out, so a cancel in the middle alone does not decide it |
| `FragmentCancelRuns.IdComesRound` | app/src/main/jni/badvpn/client/FragmentProtoAssembler.c:154-283 | a run of 65536 frames after which as many, and the same, frames have come out as were written whole although one was lost: so the list of frames decides it only until the frame id comes round |
| `FlowAttachment.AttachInv` | app/src/main/jni/badvpn/client/DataProto.c:516-543 | attaching keeps the invariant between desired and actual sinks |
| `FlowAttachment.DetachInv` | app/src/main/jni/badvpn/client/DataProto.c:545-566 | detaching keeps it, also when the packet is being sent |
| `FlowAttachment.FlowFreeInv` | app/src/main/jni/badvpn/client/DataProto.c:458-484 | freeing a flow whose packet is being sent leaves its buffer to finish |
| `FlowAttachment.FinishDetachInv` | app/src/main/jni/badvpn/client/DataProto.c:200-216 | a postponed detach finishes in a consistent state |
| `FlowAttachment.SinkFreeInv` | app/src/main/jni/badvpn/client/DataProto.c:297-337 | freeing a sink with attached or detaching buffers keeps the invariant |
| `FlowAttachment.StepInv` | app/src/main/jni/badvpn/client/DataProto.c:146-566 | every operation keeps the invariant |
| `FlowAttachment.MayEnabled` | app/src/main/jni/badvpn/client/DataProto.c:146-566 | if callers keep the documented rules, no assertion inside these functions can fail, among them that no other buffer is detaching when a detach is put off, that the one finished is the detaching one, and that its flow does not want the sink being freed |
| `FlowAttachment.EveryRun` | app/src/main/jni/badvpn/client/DataProto.c:146-566 | in every reachable state: a buffer attached to a sink its flow does not desire is the only detaching one of that sink and is being sent; a flow that desires a sink is attached; every packet taken was delivered or is held and, if attached, on its way |
| `FlowAttachment.AttachIsPutOff` | app/src/main/jni/badvpn/client/DataProto.c:516-543 | a flow still attached elsewhere is busy, and its buffer does not move until the queue is done |
| `FlowAttachment.HeldPacketIsSentAgain` | app/src/main/jni/badvpn/flow/PacketPassConnector.c:100-125 | when the queue is done with a detaching buffer, it moves to the sink desired by then with its packet, which is sent again |
| `FlowAttachment.SinkFreeDetachesAll` | app/src/main/jni/badvpn/client/DataProto.c:297-337 | no buffer refers to a freed sink |
| `FlowDelivery.SentIsDone` | app/src/main/jni/badvpn/flow/PacketPassConnector.c:53-64 | when a queue has sent the packet of a buffer that is not detaching, the connector can be told, and then the flow can take any new packet |
| `FlowDelivery.SentOncePerStay` | app/src/main/jni/badvpn/client/DataProto.c:146-225 | in every run, a queue starts to send a packet at most once more than the buffer that holds it was detached since it got it |
| `FlowDelivery.DeliveredIffSent` | app/src/main/jni/badvpn/client/DataProto.c:218-225 | in every run, a packet counts as delivered if and only if some queue finished it as sent |
| `FlowAttachmentObject.DataProto.constructor` | app/src/main/jni/badvpn/client/DataProto.c:360-385 | nothing exists yet |
| `FlowAttachmentObject.DataProto.ConnectorInputSend` | app/src/main/jni/badvpn/flow/PacketPassConnector.c:36-51 | with the invariant before and after: the packet is held for its flow, and on its way if and only if the buffer is attached |
| `FlowAttachmentObject.DataProto.ConnectorOutputDone` | app/src/main/jni/badvpn/flow/PacketPassConnector.c:53-64 | with the invariant before and after: the packet that is let go of was sent by some sink |
| `FlowAttachmentObject.DataProto.FlowBufferFinishDetach` | app/src/main/jni/badvpn/client/DataProto.c:200-216 | the buffer goes to the desired sink, or waits, or is freed with its flow gone |
| `FlowAttachmentObject.DataProto.DataProtoSinkInit` | app/src/main/jni/badvpn/client/DataProto.c:227-295 | a sink with no buffers |
| `FlowAttachmentObject.DataProto.DataProtoSinkFree` | app/src/main/jni/badvpn/client/DataProto.c:297-337 | with the invariant, every internal assertion holds and the sink is gone |
| `FlowAttachmentObject.DataProto.QueueOutputDone` | app/src/main/jni/badvpn/client/DataProto.c:218-225 | with the invariant, every internal assertion holds when the queue is done, and unless a detach was put off the connector can be told that its packet is done |
| `FlowAttachmentObject.DataProto.DataProtoFlowInit` | app/src/main/jni/badvpn/client/DataProto.c:396-456 | a flow with its own, unattached buffer |
| `FlowAttachmentObject.DataProto.DataProtoFlowFree` | app/src/main/jni/badvpn/client/DataProto.c:458-484 | the flow is gone; its buffer stays only while its packet is being sent |
| `FlowAttachmentObject.DataProto.DataProtoFlowAttach` | app/src/main/jni/badvpn/client/DataProto.c:516-543 | the desired sink is set, and the buffer attached unless it is still busy elsewhere |
| `FlowAttachmentObject.DataProto.DataProtoFlowDetach` | app/src/main/jni/badvpn/client/DataProto.c:545-566 | no sink is desired, and the buffer is detached now or when its packet is done |
| `FlowAttachmentObject.DataProto.QueueOutputStart` | app/src/main/jni/badvpn/flow/PacketPassFairQueue.c:118-137 | with the invariant before and after: the sink sends the packet of this buffer and of no other one attached to it |
| `FlowAttachmentObject.DataProto.HandleAll` | app/src/main/jni/badvpn/client/DataProto.c:146-566 | every run of the model is a run of the structures, and no internal assertion fails in it |
| `RelayFlows.CreateFlowInv` | app/src/main/jni/badvpn/client/DPRelay.c:42-82 | a new relay flow is in both lists and attached as its sink is |
| `RelayFlows.FreeFlowInv` | app/src/main/jni/badvpn/client/DPRelay.c:84-107 | a freed relay flow is in no list and not the current one |
| `RelayFlows.FreeSourceFlows` | app/src/main/jni/badvpn/client/DPRelay.c:238-249 | the loop frees exactly the flows of the source |
| `RelayFlows.FreeSinkFlows` | app/src/main/jni/badvpn/client/DPRelay.c:265-276 | the loop frees exactly the flows of the sink |
| `RelayFlows.SetSinkInv` | app/src/main/jni/badvpn/client/DPRelay.c:278-307 | attaching or detaching a relay sink moves all its flows and no others |
| `RelayFlows.SubmitFrameInv` | app/src/main/jni/badvpn/client/DPRelay.c:186-221 | submitting a frame, with or without a new flow, keeps the invariant |
| `RelayFlows.FreeInv` | app/src/main/jni/badvpn/client/DPRelay.c:238-276 | freeing a source or a sink leaves no flow behind |
| `RelayFlows.WantedOnlyThroughSink` | app/src/main/jni/badvpn/client/DPRelay.c:278-307 | a relay flow wants a sink exactly as its relay sink does |
| `RelayFlowsObject.DPRelayRouter.constructor` | app/src/main/jni/badvpn/client/DPRelay.c:144-171 | no sources, sinks or flows |
| `RelayFlowsObject.DPRelayRouter.CreateFlow` | app/src/main/jni/badvpn/client/DPRelay.c:42-82 | refines the creation on both lists |
| `RelayFlowsObject.DPRelayRouter.FreeFlow` | app/src/main/jni/badvpn/client/DPRelay.c:84-107 | refines the removal from both lists and the current flow |
| `RelayFlowsObject.DPRelayRouter.SourceFindFlow` | app/src/main/jni/badvpn/client/DPRelay.c:116-127 | the search finds a flow exactly if there is one |
| `RelayFlowsObject.DPRelayRouter.SubmitFrame` | app/src/main/jni/badvpn/client/DPRelay.c:186-221 | the frame goes to the flow of this pair, which is created if needed; the frame before it must have been routed |
| `RelayFlowsObject.DPRelayRouter.SetSink` | app/src/main/jni/badvpn/client/DPRelay.c:278-307 | the loop over the flows of the sink attaches or detaches each of them and no other |
| `RelayFlowsObject.DPRelayRouter.SourceFree` | app/src/main/jni/badvpn/client/DPRelay.c:238-249 | the loop over a list that shrinks frees all flows of the source |
| `RelayFlowsObject.DPRelayRouter.SinkFree` | app/src/main/jni/badvpn/client/DPRelay.c:265-276 | the loop over a list that shrinks frees all flows of the sink |
| `RelayFlowsObject.DPRelayRouter.RouterDpSourceHandler` | app/src/main/jni/badvpn/client/DPRelay.c:129-142 | the flow the frame is routed to exists and is in the list of its source, unless the frame lost its flow meanwhile; another frame can be submitted |
| `RelayAssignment.RegisterInv` | app/src/main/jni/badvpn/client/client.c:1870-1883 | a peer that starts to wait keeps all list and field invariants |
| `RelayAssignment.UnregisterInv` | app/src/main/jni/badvpn/client/client.c:1885-1898 | so does one that stops |
| `RelayAssignment.InstallInv` | app/src/main/jni/badvpn/client/client.c:1802-1822 | a peer never relays through itself, and the relay has a link |
| `RelayAssignment.RelayingOk` | app/src/main/jni/badvpn/client/client.c:1802-1845 | a relaying peer is in the user list of another peer that is a relay with a link |
| `RelayAssignment.FreeRelayingInv` | app/src/main/jni/badvpn/client/client.c:1824-1845 | the peer is unconnected and in no user list |
| `RelayAssignment.Assign` | app/src/main/jni/badvpn/client/client.c:2684-2709 | the loop ends with nobody waiting or no relay, disturbs no existing relaying, and makes nobody stop needing a relay |
| `RelayAssignment.EnableProvider` | app/src/main/jni/badvpn/client/client.c:1750-1769 | the peer is a relay, everyone waiting is served, links and needs are unchanged |
| `RelayAssignment.DisableProvider` | app/src/main/jni/badvpn/client/client.c:1771-1800 | its users wait or get another relay, and links and needs are unchanged |
| `RelayAssignment.InitLinkInv` | app/src/main/jni/badvpn/client/client.c:1606-1693 | a link on an unconnected peer keeps the invariants |
| `RelayAssignment.FreeLinkInv` | app/src/main/jni/badvpn/client/client.c:1695-1727 | without its link the peer is unconnected |
| `RelayAssignment.WantedHasLink` | app/src/main/jni/badvpn/client/client.c:1606-1845 | a sink that a local flow wants belongs to a peer with a link |
| `RelayAssignment.NobodyWantsFreedLink` | app/src/main/jni/badvpn/client/client.c:1695-1727 | after a link is freed no local flow wants its sink |
| `RelayNetwork.LinkUp` | app/src/main/jni/badvpn/client/client.c:1606-1693 | link, relay sink and local flow are joined consistently |
| `RelayNetwork.LinkDown` | app/src/main/jni/badvpn/client/client.c:1695-1727 | they are separated consistently, and the peer is unconnected |
| `RelayNetwork.FreedSinkIsUnwanted` | app/src/main/jni/badvpn/client/client.c:1695-1727 | the DataProto sink freed with a link is wanted by no local and no relay flow, which is what freeing it demands |
| `RelayNetwork.WantedSinkExists` | app/src/main/jni/badvpn/client/client.c:1606-1727 | every sink that any flow wants exists |
| `RelayNetwork.Cleanup` | app/src/main/jni/badvpn/client/client.c:1729-1748 | whatever connection the peer had is gone, it is no relay, and nobody waits beside a relay |
| `RelayNetwork.Provider` | app/src/main/jni/badvpn/client/client.c:2626-2645 | switching a provider keeps everyone served and all links |
| `RelayNetwork.NeedRelay` | app/src/main/jni/badvpn/client/client.c:1847-1868 | keeps everyone served |
| `RelayNetwork.NeedRelayMeans` | app/src/main/jni/badvpn/client/client.c:1847-1868 | the peer gets a relay if there is one and waits otherwise, and every other peer still needs one if it did |
| `RelayNetwork.CleanupKeepsNeeds` | app/src/main/jni/badvpn/client/client.c:1729-1748 | a peer losing its connection, even as a relay of others, never makes another peer stop needing a relay |
| `RelayNetwork.RemovePeer` | app/src/main/jni/badvpn/client/client.c:1509-1568 | no flow of or to the removed peer is left |
| `RelayNetwork.HandleValid` | app/src/main/jni/badvpn/client/client.c:1606-1914 | every handler finds and leaves a consistent state in which no peer waits while there is a relay |
| `RelayNetwork.EveryRun` | app/src/main/jni/badvpn/client/client.c:1606-2709 | in every reachable state each peer has at most one of a link, a relaying peer and the waiting flag; relay, user and waiting lists hold exactly the peers the fields say, once each; and no peer waits while there is a relay |
| `FlowCalls.EachAllowed` | app/src/main/jni/badvpn/client/DataProto.c:297-566 | calls that lead from one set of flows and sinks to another are each allowed, when they are made, by what DataProto asserts of its callers: an attached flow was attached nowhere and its sink exists, a detached one was attached, a freed sink is wanted by no flow and a freed flow wants no sink |
| `FlowCalls.SetFlowsLeads` | app/src/main/jni/badvpn/client/DPRelay.c:277-307 | attaching or detaching the flows of a relay sink one after the other is allowed at each of them, and leaves exactly these flows wanting the new sink or none |
| `RelayAttachment.MakesLinkUp` | app/src/main/jni/badvpn/client/client.c:1606-1678 | the calls of peer_init_link in their order (make the sink, attach the local flow, attach the relay flows to the peer) are each allowed and lead to the flows and sinks of the new state |
| `RelayAttachment.MakesLinkDown` | app/src/main/jni/badvpn/client/client.c:1695-1727 | the calls of peer_free_link in their order (detach the relay flows, detach the local flow, free the sink) are each allowed: when the sink is freed no flow wants it, local or relay |
| `RelayAttachment.MakesAssign` | app/src/main/jni/badvpn/client/client.c:2684-2709 | each waiting peer that assign_relays serves has its local flow attached to the sink of the first relay, which exists, while the flow is attached nowhere |
| `RelayAttachment.MakesDisable` | app/src/main/jni/badvpn/client/client.c:1771-1800 | the calls of peer_disable_relay_provider: every user is detached before any is attached to another relay, and each call is allowed |
| `RelayAttachment.MakesFreeFlow` | app/src/main/jni/badvpn/client/DPRelay.c:84-107 | free_flow detaches the flow if and only if it is attached, and then frees it |
| `RelayAttachment.MakesForgetPeer` | app/src/main/jni/badvpn/client/DPReceive.c:253-267 | the calls when a peer goes, flow by flow: all relay flows to it, then all from it, then its local flow, each detached before it is freed |
| `RelayAttachment.RulesKept` | app/src/main/jni/badvpn/client/client.c:1324-2709 | exactly the calls that a handler of the client makes, in the order in which it makes them, are each allowed when they are made and lead to the flows and sinks of the state after the handler, for every event in every valid state |
| `RelayAttachment.EveryRunKeepsRules` | app/src/main/jni/badvpn/client/client.c:1324-2709 | the same for all the calls of every run, from the start |
| `RelayAttachment.AllowedMay` | app/src/main/jni/badvpn/client/DataProto.c:297-566 | what the rules allow is what DataProto asserts of its callers |
| `RelayAttachment.AllCallsDone` | app/src/main/jni/badvpn/client/DataProto.c:297-566 | from any state of DataProto with these flows and sinks, calls that the rules allow are all done, no assertion of DataProto fails in any of them, and it ends up with the flows and sinks that they lead to |
| `RelayAttachment.OthersAgree` | app/src/main/jni/badvpn/client/DataProto.c:146-225 | what queues and connectors do changes no flow and no sink |
| `RelayAttachment.NextTogether` | app/src/main/jni/badvpn/client/client.c:1324-2709 | client and DataProto together: whatever happens next, a handler of the client with all its calls or a step of a queue or connector, no call fails and the two agree again |
| `RelayAttachment.NoCallFails` | app/src/main/jni/badvpn/client/client.c:1324-2709 | in every run of the two together, in any interleaving of handlers, queues and connectors, no call of the client fails whatever comes next; a flow of the client is a flow of DataProto that desires the same sink, and that sink exists |
| `RelayHistory.RelaysAreTold` | app/src/main/jni/badvpn/client/client.c:2626-2645 | in every run, told by the events alone: a peer is a relay provider if and only if it has a link, has the relay-server flag it was added with, and the last report on that link was up; and it needs a relay if and only if it was last said to |
| `RelayHistory.RelayedThroughLongest` | app/src/main/jni/badvpn/client/client.c:2684-2709 | in every run, told by the events alone: a peer is reached through r if and only if it was last said to need a relay and r is the provider that has been up for longest |
| `RelayFlowHistory.FlowsStep` | app/src/main/jni/badvpn/client/DPRelay.c:186-276 | which relay flows an event makes and ends, and what becomes of the frame to be routed |
| `RelayFlowHistory.RelayFlowsAreTold` | app/src/main/jni/badvpn/client/DPRelay.c:42-307 | in every run, told by the events alone: there is a relay flow from s to d if and only if a frame was relayed since the flow last ended; it goes to the link of d if d has one; and a frame to be routed goes to the flow it was submitted for |
| `RelayNetworkObject.Client.constructor` | app/src/main/jni/badvpn/client/client.c:2684-2709 | no peers |
| `RelayNetworkObject.Client.PeerRegisterNeedRelay` | app/src/main/jni/badvpn/client/client.c:1870-1883 | the peer is at the end of the waiting list |
| `RelayNetworkObject.Client.PeerUnregisterNeedRelay` | app/src/main/jni/badvpn/client/client.c:1885-1898 | the peer is in no list, unconnected |
| `RelayNetworkObject.Client.PeerInstallRelaying` | app/src/main/jni/badvpn/client/client.c:1802-1822 | the peer is a user of another peer and its local flow goes there |
| `RelayNetworkObject.Client.PeerFreeRelaying` | app/src/main/jni/badvpn/client/client.c:1824-1845 | the peer is no user any more and its local flow is detached |
| `RelayNetworkObject.Client.AssignRelays` | app/src/main/jni/badvpn/client/client.c:2684-2709 | the loop over the waiting list refines the assignment |
| `RelayNetworkObject.Client.PeerEnableRelayProvider` | app/src/main/jni/badvpn/client/client.c:1750-1769 | the peer joins the relays and waiting peers are served |
| `RelayNetworkObject.Client.PeerDisableRelayProvider` | app/src/main/jni/badvpn/client/client.c:1771-1800 | the loop over its shrinking user list frees them, and they are served again |
| `RelayNetworkObject.Client.PeerInitLink` | app/src/main/jni/badvpn/client/client.c:1606-1693 | link, relay sink and local flow are joined, with the calls to DataProto in the order of the code |
| `RelayNetworkObject.Client.PeerFreeLink` | app/src/main/jni/badvpn/client/client.c:1695-1727 | they are separated, with the calls in the order of the code |
| `RelayNetworkObject.Client.PeerCleanupConnections` | app/src/main/jni/badvpn/client/client.c:1729-1748 | the three exclusive cases leave the peer unconnected |
| `RelayNetworkObject.Client.PeerNeedRelay` | app/src/main/jni/badvpn/client/client.c:1847-1868 | cleans up, waits, and is served if possible |
| `RelayNetworkObject.Client.PeerDataprotoHandler` | app/src/main/jni/badvpn/client/client.c:2626-2645 | after a report that its link is up a peer is a provider if and only if it has the relay-server flag, and after a report that it is down it is none; nobody waits while there is a provider |
| `RelayNetworkObject.Client.GetFreshLink` | app/src/main/jni/badvpn/client/client.c:2342-2355 | the old connection is gone before the new link is made; without one the peer is only reset |
| `RelayNetworkObject.Client.PeerAdd` | app/src/main/jni/badvpn/client/client.c:1324-1507 | a new peer with nothing keeps the invariants |
| `RelayNetworkObject.Client.PeerRemove` | app/src/main/jni/badvpn/client/client.c:1509-1568 | the connection, relay sink and relay source go in this order, and every precondition on the way holds |
| `RelayNetworkObject.Client.HandleAll` | app/src/main/jni/badvpn/client/client.c:1324-2709 | every run of the model is a run of the client and its router, and the calls they make to DataProto, one by one where the code makes them, are exactly the calls of the model |
| `LinkedList3.ChainInsert` | app/src/main/jni/badvpn/structure/LinkedList3.h:204-215 | on the links alone: inserting a node behind another makes the links of the sequence with it inserted there |
| `LinkedList3.ChainRemove` | app/src/main/jni/badvpn/structure/LinkedList3.h:230-243 | on the links alone: unlinking a node, wherever it is, makes the links of the sequence without it |
| `LinkedList3.ChainNextOrPrev` | app/src/main/jni/badvpn/structure/LinkedList3.h:261-270 | the neighbour that the links give is the next member of the sequence, or the previous one at its end |
| `LinkedList3.Links.InitLonely` | app/src/main/jni/badvpn/structure/LinkedList3.h:197-202 | the node is a list of its own, and no other links change |
| `LinkedList3.Links.InitAfter` | app/src/main/jni/badvpn/structure/LinkedList3.h:204-215 | the list is the old one with the node behind its reference, and no links outside the list change |
| `LinkedList3.Links.Free` | app/src/main/jni/badvpn/structure/LinkedList3.h:230-243 | the list is the old one without the node, and no links outside the list change |
| `LinkedList3.Links.IsLonely` | app/src/main/jni/badvpn/structure/LinkedList3.h:245-248 | tells whether the list has one node |
| `LinkedList3.Links.NextOrPrev` | app/src/main/jni/badvpn/structure/LinkedList3.h:261-270 | gives another node of the same list |
| `LinkedList3.Links.First` | app/src/main/jni/badvpn/structure/LinkedList3.h:282-289 | following the links back ends at the first node of the list |
| `Lists.NextOrPrevIsOther` | app/src/main/jni/badvpn/client/FrameDecider.c:166-197 | the neighbour that becomes master is another entry of the same list |
| `Lists.RestWithout` | app/src/main/jni/badvpn/structure/LinkedList3.h:230-243 | a walk that jumps when its node is freed goes on with exactly what was to come, without the freed node, wherever that was |
| `Lists.RestInsert` | app/src/main/jni/badvpn/structure/LinkedList3.h:204-215 | a walk comes to a node that is inserted behind m if and only if m was still to come |
| `MacTable.SightValid` | app/src/main/jni/badvpn/client/FrameDecider.c:69-118 | no address is in two lists or twice in one, and no list is over its limit, after any sighting |
| `MacTable.SightMeans` | app/src/main/jni/badvpn/client/FrameDecider.c:69-118 | after a sighting the address belongs to that peer alone; of all other addresses only the oldest of that peer can be gone, and only if it had no free entry |
| `MacTable.NewestOk` | app/src/main/jni/badvpn/client/FrameDecider.c:69-118 | the new address is the last of the list, and exactly the oldest makes room when the list is full |
| `MacTable.OnlyOwner` | app/src/main/jni/badvpn/client/FrameDecider.c:69-118 | taking an address from the peer the tree names takes it from everyone |
| `MacTable.SightAgain` | app/src/main/jni/badvpn/client/FrameDecider.c:75-81 | the branch for an address the peer has: tree and lists still agree |
| `MacTable.Disassociate` | app/src/main/jni/badvpn/client/FrameDecider.c:83-87 | the branch for an address of another peer: afterwards the sighting is one of an unknown address |
| `MacTable.SightFree` | app/src/main/jni/badvpn/client/FrameDecider.c:89-117 | the branch with a free entry |
| `MacTable.SightFull` | app/src/main/jni/badvpn/client/FrameDecider.c:98-117 | the branch that reuses the oldest entry |
| `MacTable.ForgetTree` | app/src/main/jni/badvpn/client/FrameDecider.c:650-656 | tree and lists agree once the addresses of a freed peer are pruned |
| `GroupIndex.SigOfBytes` | app/src/main/jni/badvpn/client/FrameDecider.c:120-131 | the signature of a group is its last 23 bits |
| `GroupIndex.SigsAgree` | app/src/main/jni/badvpn/client/FrameDecider.c:120-131 | of the addresses 01-00-5E-x-y-z, the signature of the address equals that of the group if and only if the address is the one of section 6.4 of RFC 1112 up to the top bit of x |
| `GroupIndex.AddValid` | app/src/main/jni/badvpn/client/FrameDecider.c:133-164 | the entry is in the list of its signature once, and there is exactly one master |
| `GroupIndex.RemoveValid` | app/src/main/jni/badvpn/client/FrameDecider.c:166-197 | removing any entry, the master included, keeps exactly one master per signature in use and none otherwise |
| `GroupIndex.OncePerEntry` | app/src/main/jni/badvpn/client/FrameDecider.c:481-496 | a multicast frame goes to each peer as many times as the peer has entries with the signature of the frame |
| `FrameDecider.LeaveOk` | app/src/main/jni/badvpn/client/FrameDecider.c:254-279 | removing an entry keeps lists, timers and index consistent |
| `FrameDecider.JoinOk` | app/src/main/jni/badvpn/client/FrameDecider.c:199-252 | joining keeps them consistent in all three cases |
| `FrameDecider.JoinMeans` | app/src/main/jni/badvpn/client/FrameDecider.c:199-252 | after a join the peer is in the group with the new end time, and of all other entries only the oldest of that peer can be gone, if it had none free; the others keep their times |
| `FrameDecider.LeaveAllOk` | app/src/main/jni/badvpn/client/FrameDecider.c:639-648 | the loop leaves all groups of the peer and no others, and the timers of the others keep their end times |
| `FrameDecider.DropPeerOk` | app/src/main/jni/badvpn/client/FrameDecider.c:626-669 | a peer that goes touches neither the groups nor the timers of others |
| `FrameDecider.StepValid` | app/src/main/jni/badvpn/client/FrameDecider.c:69-669 | every operation keeps the invariant |
| `FrameDecider.EveryRun` | app/src/main/jni/badvpn/client/FrameDecider.c:69-669 | in every reachable state each signature in use has exactly one master, and a multicast frame goes to each peer as many times as it has entries with the signature |
| `FrameDecider.TwoGroupsTwoFrames` | app/src/main/jni/badvpn/client/FrameDecider.c:481-496 | a run in which a peer joins 224.0.0.1 and 225.0.0.1, which share a signature, and then gets a frame for either of them twice |
| `Recency.AfterOrdered` | app/src/main/jni/badvpn/client/FrameDecider.c:69-118 | after any history of uses and removals a capped list is ordered by last use |
| `Recency.MadeRoom` | app/src/main/jni/badvpn/client/FrameDecider.c:89-117 | what was used, was not taken away and is gone was last used before everything that is listed |
| `Recency.SightIsUse` | app/src/main/jni/badvpn/client/FrameDecider.c:69-118 | a sighting is such a use for the peer and a removal for all others |
| `Recency.JoinIsUse` | app/src/main/jni/badvpn/client/FrameDecider.c:199-252 | a report of a group is such a use |
| `Recency.LeaveIsDrop` | app/src/main/jni/badvpn/client/FrameDecider.c:254-279 | an expiry is such a removal |
| `Recency.ListsOfRun` | app/src/main/jni/badvpn/client/FrameDecider.c:69-279 | in every run the addresses and the groups of a peer are exactly what its history of uses and removals since its creation leaves |
| `Recency.OldestAddressGoes` | app/src/main/jni/badvpn/client/FrameDecider.c:89-117 | in every run the addresses of a peer are in the order they were last seen, and an address that made room was not seen for longer than every address that is known |
| `Recency.OldestGroupGoes` | app/src/main/jni/badvpn/client/FrameDecider.c:211-230 | the same for groups and reports |
| `Recency.OwnsIffSeenLast` | app/src/main/jni/badvpn/client/FrameDecider.c:498-504 | in every run a peer owns an address, and so gets its frames alone, if and only if the address was last seen from it since it was created and not before all the addresses it has |
| `FrameDestinations.ListedIffRecent` | app/src/main/jni/badvpn/client/FrameDecider.c:69-118 | told by the history of one list alone: x is listed if and only if it was used, was not taken away, and since its last use there were never as many others used after it as the list has room for |
| `FrameDestinations.PeersExist` | app/src/main/jni/badvpn/client/FrameDecider.c:558-669 | the peers are those that were made and have not gone |
| `FrameDestinations.OwnsIffHas` | app/src/main/jni/badvpn/client/FrameDecider.c:69-118 | in every run, told by the events alone: a peer has an address if and only if it was last seen from it since the peer was made, and at no time since were as many addresses of the peer seen after it as it has room for |
| `FrameDestinations.UsedIffIsIn` | app/src/main/jni/badvpn/client/FrameDecider.c:199-279 | the same for the groups of a peer, which are used by reports and taken away when they expire |
| `FrameDestinations.FloodedOnce` | app/src/main/jni/badvpn/client/FrameDecider.c:471-508 | in every run, a broadcast, an IGMP frame, and a frame for an address that no peer has, go exactly once to each peer there is, and to nobody else |
| `FrameDestinations.SentToOwner` | app/src/main/jni/badvpn/client/FrameDecider.c:496-503 | in every run, any other frame for an address that a peer has goes to exactly that peer, from which it was last seen, and no other peer has it |
| `FrameDestinations.SentToMembers` | app/src/main/jni/badvpn/client/FrameDecider.c:478-494 | in every run, a multicast frame goes to a peer exactly once for each of its groups with the signature of the frame |
| `FrameDestinations.EndsInTime` | app/src/main/jni/badvpn/client/FrameDecider.c:199-314 | in every run, the timer of a membership is set to the membership interval after the last report, or to the last member query time after a later query for the group if that is sooner |
| `Decisions.JumpedLeft` | app/src/main/jni/badvpn/structure/LinkedList3.h:230-243 | when an entry goes, the entries a multicast decision has to come are the same without it if and only if the iterator is not detached at that entry |
| `Decisions.AddedLeft` | app/src/main/jni/badvpn/client/FrameDecider.c:133-164 | an entry added meanwhile comes right behind the master of its signature if the master is to come, and not at all otherwise |
| `Decisions.JoinedLeft` | app/src/main/jni/badvpn/client/FrameDecider.c:199-252 | both for a join, with the entry that makes room |
| `Decisions.FreedMulticast` | app/src/main/jni/badvpn/client/FrameDecider.c:639-648 | freeing a peer entry by entry leaves the entries of the others to come, in order, unless the iterator is detached at one of the peer |
| `Decisions.FreedRemaining` | app/src/main/jni/badvpn/client/FrameDecider.c:626-669 | for every decision under way: after a peer is freed the destinations to come are the same without it, and what the decision stands at still exists, if and only if the iterator is not detached at an entry of the peer |
| `Decisions.ChosenRemaining` | app/src/main/jni/badvpn/client/FrameDecider.c:469-510 | a new decision has exactly the destinations of the frame to come |
| `Decisions.NewFrame` | app/src/main/jni/badvpn/client/FrameDecider.c:361-382 | a frame that comes while a multicast decision is under way changes nothing but that the iterator is detached; otherwise what was to come is given up, and the destinations of the frame are to come, or none if it is too short |
| `Decisions.AskedRemaining` | app/src/main/jni/badvpn/client/FrameDecider.c:512-556 | destinations come one at a time, in order, and then the decision is over |
| `Decisions.DestinationsExist` | app/src/main/jni/badvpn/client/FrameDecider.c:361-669 | in every run in which no frame interrupts a multicast decision, whatever peers and entries come and go between the calls, the next destination can be asked for and all destinations to come are existing peers |
| `Decisions.InterruptedDecision` | app/src/main/jni/badvpn/client/FrameDecider.c:374-376 | a run in which a frame interrupts a multicast decision and a peer that was freed afterwards is still the next destination |
| `FrameDeciderObject.Relinked` | app/src/main/jni/badvpn/structure/LinkedList3.h:204-243 | changing the links of the entries of one signature leaves the lists of all other signatures linked |
| `FrameDeciderObject.FrameDecider.constructor` | app/src/main/jni/badvpn/client/FrameDecider.c:323-351 | no peers and no decision |
| `FrameDeciderObject.FrameDecider.AddMacToPeer` | app/src/main/jni/badvpn/client/FrameDecider.c:69-118 | tree, used and free lists together refine the sighting |
| `FrameDeciderObject.FrameDecider.AddToMulticast` | app/src/main/jni/badvpn/client/FrameDecider.c:133-164 | on tree, master flags and links: a valid index of the used entries becomes one of them and the new entry, in the place the specification says |
| `FrameDeciderObject.FrameDecider.RemoveFromMulticast` | app/src/main/jni/badvpn/client/FrameDecider.c:166-197 | a valid index becomes one without the entry, with another master if it was the master, and an attached iterator at the entry is at the next one |
| `FrameDeciderObject.FrameDecider.FreeNode` | app/src/main/jni/badvpn/structure/LinkedList3.h:230-243 | the iterator jumps by the links before the node is unlinked, and lands where the sequence says |
| `FrameDeciderObject.FrameDecider.AddGroupToPeer` | app/src/main/jni/badvpn/client/FrameDecider.c:199-252 | refines the join with the membership interval, for the tables and for a decision under way |
| `FrameDeciderObject.FrameDecider.RemoveGroupEntry` | app/src/main/jni/badvpn/client/FrameDecider.c:254-279 | refines the leave for both, and the entry is free again |
| `FrameDeciderObject.FrameDecider.LowerGroupTimersToLmqt` | app/src/main/jni/badvpn/client/FrameDecider.c:281-314 | walking the links of one signature lowers the timers of all entries of the group, of no others, and raises none |
| `FrameDeciderObject.FrameDecider.FrameDeciderPeerInit` | app/src/main/jni/badvpn/client/FrameDecider.c:558-624 | a new peer has only free entries; a flood that is not at its end will reach it too, and nothing else to come changes |
| `FrameDeciderObject.FrameDecider.FrameDeciderPeerFree` | app/src/main/jni/badvpn/client/FrameDecider.c:626-669 | the peer is in no list, tree or index; the destinations to come lose exactly that peer if and only if the iterator is not detached at one of its entries |
| `FrameDeciderObject.FrameDecider.AnalyzeAndDecide` | app/src/main/jni/badvpn/client/FrameDecider.c:361-510 | unless a multicast decision is under way, exactly the destinations of the frame are to come; otherwise nothing is decided and the iterator is detached |
| `FrameDeciderObject.FrameDecider.Choose` | app/src/main/jni/badvpn/client/FrameDecider.c:469-510 | finds through trees and links the decision of the specification, whose destinations are, in order, those that FloodedOnce, SentToOwner and SentToMembers tell |
| `FrameDeciderObject.FrameDecider.NextDestination` | app/src/main/jni/badvpn/client/FrameDecider.c:512-556 | hands out the next destination and moves on by the links, and ends the decision after the last |
| `FrameDeciderObject.FrameDecider.Drain` | app/src/main/jni/badvpn/client/client.c:2674-2681 | asking until there is no more gives all destinations to come, in order, and leaves no decision |
| `FrameDeciderObject.FrameDecider.DeviceFrame` | app/src/main/jni/badvpn/client/client.c:2666-2682 | the loop of the client sends a frame to exactly its destinations, in order, and leaves no decision |
| `FrameDeciderObject.FrameDecider.HandleInit` | app/src/main/jni/badvpn/client/FrameDecider.c:558-624 | the event of a run, with no decision before and after |
| `FrameDeciderObject.FrameDecider.HandleFree` | app/src/main/jni/badvpn/client/FrameDecider.c:626-669 | the event of a run, with no decision before and after |
| `FrameDeciderObject.FrameDecider.HandleSeen` | app/src/main/jni/badvpn/client/FrameDecider.c:671-690 | the event of a run, with no decision before and after |
| `FrameDeciderObject.FrameDecider.HandleReport` | app/src/main/jni/badvpn/client/FrameDecider.c:671-795 | the event of a run, with no decision before and after |
| `FrameDeciderObject.FrameDecider.HandleExpire` | app/src/main/jni/badvpn/client/FrameDecider.c:316-321 | the event of a run, with no decision before and after |
| `FrameDeciderObject.FrameDecider.HandleAll` | app/src/main/jni/badvpn/client/client.c:2666-2682 | every run of the model is a run of the object: it ends in the state of the run, every frame was sent to exactly its destinations, and none ever met a decision under way, so the early return is never taken |
| `BProto.LeRoundTrip` | app/src/main/jni/badvpn/bproto/BProto.h:48-83 | little-endian numbers of any width are read back |
| `BProto.ValueRoundTrip` | app/src/main/jni/badvpn/bproto_generator/bproto_functions.php:342-419 | every value of every type is read back from its payload |
| `BProto.UsedIsSizes` | app/src/main/jni/badvpn/bproto_generator/bproto_functions.php:177-189 | the bytes used are the sum of the SIZE macros, for every description and sequence of calls |
| `BProto.Find` | app/src/main/jni/badvpn/bproto_generator/bproto_functions.php:470-575 | the parser picks the first entry of the description with the id among those of the same switch case |
| `BProto.FirstOfEntry` | app/src/main/jni/badvpn/bproto_generator/bproto_functions.php:454-575 | an entry that was written is read as itself, whatever follows |
| `BProto.RoundTrip` | app/src/main/jni/badvpn/bproto_generator/bproto_functions.php:342-610 | for every message description and every sequence of calls, what was written parses as exactly those calls in order |
| `BProto.OccurrencesWritten` | app/src/main/jni/badvpn/bproto_generator/bproto_functions.php:642-759 | the occurrences of each entry carry exactly the values written for it, in order |
| `BProto.WrittenIsAccepted` | app/src/main/jni/badvpn/bproto_generator/bproto_functions.php:342-610 | for every description and every calls that meet the cardinality assertions, the parser accepts, each entry has exactly its values in order, and the length is the sum of the SIZE macros |
| `BProto.LeBytesAt` | app/src/main/jni/badvpn/bproto_generator/bproto_functions.php:354-386 | byte k of a number is its digit k to the base 256, the lowest first |
| `BProto.EntryLayout` | app/src/main/jni/badvpn/bproto_generator/bproto_functions.php:354-397 | the bytes of an entry: id and type in two bytes each, the length of data in four, all little-endian, then the payload; the type codes are numbers 1 to 4, data 5 and data of fixed length 6 |
| `BProto.AcceptsMeans` | app/src/main/jni/badvpn/bproto_generator/bproto_functions.php:580-610 | a message is accepted if and only if it is made of entries of the description, each required one is there, and none that is not repeated is there twice |
| `BProtoAccepted.ItemsAreWritten` | app/src/main/jni/badvpn/bproto_generator/bproto_functions.php:454-575 | a buffer that is made of entries of the description is exactly what some calls of the writer write |
| `BProtoAccepted.AcceptedIffWritten` | app/src/main/jni/badvpn/bproto_generator/bproto_functions.php:421-610 | for every description, the parser accepts exactly the buffers that calls which meet the cardinality asserts can write |
| `BProtoPositions.ItemsAt` | app/src/main/jni/badvpn/bproto_generator/bproto_functions.php:454-610 | every entry is found at its byte offset |
| `BProtoPositions.TrackedNext` | app/src/main/jni/badvpn/bproto_generator/bproto_functions.php:470-575 | the start and span fields always run from the first to behind the last occurrence |
| `BProtoPositions.StartPositioned` | app/src/main/jni/badvpn/bproto_generator/bproto_functions.php:421-610 | after initialisation each entry stands at its first occurrence with all of them to come |
| `BProtoPositions.AtEndIff` | app/src/main/jni/badvpn/bproto_generator/bproto_functions.php:612-637 | the position is at the end of the span if and only if no occurrence is left |
| `BProtoPositions.StepPositioned` | app/src/main/jni/badvpn/bproto_generator/bproto_functions.php:642-759 | a getter before the end of its span always finds a whole entry within it |
| `BProtoObject.Writer.constructor` | app/src/main/jni/badvpn/bproto_generator/bproto_functions.php:303-318 | nothing written |
| `BProtoObject.Writer.Add` | app/src/main/jni/badvpn/bproto_generator/bproto_functions.php:342-419 | the buffer holds the encoding of all calls including this one |
| `BProtoObject.Writer.Finish` | app/src/main/jni/badvpn/bproto_generator/bproto_functions.php:320-338 | the length is the sum of the SIZE macros and the parser will accept the buffer |
| `BProtoObject.Parser.Init` | app/src/main/jni/badvpn/bproto_generator/bproto_functions.php:421-610 | accepts a buffer if and only if it parses entirely by the description with all cardinalities met, and then every entry has all its occurrences to read |
| `BProtoObject.Parser.Scan` | app/src/main/jni/badvpn/bproto_generator/bproto_functions.php:454-575 | the scan succeeds if and only if the buffer parses entirely, and records where each entry starts and ends |
| `BProtoObject.Parser.CheckCounts` | app/src/main/jni/badvpn/bproto_generator/bproto_functions.php:580-605 | decides exactly the cardinality of every entry |
| `BProtoObject.Parser.Get` | app/src/main/jni/badvpn/bproto_generator/bproto_functions.php:642-759 | returns the next value of the entry and consumes it, fails exactly when none is left, and moves no other entry |
| `BProtoObject.Parser.Search` | app/src/main/jni/badvpn/bproto_generator/bproto_functions.php:654-757 | the loop skips other entries, and each of its assertions holds |
| `BProtoObject.Parser.Reset` | app/src/main/jni/badvpn/bproto_generator/bproto_functions.php:761-764 | the entry can be read again from its first occurrence |
| `BProtoObject.Parser.Forward` | app/src/main/jni/badvpn/bproto_generator/bproto_functions.php:766-769 | nothing of the entry is left |
| `BProtoObject.Parser.GotEverything` | app/src/main/jni/badvpn/bproto_generator/bproto_functions.php:612-637 | true if and only if nothing of any entry is left |
| `PacketProto.EncodeNext` | app/src/main/jni/badvpn/flow/PacketProtoEncoder.c:51-64 | a stream grows by the encoding of one packet |
| `PacketProto.PacketsOfEncoded` | app/src/main/jni/badvpn/flow/PacketProtoDecoder.c:46-105 | a stream of encoded packets is cut into exactly those packets |
| `PacketProto.FirstIsEncoded` | app/src/main/jni/badvpn/flow/PacketProtoDecoder.c:46-105 | conversely, a packet is only found where an encoded packet is |
| `PacketProto.SentIsAll` | app/src/main/jni/badvpn/flow/PacketProtoDecoder.c:46-105 | the packets of a stream are uniquely determined |
| `PacketProto.PartOfStream` | app/src/main/jni/badvpn/flow/PacketProtoDecoder.c:46-105 | of any prefix of a stream exactly the whole packets come out, and no error is ever raised on it |
| `PacketProto.PacketsSplit` | app/src/main/jni/badvpn/flow/PacketProtoDecoder.c:46-119 | receiving in two parts gives the packets of the whole |
| `PacketProto.AnyCut` | app/src/main/jni/badvpn/flow/PacketProtoDecoder.c:46-119 | however the stream is cut into receives, exactly the encoded packets come out, in order |
| `PacketProto.StartsWithPacket` | app/src/main/jni/badvpn/flow/PacketProtoDecoder.c:46-105 | a buffer starts with a packet if and only if it starts with the encoding of the packet |
| `PacketProto.MayBecomePacket` | app/src/main/jni/badvpn/flow/PacketProtoDecoder.c:46-105 | more is waited for if and only if the header is not whole or the buffer is the start of the encoding of some packet within the MTU |
| `PacketProto.GivenUpIff` | app/src/main/jni/badvpn/flow/PacketProtoDecoder.c:46-105 | once the next header is whole, a stream is given up as too large if and only if it is not the start of the encoding of any packets within the MTU |
| `PacketProtoObject.PacketProtoDecoder.constructor` | app/src/main/jni/badvpn/flow/PacketProtoDecoder.c:130-166 | an empty buffer with a receive outstanding, and the MTU limited to what the header can say |
| `PacketProtoObject.PacketProtoDecoder.SentExactly` | app/src/main/jni/badvpn/flow/PacketProtoDecoder.c:46-105 | while it waits, the packets sent on so far are exactly those of all bytes received, and the buffer holds the rest |
| `PacketProtoObject.PacketProtoDecoder.ProcessData` | app/src/main/jni/badvpn/flow/PacketProtoDecoder.c:46-105 | sends the next whole packet, or waits for more with room in the buffer, or reports an error and forgets everything, exactly as the stream says |
| `PacketProtoObject.PacketProtoDecoder.WrapAround` | app/src/main/jni/badvpn/flow/PacketProtoDecoder.c:89-95 | moving the data to the start of the buffer keeps its contents and makes room |
| `PacketProtoObject.PacketProtoDecoder.InputHandlerDone` | app/src/main/jni/badvpn/flow/PacketProtoDecoder.c:107-119 | the same for the buffered data with the received data behind it |
| `PacketProtoObject.PacketProtoDecoder.OutputHandlerDone` | app/src/main/jni/badvpn/flow/PacketProtoDecoder.c:121-128 | the same after a packet was sent |
| `PacketProtoObject.PacketProtoDecoder.Reset` | app/src/main/jni/badvpn/flow/PacketProtoDecoder.c:176-182 | the buffered data is dropped, and the outstanding operation stays valid |
| `PacketProtoObject.PacketProtoEncoder.constructor` | app/src/main/jni/badvpn/flow/PacketProtoEncoder.c:66-86 | no output buffer |
| `PacketProtoObject.PacketProtoEncoder.OutputHandlerRecv` | app/src/main/jni/badvpn/flow/PacketProtoEncoder.c:40-49 | the input is given the whole buffer behind the header |
| `PacketProtoObject.PacketProtoEncoder.InputHandlerDone` | app/src/main/jni/badvpn/flow/PacketProtoEncoder.c:51-64 | the header in front of the payload in place makes the buffer the encoding of the packet |
| `PacketProtoObject.EncodePacket` | app/src/main/jni/badvpn/flow/PacketProtoEncoder.c:40-64 | a packet that the input puts where it is told comes out encoded |
| `PacketProtoObject.DecodeStream` | app/src/main/jni/badvpn/flow/PacketProtoDecoder.c:44-138 | the decoder object passes on exactly the packets that were encoded, with no error, however their stream is cut |
| `DhcpClient.LogNext` | app/src/main/jni/badvpn/dhcpclient/BDHCPClientCore.c:61-71 | how one more report changes what the user was told and how often each xid was used |
| `DhcpClient.StartProcessOk` | app/src/main/jni/badvpn/dhcpclient/BDHCPClientCore.c:565-589 | an xid is taken anew when forced or used up, and then no xid is over its limit |
| `DhcpClient.NakMeans` | app/src/main/jni/badvpn/dhcpclient/BDHCPClientCore.c:406-464 | a NAK of the chosen server, when one may come, leaves the user told down, by one report if it was up and by none otherwise; any other NAK changes nothing |
| `DhcpClient.OfferMeans` | app/src/main/jni/badvpn/dhcpclient/BDHCPClientCore.c:478-499 | an OFFER changes something exactly after a discover; then its address and server are the chosen ones, and a request for them is sent unless a message is being sent; it is never reported, and changes nothing while the client is up |
| `DhcpClient.AckMeans` | app/src/main/jni/badvpn/dhcpclient/BDHCPClientCore.c:500-562 | an ACK of the chosen address and server leaves the user told up with that address, by one report if it was not, and the lease runs from now; any other ACK changes nothing |
| `DhcpClient.StartInv` | app/src/main/jni/badvpn/dhcpclient/BDHCPClientCore.c:685-791 | the invariant holds at the start |
| `DhcpClient.NakInv` | app/src/main/jni/badvpn/dhcpclient/BDHCPClientCore.c:406-464 | a NAK in any state keeps it, and the user is told down exactly if it was up |
| `DhcpClient.AckInv` | app/src/main/jni/badvpn/dhcpclient/BDHCPClientCore.c:500-562 | an ACK, first or renewal, keeps it with the new lease |
| `DhcpClient.ReceiveInv` | app/src/main/jni/badvpn/dhcpclient/BDHCPClientCore.c:208-562 | so does every message in every state |
| `DhcpClient.LeaseTimerInv` | app/src/main/jni/badvpn/dhcpclient/BDHCPClientCore.c:662-678 | so does the end of the lease |
| `DhcpClient.RequestTimerInv` | app/src/main/jni/badvpn/dhcpclient/BDHCPClientCore.c:601-626 | so does a request that is sent again or given up |
| `DhcpClient.ResetTimerInv` | app/src/main/jni/badvpn/dhcpclient/BDHCPClientCore.c:591-599 | so does a restart |
| `DhcpClient.StepInv` | app/src/main/jni/badvpn/dhcpclient/BDHCPClientCore.c:200-678 | so does every handler; each timer handler finds the state it asserts |
| `DhcpClient.EveryRun` | app/src/main/jni/badvpn/dhcpclient/BDHCPClientCore.c:200-678 | in every run the running timers are exactly those of the state; the user is told up and down in turns, with the address it has; no xid serves more than 8 discovers; and the client is up no later than the lease after the last ACK, plus the lateness of the two timers |
| `DhcpHistory.OthersIgnored` | app/src/main/jni/badvpn/dhcpclient/BDHCPClientCore.c:208-562 | a message does something if and only if its xid is the current one and the client waits for it: an OFFER with address, lease and mask after a discover, an ACK of the address and server chosen, a NAK of the server chosen |
| `DhcpHistory.LastSets` | app/src/main/jni/badvpn/dhcpclient/BDHCPClientCore.c:200-678 | in every run, the phase and the time of its timer are those that the last event that counted gives, with the timeouts in milliseconds; a request is given up with the fourth timer |
| `DhcpHistory.LastOfferKept` | app/src/main/jni/badvpn/dhcpclient/BDHCPClientCore.c:478-499 | in every run, while a request is out or the client is up, address and server are those of the last OFFER that counted since the last discover; after a discover there is none |
| `DhcpHistory.OfferThenAck` | app/src/main/jni/badvpn/dhcpclient/BDHCPClientCore.c:478-562 | in every run, an OFFER that counts and later its ACK bring the client up with the address offered, whatever happens between them but the NAK of the OFFER, the fourth request timer or the end of a lease |
| `DhcpHistory.UpByAck` | app/src/main/jni/badvpn/dhcpclient/BDHCPClientCore.c:500-562 | a client that is down goes up if and only if an ACK counts |
| `DhcpHistory.DownByNakOrTime` | app/src/main/jni/badvpn/dhcpclient/BDHCPClientCore.c:406-678 | a client that is up goes down if and only if a NAK counts or the lease timer fires, which it does no sooner than the lease after the last ACK; otherwise the address stays |
| `DhcpHistory.SendsOffered` | app/src/main/jni/badvpn/dhcpclient/BDHCPClientCore.c:73-198 | in every run, a timer or an OFFER that counts sends exactly one message unless one is being sent, and nothing else does: a discover if there is no offer, otherwise a request for the address offered, which names the server until the client is up |
| `DhcpHistory.XidOfRun` | app/src/main/jni/badvpn/dhcpclient/BDHCPClientCore.c:565-599 | in every run, the xid is new after a NAK, after a lease and after eight discovers with one, and otherwise the one before |
| `DhcpClientObject.BDHCPClientCore.constructor` | app/src/main/jni/badvpn/dhcpclient/BDHCPClientCore.c:685-791 | the client starts with a first discover |
| `DhcpClientObject.BDHCPClientCore.RecvHandlerDone` | app/src/main/jni/badvpn/dhcpclient/BDHCPClientCore.c:208-562 | a parsed message keeps the invariant and has the effect of the specification |
| `DhcpClientObject.BDHCPClientCore.ResetTimerHandler` | app/src/main/jni/badvpn/dhcpclient/BDHCPClientCore.c:591-599 | refines the reset timer; its assertion holds |
| `DhcpClientObject.BDHCPClientCore.RequestTimerHandler` | app/src/main/jni/badvpn/dhcpclient/BDHCPClientCore.c:601-626 | refines the request timer; its assertions hold |
| `DhcpClientObject.BDHCPClientCore.RenewTimerHandler` | app/src/main/jni/badvpn/dhcpclient/BDHCPClientCore.c:628-646 | refines the renew timer; its assertion holds |
| `DhcpClientObject.BDHCPClientCore.RenewRequestTimerHandler` | app/src/main/jni/badvpn/dhcpclient/BDHCPClientCore.c:648-660 | refines the renew-request timer; its assertion holds |
| `DhcpClientObject.BDHCPClientCore.LeaseTimerHandler` | app/src/main/jni/badvpn/dhcpclient/BDHCPClientCore.c:662-678 | refines the lease timer; its assertion holds |
| `DhcpClientObject.BDHCPClientCore.GetClientIP` | app/src/main/jni/badvpn/dhcpclient/BDHCPClientCore.c:814-820 | the address is the one the user was last told up with |
| `DhcpClientObject.BDHCPClientCore.HandleAll` | app/src/main/jni/badvpn/dhcpclient/BDHCPClientCore.c:200-678 | every run of the model is a run of the object |

## Left out

- Encryption, hashing and one-time passwords of SPProto: cryptographic libraries are not part of this model.
- The server, tun2socks, NCD and lwIP: other programs, with properties of their own.
- Event loop, sockets and TLS: input and output enter as handler calls with their data.
- PacketPassFairQueue: the freeing mode that suspends scheduling, the cancel request and the busy handler, which only add easy members.
- FairQueueIdle.IdleWakeUp: for an MTU of at least 1, because with an MTU of 0 all packets cost the same and the gap between two flows only moves in steps of that cost.
- DataProto: keep-alive packets, the up/down report of a sink and the contents of route buffers.
- DPRelay: the inactivity timer, whose handler only frees the flow, which is modelled.
- FragmentProtoAssembler: allocation failure at creation, and the payload that the output reads while a frame is sent.
- FrameDeciderObject.FrameDecider.AnalyzeAndDecide: takes the destination address, whether the frame is IGMP and the queried group, because decoding Ethernet, IPv4 and IGMP headers is only field extraction.
- FrameDeciderObject.FrameDecider.NextDestination: demands that what the decision stands at still exists, because otherwise the code follows links of an entry that is no longer in a list; when that happens is stated exactly by FreedRemaining, JumpedLeft and JoinedLeft.
- RelayNetworkObject.Client and its router record the calls they make to DataProto in a ghost field instead of holding a DataProto object; that DataProto does these calls is stated on values by NextTogether and NoCallFails.
- RelayNetworkObject.Client.GetFreshLink: covers the link set-up that peer_bind_one_address and peer_connect share, not the exchange of addresses and keys.
- RelayNetworkObject.Client.PeerAdd: covers the relay-related fields of a peer, not its chat, server flow and certificates.
- BProto: the tokenizer and the text of the generated C; the descriptions and what the generated code does are modelled.
- FragmentRoundTrip.RoundTrip: that fewer frames come out after a loss is stated until the frame id comes round, because after that it is false, as IdComesRound shows; that not every frame comes out on time is stated without a bound.
- RelayFlowsObject.DPRelayRouter.SubmitFrame: demands that no frame waits to be routed, which the code asserts; that the buffer writer takes one frame at a time is not modelled.
- DhcpClientObject.BDHCPClientCore.RecvHandlerDone: takes a message whose options were read; the byte layout, checksums and the subnet, router and DNS data are not modelled.
- DhcpClientObject.BDHCPClientCore.SendRequestMessage: models which address is requested and from which server, not the other options of the message.

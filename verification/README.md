# Wozzits engine: a verified model of its queues, caches and frame algorithms

This project states in Dafny what the concurrent and the frame-level core of the Wozzits engine is
for, and proves it. `dafny verify dfyconfig.toml` checks everything.

| files | subject |
|---|---|
| `RingModel`, `RingSafety`, `RingTheorems`, `RingWrapping`, `RingWrappedRuns`, `RingBuffer` | the bounded multi-producer ring |
| `LinkedModel`, `LinkedRecord`, `LinkedSafety`, `LinkedTheorems`, `LinkedQueue` | the linked multi-producer queue |
| `LoggerModel`, `LoggerSafety`, `LoggerTheorems`, `LoggerStop`, `LoggerWorker` | the logging thread, built on the linked queue |
| `SpscModel`, `SpscTheorems`, `SpscQueue`, `Bits` | the single-producer, single-consumer ring |
| `TransformCache`, `TransformRuns` | the version-stamped world matrices |
| `Buffers`, `Pipeline`, `Algorithms` | bounded output buffers, one-pass pipelines and loops over ranges |
| `FrameBuilder`, `SortKeys`, `StableSorting` | cull, classify, sort, bin |
| `InputEvents`, `InputBuilding`, `EngineLoop`, `EngineTheorems`, `EngineQueue` | input snapshots and the frame loop on its event queue |
| `Paths`, `PathNormalForm`, `PathLaws` | path strings |
| `Common`, `Claims` | shared values and arithmetic |

How the concurrent parts are built. Each queue, and the logger, is a step relation: one step for each
atomic load, store, exchange or compare-exchange and for each plain access to a value, interleaved in
any order (sequential consistency), for any number of threads where the code allows any number. An
inductive invariant is proved step by step, and the theorems hold in every state some run reaches
(`Reachable`). Beside it stands a class with the code's own fields and methods. Every atomic operation
is a method that performs exactly one step; the whole calls (`TryPush`, `TryPop`, `Run`, `Stop`, ...)
string these together with `Interfere` before each, whose contract lets all other threads make any
number of steps of their own. History fields only record what happened: no step's effect on the
program's own state depends on them (`LinkedRecord.HistoryInert` for the queue whose threads also
record their place in the exchange order).

Three places where the code does less than its comments say, each stated as an exact condition:

* Forcing a node stale when its parent changed (`transform_node.cpp:44-49`) has no effect, since the
  version it stores is overwritten at line 62. An edit therefore stays unseen by grandchildren.
  `TransformRuns.LoneEditExactly` says exactly when every later update is right, for scenes of any
  shape; `TransformRuns.GrandparentEditGoesStale` is the shortest failing run.
* The comment "now everything is guaranteed drained" (`logger_worker.cpp:58`), read at the moment
  `join` returns, holds exactly when no push is past its test of `accepting` as `stop` begins:
  `LoggerStop.DrainExactly`. A run in which `join` returns with an event in the queue is
  `LoggerStop.UndrainedStop`.
* A fused map-filter-map stage ends its pipeline, because it pushes straight into the output
  (`pipeline.h:141`). `Algorithms.FusedExactly` says, element by element, when that makes no
  difference; `Pipeline.ComposesExactly` when a joint pipeline does one part and then the other;
  `Algorithms.FusedInsideLosesStages` is a failing input.

Smaller findings of the same kind: the ring can report "full" with a free cell
(`RingTheorems.SpuriousFull`); of several mouse moves in a frame only the last is reported, with the
wheel turned after it added to `dx` (`InputEvents.Motion`); `normalize` makes a UNC path relative
(`PathLaws.AbsoluteExactly`); `parent_path` undoes `join` except on a bare drive
(`PathLaws.ParentUndoesJoinExactly`).

## Model

| member | source | states |
|---|---|---|
| RingSafety.InvStep | twe/core/queue/mpsc_ring_buffer.h:32-83 | every atomic step of every thread keeps the invariant that ties tickets, cell states and each thread's place in the code |
| RingTheorems.Fifo | twe/core/queue/mpsc_ring_buffer.h:32-76 | in every reachable state the popped values are those of tickets 0, 1, ..., head-1 in order, each thread's in its own order, and tail is at most a capacity ahead of head |
| RingTheorems.NothingLost | twe/core/queue/mpsc_ring_buffer.h:48-73 | every claimed ticket not yet handed out is being filled, waits in its cell, or is in the consumer's hands |
| RingTheorems.SlotsExclusive | twe/core/queue/mpsc_ring_buffer.h:36-53 | a claimed, unpublished ticket owns an Empty cell that no other such ticket shares and the consumer does not touch |
| RingTheorems.PopAnswer | twe/core/queue/mpsc_ring_buffer.h:60-69 | try_pop fails exactly when ticket head is unclaimed or unpublished, and otherwise reads that ticket's value |
| RingTheorems.EmptyAnswer | twe/core/queue/mpsc_ring_buffer.h:78-83 | empty() answering true means head equals tail at the instant tail was loaded |
| RingTheorems.FullAnswer | twe/core/queue/mpsc_ring_buffer.h:36-40 | try_push rejects exactly when full if no pop finished since head was loaded; a full ring always rejects; a spurious rejection implies a pop in between |
| RingTheorems.SpuriousFull | twe/core/queue/mpsc_ring_buffer.h:36-40 | for every capacity some run makes try_push reject with one cell free |
| RingWrapping.DividesExactly | twe/core/queue/mpsc_ring_buffer.h:48-64 | 64-bit counters address the same cells as unbounded ones exactly for capacities that divide 2^64 |
| RingWrapping.StepWraps | twe/core/queue/mpsc_ring_buffer.h:36-48 | while no loaded counter lags by 2^64, the wrapping ring allows the same steps as the unbounded one, with the same effect and the same answers |
| RingWrapping.BehaviourWraps | twe/core/queue/mpsc_ring_buffer.h:32-83 | every unbounded run has its image among the 64-bit ring's runs |
| RingWrappedRuns.RunLifts | twe/core/queue/mpsc_ring_buffer.h:32-83 | every run of the 64-bit ring whose threads never sit on a loaded counter for 2^64 tickets is the image of an unbounded run |
| RingWrappedRuns.Fifo64 | twe/core/queue/mpsc_ring_buffer.h:32-76 | so in every state of such a run popped values are those of tickets 0, 1, 2, ... in order, and head and tail are the true counts modulo 2^64, at most a capacity apart |
| RingWrappedRuns.NothingLost64 | twe/core/queue/mpsc_ring_buffer.h:48-73 | and every claimed value not handed out is being filled, waits in its cell, or is in the consumer's hands |
| RingWrappedRuns.SlotsExclusive64 | twe/core/queue/mpsc_ring_buffer.h:36-53 | and a ticket being filled has an Empty cell for itself |
| RingWrappedRuns.FullAnswer64 | twe/core/queue/mpsc_ring_buffer.h:36-40 | and the wrapped fullness test rejects exactly when full, if no pop finished since head was loaded |
| RingWrappedRuns.PopAnswer64 | twe/core/queue/mpsc_ring_buffer.h:60-69 | and try_pop fails exactly when the next ticket is unclaimed or its push still writing or publishing, and otherwise reads that ticket's value |
| RingWrappedRuns.EmptyAnswer64 | twe/core/queue/mpsc_ring_buffer.h:78-83 | and equal wrapped counters in empty() mean empty as tail is loaded |
| RingWrapping.EventQueueWraps | twe/api/wozzits/event.h:32 | the event queue's capacity 4096 divides 2^64 |
| RingSafety.PublishedLasts | twe/core/queue/mpsc_ring_buffer.h:32-83 | no step of any thread takes back a publication |
| RingBuffer.OthersLeave | twe/core/queue/mpsc_ring_buffer.h:32-83 | whatever steps other threads make, a thread's own place in the code and its tickets are as it left them |
| RingBuffer.MpscRingBuffer.constructor | twe/core/queue/mpsc_ring_buffer.h:94-98 | a new ring is the start state of the step relation |
| RingBuffer.MpscRingBuffer.ExchangeTail | twe/core/queue/mpsc_ring_buffer.h:42-46 | the weak compare-exchange: exactly the claiming step, or no change of the counters |
| RingBuffer.MpscRingBuffer.StoreValue | twe/core/queue/mpsc_ring_buffer.h:51 | the plain write of the value, one step |
| RingBuffer.MpscRingBuffer.StoreReady | twe/core/queue/mpsc_ring_buffer.h:53 | publication, one step |
| RingBuffer.MpscRingBuffer.TryPush | twe/core/queue/mpsc_ring_buffer.h:32-58 | with all others interfering: true claims one ticket for the value; false claims none and implies tail reached the old head plus capacity, and is the answer if the ring was full at the call and nothing was popped since; the loop is lock-free, as every turn in which the exchange fails for a reason is paid for by another thread's claim |
| RingBuffer.MpscRingBuffer.TryPop | twe/core/queue/mpsc_ring_buffer.h:60-76 | with all others interfering: delivers the next ticket's value or nothing, and always delivers one published before the call |
| RingBuffer.MpscRingBuffer.IsEmpty | twe/core/queue/mpsc_ring_buffer.h:78-83 | true implies empty on return; it is true if the ring was empty at the call and nothing was claimed since |
| LinkedSafety.InvStep | twe/core/queue/mpsc_queue.h:47-89 | every step keeps the invariant on chain, pending links, private nodes and ownership |
| LinkedRecord.HistoryInert | twe/core/queue/mpsc_queue.h:47-89 | states that differ only in the record of what happened allow the same steps with the same effect |
| LinkedTheorems.Fifo | twe/core/queue/mpsc_queue.h:47-82 | popped values are always a prefix of the exchange order, each thread's in its own order |
| LinkedTheorems.PopAnswer | twe/core/queue/mpsc_queue.h:69-77 | try_pop fails exactly when nothing is left or the next node's link is still pending, and otherwise takes the next value |
| LinkedTheorems.LiveNodes | twe/core/queue/mpsc_queue.h:47-79 | the live nodes are exactly the dummy, the unpopped, those not yet exchanged in and the one being deleted; nothing dead is ever touched or deleted twice |
| LinkedTheorems.PendingEndsLive | twe/core/queue/mpsc_queue.h:56-79 | while a link is pending, its prev and its node are live and not the ones being deleted |
| LinkedTheorems.ChainSpells | twe/core/queue/mpsc_queue.h:47-82 | following next from head meets a prefix of the unpopped nodes, and all of them exactly when no link is pending |
| LinkedTheorems.ChainValues | twe/core/queue/mpsc_queue.h:47-82 | those nodes hold exactly the values exchanged and not popped |
| LinkedQueue.OthersLeave | twe/core/queue/mpsc_queue.h:47-89 | other threads' steps leave a thread's own standing untouched |
| LinkedQueue.MpscQueue.constructor | twe/core/queue/mpsc_queue.h:26-31 | a new queue is one dummy node |
| LinkedQueue.MpscQueue.ExchangeTail | twe/core/queue/mpsc_queue.h:56 | the exchange, one step |
| LinkedQueue.MpscQueue.StoreLink | twe/core/queue/mpsc_queue.h:57 | the link, one step, on a live node |
| LinkedQueue.MpscQueue.TryPush | twe/core/queue/mpsc_queue.h:47-60 | takes exactly one new place in the exchange order, after the thread's earlier ones |
| LinkedQueue.MpscQueue.TryPop | twe/core/queue/mpsc_queue.h:69-82 | delivers the next value in exchange order, and always does if it was linked before the call |
| LinkedQueue.MpscQueue.IsEmpty | twe/core/queue/mpsc_queue.h:84-89 | true exactly when the next value is missing or its link pending |
| LinkedQueue.MpscQueue.Destroy | twe/core/queue/mpsc_queue.h:33-42 | takes every remaining value in order and leaves no node behind |
| LoggerTheorems.Accounting | twe/src/logging/logger_worker.cpp:109-148 | in_flight is always the pushes counted and not enqueued, plus the queued events, plus the one the worker holds; the callback has seen the exchange order so far |
| LoggerTheorems.NoLostWakeup | twe/src/logging/logger_worker.cpp:117-175 | a thread asleep with in_flight at 0 has the worker on its way to notify_all, and that stays so until the notification wakes it |
| LoggerStop.SleeperCanWake | twe/src/logging/logger_worker.cpp:117-175 | such a sleeper can always be woken without any further push |
| LoggerTheorems.IdleMeansDelivered | twe/src/logging/logger_worker.cpp:169-175 | wait_until_idle leaves exactly on in_flight 0, and then every push counted has reached the callback in order |
| LoggerTheorems.StopDrains | twe/src/logging/logger_worker.cpp:50-60 | a stop begun with no half-way push leaves an empty queue, in_flight 0 and everything reported, from join's return on |
| LoggerStop.DrainExactly | twe/src/logging/logger_worker.cpp:50-60 | as join returns everything is drained under every schedule if and only if no push is past its accepting test as stop begins |
| LoggerStop.UndrainedStop | twe/src/logging/logger_worker.cpp:50-58 | from start, one run lets join return with an event queued and in_flight above 0 at that moment |
| LoggerStop.WorkerFinishes | twe/src/logging/logger_worker.cpp:117-148 | once running is cleared the worker can always run to its end |
| LoggerWorker.OthersLeave | twe/src/logging/logger_worker.cpp:109-175 | other threads' steps leave a thread's own standing untouched |
| LoggerWorker.LoggerWorker.Push | twe/src/logging/logger_worker.cpp:109-115 | enqueues the event once, or not at all if the logger no longer accepts |
| LoggerWorker.LoggerWorker.Run | twe/src/logging/logger_worker.cpp:117-148 | the sink holds exactly what was popped, in exchange order; of the events next in line that were linked at the call none is left, as far as the rounds reach; it ends with running off, and if it does not end, running was on at the call, or it drained an event in each round, or others hold the mutex |
| LoggerWorker.LoggerWorker.WaitUntilIdle | twe/src/logging/logger_worker.cpp:169-175 | on return every event queued before the call has been reported, in order; if it does not return, the mutex was taken or in_flight not 0 at some moment since the call |
| LoggerWorker.LoggerWorker.Stop | twe/src/logging/logger_worker.cpp:50-56 | returns exactly once the worker has exited; if no push was half-way at the call, everything is then drained |
| SpscTheorems.InvStep | twe/core/queue/spsc_queue.h:38-70 | every step keeps the invariant on indices and slot lifetimes |
| SpscTheorems.StepRefines | twe/core/queue/spsc_queue.h:38-64 | every step is a move of a FIFO bounded by capacity-1 or changes nothing; no element is built over a live one or destroyed twice |
| SpscTheorems.AnswersExact | twe/core/queue/spsc_queue.h:43-70 | push fails exactly if full as read_index is loaded; try_pop and the consumer's empty() answer exactly as write_index is loaded, the producer's empty() as read_index was |
| SpscTheorems.LiveSlots | twe/core/queue/spsc_queue.h:46-60 | a slot is live exactly if a queued element, or one half-way in or out, is in it |
| SpscTheorems.MaskedIsMod | twe/core/queue/spsc_queue.h:41-62 | the mask is the remainder for every capacity the constructor accepts |
| Bits.PowerTest | twe/core/queue/spsc_queue.h:22 | the constructor's bit test passes exactly powers of two |
| SpscQueue.Create | twe/core/queue/spsc_queue.h:18-28 | the constructor throws exactly unless the capacity is a power of two |
| SpscQueue.OtherLeaves | twe/core/queue/spsc_queue.h:38-64 | the other side's steps leave a side's own standing untouched |
| SpscQueue.SpscQueue.Push | twe/core/queue/spsc_queue.h:38-50 | appends the value, or fails with capacity-1 elements queued |
| SpscQueue.SpscQueue.TryPop | twe/core/queue/spsc_queue.h:52-64 | takes the oldest element, or fails with none queued |
| SpscQueue.SpscQueue.IsEmpty | twe/core/queue/spsc_queue.h:66-70 | called by the consumer: exact as write_index is loaded |
| SpscQueue.SpscQueue.IsEmptyToProducer | twe/core/queue/spsc_queue.h:66-70 | called by the producer: yes means empty on return, no means not empty at the call |
| TransformCache.UpdateWorldTransform | twe/src/scene/transform_node.cpp:26-63 | the recursive in-place update equals its specification on the whole node array, the overwritten forced store included |
| TransformCache.UpdatedFrame | twe/src/scene/transform_node.cpp:26-63 | an update changes cached fields only, and only of the node and its ancestors |
| TransformCache.UpdatedSettles | twe/src/scene/transform_node.cpp:35-63 | after it no node of the chain would be recomputed again |
| TransformCache.UpdatedRight | twe/src/scene/transform_node.cpp:54-63 | on a coherent scene it makes every cached matrix of the chain the plain product of locals |
| TransformCache.TrustedExactly | twe/src/scene/transform_node.cpp:26-63 | updates give the plain product for every node if and only if the scene is coherent |
| TransformCache.UpdateKeeps | twe/src/scene/transform_node.cpp:26-63 | updates keep the scene coherent |
| TransformCache.UpdateIdempotent | twe/src/scene/transform_node.cpp:26-63 | a second update of the same node changes nothing |
| TransformRuns.SafeEditExactly | twe/src/scene/transform_node.cpp:39-49 | an edit is safe if each node below has its own or its parent's version bumped or would be recomputed anyway, and a visible edit only then |
| TransformRuns.NoGrandchildrenCovered | twe/src/scene/transform_node.cpp:39-49 | edits of nodes without grandchildren are safe |
| TransformRuns.InnerBumpsCovered | twe/src/scene/transform_node.cpp:39-49 | so are edits that also bump every inner node below |
| TransformRuns.LoneEditExactly | twe/src/scene/transform_node.cpp:44-62 | with everything up to date, a visible edit bumping only its node leaves all later updates right if and only if the node has no grandchildren |
| TransformRuns.UpdatesAlwaysRight | twe/src/scene/transform_node.cpp:26-63 | over every run of safe edits and updates, at any depth, each update makes its node and all ancestors equal to the recursive product and leaves the rest alone |
| TransformRuns.GrandparentEditGoesStale | twe/src/scene/transform_node.cpp:44-62 | a three-node run after which an update returns the old product |
| Buffers.Buffer.WrapExisting | twe/core/containers/buffer.h:272-277 | a view on part of somebody else's storage |
| Buffers.Buffer.Push | twe/core/containers/buffer.h:195-206 | appends, or refuses and counts one overflow; no other storage changes |
| Buffers.Buffer.Reset | twe/core/containers/buffer.h:182-185 | forgets the elements and keeps storage and overflow count |
| Buffers.Buffer.Slice | twe/core/containers/buffer.h:300-306 | a full view on that part of the elements |
| Buffers.StoppingOrNot | twe/core/algo/algo.h:57-60 | stopping at the first refusal or not: same contents, and the same overflow count exactly if at most one element is refused |
| Pipeline.ApplyFrom | twe/core/algo/pipeline.h:29-75 | what one element becomes from stage i on, whether it was pushed, and the answer that stops the loop |
| Pipeline.Run | twe/core/algo/pipeline.h:12-20 | one pass appends exactly the stage-by-stage result as far as there is room and counts one overflow if more was left |
| Pipeline.StagedConcat | twe/core/algo/pipeline.h:12-45 | stages treat the parts of an input independently |
| Pipeline.ComposesExactly | twe/core/algo/pipeline.h:77-83 | a joint pipeline does the left and then the right one exactly when the left has no fused stage or the right would change no single element's result |
| Pipeline.EffectiveConcat | twe/core/algo/pipeline.h:77-83 | the right one takes effect as composed if the left has no fused stage, and else not at all |
| Pipeline.EffectiveStep | twe/core/algo/pipeline.h:53-74 | how each kind of stage treats one element, given what the rest does |
| Algorithms.MapMapFuses | twe/core/algo/pipeline.h:101-112 | map then map equals one composed map |
| Algorithms.FilterFilterFuses | twe/core/algo/pipeline.h:114-125 | filter then filter equals one joint filter |
| Algorithms.FusedExactly | twe/core/algo/pipeline.h:127-164 | with any stages around it, the fused stage agrees with the three it replaces on an input exactly when an earlier fused stage cuts both off or later stages leave alone the result of each element that gets through; so always as the last stage |
| Algorithms.FusedInsideLosesStages | twe/core/algo/pipeline.h:134-145 | a stage after the fused one is lost |
| Algorithms.NextTransform | twe/core/algo/next.h:37-47 | the mapped input as far as there is room, stopping at the first refusal |
| Algorithms.NextFilter | twe/core/algo/next.h:57-67 | the filtered input likewise |
| Algorithms.NextMapFilter | twe/core/algo/next.h:109-135 | one loop gives what map and filter in turn give, overflow included |
| Algorithms.AlgoTransform | twe/core/algo/algo.h:51-61 | the mapped input as far as there is room, counting every element dropped |
| Algorithms.AlgoFilter | twe/core/algo/algo.h:114-129 | the filtered input likewise |
| Algorithms.Reduce | twe/core/algo/algo.h:82-94 | the last of a chain of accumulators that begins with init and applies fn once to each element in turn |
| Algorithms.FoldedFirst | twe/core/algo/next.h:75-82 | which is the left fold: the first element is applied first, to init |
| Algorithms.FoldedConcat | twe/core/algo/next.h:75-82 | the left fold over two parts is the fold over both in turn |
| SortKeys.KeyIsSum | twe/core/render/render.h:245-282 | shifts and ors of the masked fields never overlap |
| SortKeys.KeyOrder | twe/core/render/render.h:269-282 | on all arguments, key order is dictionary order of pipe, material and depth, each cut to its field |
| SortKeys.KeyInjective | twe/core/render/render.h:269-282 | fields that fit are recovered: equal keys mean equal fields |
| FrameBuilder.VisibleSpec | twe/core/render/frame.cpp:66-96 | the visible list is exactly the primitives none of the six planes rejects, in index order |
| FrameBuilder.Cull | twe/core/render/frame.cpp:41-97 | fills the buffer with the visible list as far as there is room |
| FrameBuilder.Classify | twe/core/render/frame.cpp:99-153 | one draw per visible primitive, in order, as far as there is room, each with pass mask 1 and the key packed from its pipeline, material and depth, each cut to its field |
| FrameBuilder.Sort | twe/core/render/frame.cpp:155-172 | sorts the draws in place, stably by key |
| StableSorting.SortedSpec | twe/core/render/frame.cpp:162-171 | the sort ascends by key and keeps the order within each key |
| StableSorting.SortedUnique | twe/core/render/frame.cpp:162-171 | which determines it |
| StableSorting.SortedPermutes | twe/core/render/frame.cpp:162-171 | and loses and repeats nothing |
| FrameBuilder.KeysDecide | twe/core/render/render.h:269-282 | comparing keys, then indices, is comparing pipe, material, depth, then indices |
| FrameBuilder.FrameOrder | twe/core/render/frame.cpp:41-172 | cull, classify and sort yield exactly the visible primitives that fit, each once, by pipe, material, depth and index |
| FrameBuilder.Bin | twe/core/render/frame.cpp:181-229 | the running variables compute the runs of equal pass masks |
| FrameBuilder.RunsTile | twe/core/render/frame.cpp:197-228 | those runs tile the draws: contiguous, nonempty, one mask each, neighbours differing |
| FrameBuilder.TilesUnique | twe/core/render/frame.cpp:197-228 | there is no other such tiling |
| FrameBuilder.OnePassEach | twe/core/render/frame.cpp:197-228 | each draw lies in exactly one pass, of its own mask |
| FrameBuilder.BuildFrame | twe/core/render/frame.h:23-45 | the four phases in turn, for buffers of any capacity: draws in order, and one pass over all of them if there are any and it has room |
| InputBuilding.BuildInput | twe/src/input/input.cpp:5-82 | the event loop over the arrays computes the fold of the events over the previous snapshot with its edges cleared |
| InputBuilding.InputState.Handle | twe/src/input/input.cpp:29-77 | one event's effect on the arrays and nothing else |
| InputBuilding.InputState.StartFrame | twe/src/input/input.cpp:15-22 | clears pressed, released and motion, keeps the rest |
| InputBuilding.InputState.Assign | twe/src/input/input.cpp:13 | copies the whole struct, array by array |
| InputEvents.FreshFields | twe/api/wozzits/input.h:45-99 | the default snapshot, field by field: all off and 0, the window in focus |
| InputEvents.BuiltKeeps | twe/src/input/input.cpp:13-82 | the mouse's x and y and the controller are those of the previous snapshot, whatever the events |
| InputEvents.FrameMeaning | twe/src/input/input.cpp:25-57 | the flags are exactly the turns of the frame; held after it is left on by it or held before and not turned off; every change has its flag |
| InputEvents.Motion | twe/src/input/input.cpp:34-60 | dx and dy are the last mouse move's, plus the wheel after it |
| InputEvents.WindowSize | twe/src/input/input.cpp:62-65 | the size is the last resize's, or as before |
| InputEvents.WindowFocus | twe/src/input/input.cpp:67-73 | the focus is what the last focus event says, or as before |
| InputEvents.OnlyInputCounts | twe/src/input/input.cpp:29-30 | events of any other category might as well not be there |
| InputEvents.HeldOverFrames | twe/src/input/input.cpp:13-82 | what is held after any frames is what the concatenated events leave held |
| InputEvents.SplitsAgree | twe/src/input/input.cpp:13-82 | so it does not depend on where frames cut the stream |
| EngineLoop.Run | twe/src/engine/engine.cpp:34-81 | the loop makes one frame for each turn until running is off, as specified frame by frame |
| EngineLoop.MakeFrame | twe/src/engine/engine.cpp:44-78 | one turn: its index, interval and input |
| EngineTheorems.Intervals | twe/src/engine/engine.cpp:44-53 | frames are numbered, nonempty and contiguous, reach the clock, and overrun it by one tick exactly when it has not passed their start |
| EngineTheorems.TickInOneFrame | twe/src/engine/engine.cpp:46-53 | every tick of the run lies in exactly one frame |
| EngineTheorems.InputOfRun | twe/src/engine/engine.cpp:55-74 | each frame's input is built from the one before |
| EngineTheorems.HeldFromTickets | twe/src/engine/engine.cpp:55-74 | if the frames hold what was popped, what the last one holds is decided by the ring's ticket order |
| EngineQueue.Drain | twe/src/engine/engine.cpp:58-62 | the drain loop, producers interfering: its result is exactly the values newly popped, in ticket order, and of the tickets next in line that were published at the call it leaves none its pops reach |
| EngineQueue.TurnsDrain | twe/src/engine/engine.cpp:40-81 | so any turns in a row together drain the ring they began with, in as many pops as they have together |
| EngineQueue.RunOnQueue | twe/src/engine/engine.cpp:34-81 | end to end: each turn of the loop drains the ring itself and builds its frame from what it popped; an event published as a turn began, with all before it, is in the frames up to that turn if its pops reach it; what the last frame holds is decided by ticket order, whatever the interleaving and the frame cuts |
| Paths.Normalize | twe/src/filesystem/filesystem.cpp:452-496 | the loop with its flag computes the normal form |
| PathNormalForm.NormalizedSpells | twe/src/filesystem/filesystem.cpp:452-496 | the normal form spells the components with single backslashes, a leading one kept and a bare drive's kept |
| PathNormalForm.NormalForm | twe/src/filesystem/filesystem.cpp:452-496 | two paths normalize alike if and only if they have the same components, the same leading separator or none, and are both or neither a drive root |
| PathNormalForm.Idempotent | twe/src/filesystem/filesystem.cpp:452-496 | normalizing twice is normalizing once |
| PathNormalForm.NormalizedClean | twe/src/filesystem/filesystem.cpp:461-493 | no slash, no two separators together, none at the end but as a root |
| PathLaws.Characters | twe/src/filesystem/filesystem.cpp:464-487 | drive letters are the ASCII letters, separators the two slashes |
| PathLaws.JoinText | twe/src/filesystem/filesystem.cpp:498-521 | the exact text: the first side, one separator, the second side, the separator being the first side's, or else the second's, or else a backslash |
| PathLaws.JoinIsBackslash | twe/src/filesystem/filesystem.cpp:498-521 | up to normalize, join puts one backslash between nonempty sides |
| PathLaws.JoinAssociative | twe/src/filesystem/filesystem.cpp:498-521 | join is associative up to normalize, for all three sides |
| PathLaws.JoinOfNormalized | twe/src/filesystem/filesystem.cpp:498-521 | joining normalized sides gives the same normal form |
| PathLaws.FilenameIsLast | twe/src/filesystem/filesystem.cpp:549-563 | filename is what follows the last separator |
| PathLaws.ParentIsFront | twe/src/filesystem/filesystem.cpp:523-547 | parent_path is what precedes the filename without its separator, a root or drive root keeping it |
| PathLaws.FilenameOfJoin | twe/src/filesystem/filesystem.cpp:549-563 | it gives back what was joined on |
| PathLaws.ParentUndoesJoinExactly | twe/src/filesystem/filesystem.cpp:523-547 | parent_path undoes join up to normalize exactly unless the first side is a bare drive |
| PathLaws.StemAndExtension | twe/src/filesystem/filesystem.cpp:565-594 | stem, dot and extension put the filename together again around its last dot, if that is not its first character; else the stem is all of it |
| PathLaws.ExtensionExactly | twe/src/filesystem/filesystem.cpp:581-594 | there is an extension exactly if the last dot has something on both sides |
| PathLaws.AbsoluteExactly | twe/src/filesystem/filesystem.cpp:596-615 | only drive letters survive normalize as absolute, so it keeps is_absolute exactly off UNC paths |

## Left out

- Weak memory orders: all interleavings are of sequentially consistent steps, and no claim is made about the acquire and release annotations.
- `clear()` of the three queues and `LoggerWorker::flush`: the first needs quiescence, the second pops beside the worker and does not lower `in_flight`.
- `twe/core/queue/mpsc_queue copy.h`: an unused variant.
- Out-of-memory branches, and the destruction of the single-producer queue with elements still in it.
- RingBuffer.MpscRingBuffer.TryPush: the retry loop is cut after a given number of attempts and then reported as still retrying, and which attempts fail for no reason is given; the class has unbounded counters; RingWrappedRuns has the results for 64-bit ones, for threads that do not sit on a loaded counter while 2^64 tickets go by.
- LinkedQueue.MpscQueue.IsEmpty: called by the consumer only, as another caller could follow a node being deleted. `SpscQueue.SpscQueue.IsEmpty` is for the consumer and `IsEmptyToProducer` for the producer, the queue's only two callers.
- LoggerWorker.LoggerWorker.Run: the main and drain loops, the wait for the mutex, `wait_until_idle` and the join are cut after a given number of rounds; what is done in these rounds is stated, and that they can always get to their end is `LoggerStop.WorkerFinishes` and `LoggerStop.SleeperCanWake`.
- LoggerWorker.LoggerWorker.Stop: `flush_file` and the file and stderr sinks; the sink modelled is the memory buffer.
- TransformRuns.UpdatesAlwaysRight: node versions are unbounded, so the wrap of 32-bit versions is not modelled; `transform` and `mul` are abstract functions.
- Buffers.Buffer.Push: counts and overflow counts are unbounded instead of 32-bit.
- Pipeline.ComposesExactly: pipelines are lists of stages of one element type.
- Pipeline.Run: all stages share one element type, and the input is a sequence, so an output aliasing the input is not covered.
- FrameBuilder.Classify: the quantised depth and, in culling, the planes' answers are given functions; rounding and view transforms are not modelled. Primitives name existing materials.
- FrameBuilder.Sort: `std::stable_sort` is taken to do what it promises.
- FrameBuilder.Bin: the pass fields that are the same constants for every pass are dropped.
- FrameBuilder.BuildFrame: `build` is declared but not defined in the repository; its phases are taken in their declared order.
- InputBuilding.BuildInput: mouse deltas and window sizes are unbounded; key codes below 256 and buttons below 3 are required of Input events, as the code indexes its arrays unchecked.
- EngineLoop.Run: the clock, the events drained and what switches `running` off are given for each turn (`EngineQueue.RunOnQueue` drains them itself, each drain cut after a given number of pops; its producers put in only events whose indices are in range); ticks do not wrap; message pumping and the update callback are not modelled.
- Paths.Normalize: `std::isalpha` is taken as the ASCII letters.
- Everything else of the repository: window and raw input handling, file I/O, executors, thread and allocation wrappers, float math, `EventBus`, the result types, transform baking. It would add easy members or needs the platform.

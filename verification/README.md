# Event scheduler, buffers and lists of the IoT device SDK

A Dafny model of the single-threaded core of the SDK, with proofs of what that core keeps over whole runs.

The model follows the program's layers. Code that changes objects in place is modelled by classes whose
methods carry the loops of the source; every such method is proved against a plain-value specification, and
what the source promises is proved about that specification.

| files | what they model |
|---|---|
| `Vector.dfy`, `Sequences.dfy` | the growable vector with its 8-bit index type |
| `TimerSpec.dfy`, `TimerQueue.dfy` | the sorted timer queue: events that store their own index, handles that reach them through it |
| `DispatcherSpec.dfy`, `DispatcherLaws.dfy`, `DispatcherRuns.dfy`, `DispatcherTiming.dfy`, `Dispatcher.dfy` | the event dispatcher as a state machine, what its parts mean, its whole runs, its timing, and the class that refines it |
| `IoTimeouts.dfy`, `EventLoop.dfy`, `HandleTable.dfy` | io timeouts, the select timeout, the slot table |
| `TimedTaskSpec.dfy`, `TimedTaskRuns.dfy`, `TimedTaskLaws.dfy`, `TimedTask.dfy` | timed tasks: who owns which event, all runs, what each operation means, and the class that refines them |
| `BackoffSpec.dfy`, `BackoffLaws.dfy`, `Backoff.dfy` | the backoff: penalties, the cooldown and all its runs, what they mean in numbers, and the class that refines them |
| `LinkedList.dfy` | the linked-list macros on heap nodes |
| `DataDesc.dfy`, `TlsInbound.dfy`, `TlsOutbound.dfy` | growable descriptors, the inbound byte queue and the send coroutine of the TLS layer |

**Handlers.** A handler is not a fixed function but a *reaction*: the list of calls it makes on the dispatcher
(schedule, cancel, restart, enqueue, set the on-empty handler) and whether it returns a fatal state. Each
execution gets its own reaction, so a statement for all reactions is a statement for all handlers, including
those that re-arm themselves. What a client has to guard in the source (cancelling or restarting an empty
handle, scheduling with an armed one) is guarded in the reaction, too.

**Time** is an input to every step; times are 64-bit signed and additions wrap around (`AddTime`).
**Memory** is a flag on each operation that allocates: granted or refused. **Random draws** are arbitrary
naturals.

## What the proofs found

- A list split into a list of two or more nodes cuts off that list's tail (`SplitAppendsIff`).
- The timed loop ends for all handlers if all delays are positive and all due times `now + delay` fit 64 bits, and
  neither bound can be relaxed: a handler that re-schedules itself with delay 0, or with one so long that the due
  time wraps around, stays due for ever (`LoopEndsIff`, `LoopEndsUpToIff`, `AgainEndsIff`).
- Handlers fire in order if no delay is negative and all due times fit 64 bits, and neither bound can be relaxed
  (`FiresInOrderIff`, `FiresInOrderUpToIff`).
- A lookup truncates its 32-bit handle to 8 bits, so a handle that was never given out may reach an object
  (`HandlesAlias`, `LookupRefusedIff`).
- When scheduling fails after a timed task got its slot, the task is freed but its slot still holds it; when a
  repeating task cannot be scheduled again, it stays registered without an event. These are the only ways out of
  the life cycle (`RunStuckIff`).
- Without memory for its event a reported failure raises the backoff index with no cooldown on its way
  (`RunKeepsIff` of the backoff).
- Growing a descriptor for more than 2^31 bytes computes the capacity 0 (`GrowthMeetsNeedIff`).
- A send callback that is refused memory, for the descriptor or for the call to the layer below, is stuck for
  good (`RefusalIsFinal`).
- An io timeout whose handle does not fit into the vector is scheduled all the same, though the caller is told
  that there is no memory (`Create`).
- Reserving less than a vector holds drops elements even if the reservation then fails (`Reserve`).

## Model

| member | source | states |
|---|---|---|
| Vectors.Vector.Realloc | src/libiotc/datastructures/iotc_vector.c:25-53 | Growing or shrinking keeps the elements in a fresh block; it fails exactly for an unmanaged block, refused memory, or a size that 8 bits make negative, and then changes nothing |
| Vectors.Vector.Reserve | src/libiotc/datastructures/iotc_vector.c:98-120 | The capacity becomes the given one; elements beyond it are dropped even if the block cannot be replaced, which fails exactly for an unmanaged block or refused memory |
| Vectors.Vector.Create | src/libiotc/datastructures/iotc_vector.c:55-73 | A new vector is empty, managed, with capacity 2; null exactly when memory for it or its block is refused |
| Vectors.Vector.CreateFrom | src/libiotc/datastructures/iotc_vector.c:75-96 | Wraps a caller's block of any length, or null exactly when memory is refused; usable if and only if the length cut to 8 bits is positive, and then with that many elements |
| Vectors.Vector.Push | src/libiotc/datastructures/iotc_vector.c:136-154 | Appends, or changes nothing; it fails exactly when the vector is full and cannot double within 8 bits |
| Vectors.Vector.SwapElems | src/libiotc/datastructures/iotc_vector.c:156-168 | Exchanges two elements and touches no other |
| Vectors.Vector.Del | src/libiotc/datastructures/iotc_vector.c:170-185 | Removes an element by moving the last one into its place |
| Vectors.Vector.Find | src/libiotc/datastructures/iotc_vector.c:187-202 | The first match, or -1 if and only if nothing matches |
| Vectors.Vector.RemoveIf | src/libiotc/datastructures/iotc_vector.c:224-237 | The predicate is applied to every original element once, last to first, and exactly the multiset of rejected elements remains |
| Vectors.ScanStep | src/libiotc/datastructures/iotc_vector.c:228-236 | One step of the backward scan keeps the unscanned prefix and the multiset of survivors, whether or not deletion moves the last element into the hole |
| Sequences.RejectedExact | src/libiotc/datastructures/iotc_vector.c:224-237 | What remains is each rejected element as often as it was there, and no selected one |
| Sequences.ReversedIs | src/libiotc/datastructures/iotc_vector.c:224-237 | The order in which the elements are tested is back to front |
| TimerSpec.InsertPlace | src/libiotc/event_dispatcher/iotc_time_event.c:201-230 | An added event stands behind all events due at or before its time, before all later ones, and nowhere else; the others keep their order |
| TimerSpec.RetimedPlace | src/libiotc/event_dispatcher/iotc_time_event.c:356-390 | A restart to an earlier time lands behind its equals, to a later time before its equals, to the same time stays; the others keep their order |
| TimerSpec.SettledLast | src/libiotc/event_dispatcher/iotc_time_event.c:201-230 | Bubbling the last event down a sorted queue is sorted insertion |
| TimerSpec.SettledRetimed | src/libiotc/event_dispatcher/iotc_time_event.c:75-116 | Bubbling a re-timed event in the direction of its new time is the plain re-timing, ties included |
| TimerSpec.InsertSorted | src/libiotc/event_dispatcher/iotc_time_event.c:201-230 | Insertion keeps the queue sorted |
| TimerSpec.RetimedSorted | src/libiotc/event_dispatcher/iotc_time_event.c:356-390 | Re-timing keeps the queue sorted |
| TimerQueues.TimerQueue.HandleLiveness | src/libiotc/event_dispatcher/iotc_time_event.c:240-247 | A handle is live if and only if an event in the queue carries it, its stored position is the index of that event, and distinct events have distinct handles |
| TimerQueues.TimerQueue.SwapTimeEvents | src/libiotc/event_dispatcher/iotc_time_event.c:42-61 | Swapping two slots keeps stored positions, handles and slots in agreement |
| TimerQueues.TimerQueue.BubbleStep | src/libiotc/event_dispatcher/iotc_time_event.c:92-113 | Swaps with the neighbour if and only if the two are out of order in that direction, keeping the whole representation |
| TimerQueues.TimerQueue.BubbleCore | src/libiotc/event_dispatcher/iotc_time_event.c:75-116 | In both directions the event moves over exactly the neighbours it is out of order with, the others keep their order, and the returned index is where it stands |
| TimerQueues.TimerQueue.MoveToTheEnd | src/libiotc/event_dispatcher/iotc_time_event.c:173-191 | The swap loop rotates the event to the end and keeps the order of the rest |
| TimerQueues.TimerQueue.AppendTimeEvent | src/libiotc/event_dispatcher/iotc_time_event.c:207-219 | The pushed event gets the last index; a failed push changes nothing |
| TimerQueues.TimerQueue.InsertTimeEvent | src/libiotc/event_dispatcher/iotc_time_event.c:201-230 | The queue becomes the sorted insertion of the event, at the index returned |
| TimerQueues.TimerQueue.Arm | src/libiotc/event_dispatcher/iotc_time_event.c:301-308 | Links an event and an empty handle both ways |
| TimerQueues.TimerQueue.Add | src/libiotc/event_dispatcher/iotc_time_event.c:274-315 | Adds the event behind its equals and arms the handle, or reports no memory and changes nothing |
| TimerQueues.TimerQueue.DropLast | src/libiotc/event_dispatcher/iotc_time_event.c:240-247 | Disposing of the last event empties its handle and no other |
| TimerQueues.TimerQueue.GetTop | src/libiotc/event_dispatcher/iotc_time_event.c:317-340 | Removes and returns the first event; the rest keeps its order |
| TimerQueues.TimerQueue.PeekTop | src/libiotc/event_dispatcher/iotc_time_event.c:342-354 | The earliest event, or null for an empty queue |
| TimerQueues.TimerQueue.SetTime | src/libiotc/event_dispatcher/iotc_time_event.c:371-379 | Changes the time of one event and of nothing else |
| TimerQueues.TimerQueue.Restart | src/libiotc/event_dispatcher/iotc_time_event.c:356-390 | Finds the event through its handle and re-times it in place; the queue stays sorted and all handles live |
| TimerQueues.TimerQueue.Cancel | src/libiotc/event_dispatcher/iotc_time_event.c:392-425 | Removes exactly the handle's event, returns it, and keeps the order of the rest |
| Dispatchers.Dispatcher.Liveness | src/libiotc/event_dispatcher/iotc_event_dispatcher.c:199-220 | A client's handle is empty if and only if no pending event answers to it |
| Dispatchers.Dispatcher.Execute | src/libiotc/event_dispatcher/iotc_event_dispatcher.c:179-197 | A granted call goes to the end of the call queue and changes nothing else; a refused one changes nothing |
| Dispatchers.Dispatcher.ExecuteIn | src/libiotc/event_dispatcher/iotc_event_dispatcher.c:199-220 | Schedules a call at the current step plus the delay; a failure changes nothing |
| Dispatchers.Dispatcher.Cancel | src/libiotc/event_dispatcher/iotc_event_dispatcher.c:222-237 | Refines the cancel transition for a live handle |
| Dispatchers.Dispatcher.Restart | src/libiotc/event_dispatcher/iotc_event_dispatcher.c:239-253 | Refines the restart transition for a live handle |
| Dispatchers.Dispatcher.ContinueWhenEmpty | src/libiotc/event_dispatcher/iotc_event_dispatcher.c:174-177 | Sets the handler for an empty queue |
| Dispatchers.Dispatcher.PopDue | src/libiotc/event_dispatcher/iotc_event_dispatcher.c:393-400 | Takes the earliest event out if and only if it is due at the current step |
| Dispatchers.Dispatcher.FireOne | src/libiotc/event_dispatcher/iotc_event_dispatcher.c:393-419 | One iteration of the timed loop: the event is gone before its handler runs; a fatal result stops the dispatcher |
| Dispatchers.Dispatcher.TimedLoop | src/libiotc/event_dispatcher/iotc_event_dispatcher.c:393-421 | The timed loop refines the timed phase, whatever calls the handlers make |
| Dispatchers.Dispatcher.SingleStep | src/libiotc/event_dispatcher/iotc_event_dispatcher.c:350-376 | Serves the oldest queued call by running its handler, or reports that there is none |
| Dispatchers.Dispatcher.CallLoop | src/libiotc/event_dispatcher/iotc_event_dispatcher.c:427-429 | The call loop refines the call phase; calls enqueued meanwhile are served as well |
| Dispatchers.Dispatcher.EmptyHandler | src/libiotc/event_dispatcher/iotc_event_dispatcher.c:433-446 | The on-empty handler runs once, only with no timed event pending, and is then unset, even if it set itself again |
| Dispatchers.Dispatcher.Step | src/libiotc/event_dispatcher/iotc_event_dispatcher.c:378-447 | A whole step of the class is the step of the state machine |
| Dispatchers.Dispatcher.Drive | src/libiotc/event_dispatcher/iotc_event_dispatcher.c:378-447 | Every run of the class is the run of the state machine over the same steps and calls |
| Dispatchers.Dispatcher.MakeSilent | src/libiotc/event_dispatcher/iotc_event_dispatcher.c:350-447 | The parts of a step that pop no timed event refine the moves of the same name |
| Dispatchers.Dispatcher.GetTimeOfEarliestEvent | src/libiotc/event_dispatcher/iotc_event_dispatcher.c:554-574 | The least time of all pending events, or not found if and only if there is none |
| DispatcherRuns.FiresInOrder | src/libiotc/event_dispatcher/iotc_event_dispatcher.c:378-421 | Over every run with steps that do not go back and nothing scheduled or restarted into the past, timed handlers fire in ascending time across all steps, and never before their time |
| DispatcherRuns.PlayOrdered | src/libiotc/event_dispatcher/iotc_event_dispatcher.c:378-447 | The same for every sequence of single moves (pops, handlers' calls, steps in time), from any ordered state |
| DispatcherRuns.RunPlays | src/libiotc/event_dispatcher/iotc_event_dispatcher.c:378-447 | Every run of steps and clients' calls is exactly one sequence of moves: in each step the time, then per timed event fired its pop and its handler's calls, then per call served the same, then the on-empty handler; with the same timing |
| DispatcherRuns.TimedPhasePlays | src/libiotc/event_dispatcher/iotc_event_dispatcher.c:393-421 | The timed loop fires events and runs their handlers in order until nothing is due |
| DispatcherRuns.CallPhasePlays | src/libiotc/event_dispatcher/iotc_event_dispatcher.c:427-429 | The call loop serves calls and runs their handlers in order until none is queued |
| DispatcherLaws.RunMakesCalls | src/libiotc/event_dispatcher/iotc_event_dispatcher.c:367-441 | The calls made in a run are, in order, all calls of all handlers that the history shows as executed, and the clients' calls |
| DispatcherLaws.RunAccepts | src/libiotc/event_dispatcher/iotc_event_dispatcher.c:179-197 | In every run the calls accepted are exactly those put there by granted enqueue calls of executed handlers and clients, in order, and the queue holds those not yet served |
| DispatcherLaws.CallPhaseServesAll | src/libiotc/event_dispatcher/iotc_event_dispatcher.c:427-429 | A call loop that ends by itself has served every accepted call, once and in order |
| DispatcherLaws.CallPhaseEnds | src/libiotc/event_dispatcher/iotc_event_dispatcher.c:427-429 | If handlers enqueue nothing, it ends after as many iterations as calls were queued |
| DispatcherLaws.StepEmpties | src/libiotc/event_dispatcher/iotc_event_dispatcher.c:433-446 | Over a step the on-empty handler runs exactly if it is set and no timed event is pending once the rest is done, and is unset afterwards |
| DispatcherLaws.PlayOnEmpty | src/libiotc/event_dispatcher/iotc_event_dispatcher.c:174-177 | Until it is disposed of, the on-empty handler is the one last set |
| DispatcherLaws.StepStops | src/libiotc/event_dispatcher/iotc_event_dispatcher.c:405-408 | A step stops the dispatcher exactly if the handler of a timed event it fired returned a fatal state |
| DispatcherLaws.ScheduleAdds | src/libiotc/event_dispatcher/iotc_event_dispatcher.c:199-220 | A granted scheduling adds one event, due the delay after now, behind its equals, and changes nothing else; the exact condition of a refusal |
| DispatcherLaws.CancelRemoves | src/libiotc/event_dispatcher/iotc_event_dispatcher.c:222-237 | Cancelling takes out the handle's event and nothing else |
| DispatcherLaws.RestartMovesOne | src/libiotc/event_dispatcher/iotc_event_dispatcher.c:239-253 | Restarting moves the handle's event to the new time after now and nothing else |
| DispatcherLaws.CallsInOrder | src/libiotc/event_dispatcher/iotc_event_dispatcher.c:367-441 | A handler's calls take effect one after the other |
| DispatcherLaws.StaysPending | src/libiotc/event_dispatcher/iotc_event_dispatcher.c:199-253 | An event stays pending, at its time, as long as its handle is not used again |
| DispatcherLaws.SilentMoves | src/libiotc/event_dispatcher/iotc_event_dispatcher.c:350-447 | What the moves that concern no timed event change, and that they change nothing else |
| DispatcherLaws.RunAppend | src/libiotc/event_dispatcher/iotc_event_dispatcher.c:378-447 | A run goes on with each action from where the earlier ones left off |
| DispatcherLaws.AddTimeIs | src/libiotc/event_dispatcher/iotc_event_dispatcher.c:206-207 | The sum of a step and a delay is their sum if it fits 64 bits, and otherwise the one 64-bit time that differs from it by 2^64 |
| DispatcherRuns.RunOrdered | src/libiotc/event_dispatcher/iotc_event_dispatcher.c:378-447 | The invariant behind it, from any state: nothing pending precedes what has fired |
| DispatcherRuns.Conservation | src/libiotc/event_dispatcher/iotc_event_dispatcher.c:199-237 | In every run each scheduled event is exactly one of pending, fired once, cancelled once; calls are served first in, first out; handles are distinct; at most 64 events are pending |
| DispatcherRuns.RunSound | src/libiotc/event_dispatcher/iotc_event_dispatcher.c:378-447 | The invariant behind it is kept by every run from every state that satisfies it |
| DispatcherRuns.PlaySound | src/libiotc/event_dispatcher/iotc_event_dispatcher.c:378-447 | And by every sequence of single moves |
| DispatcherRuns.MayRearm | src/libiotc/event_dispatcher/iotc_event_dispatcher.c:393-410 | In every reachable state a firing handler finds its own handle empty and can arm it again |
| DispatcherTiming.TimedPhaseDrains | src/libiotc/event_dispatcher/iotc_event_dispatcher.c:393-421 | When the timed loop has ended by itself, every pending event is due after the current step |
| DispatcherTiming.FireOneDecreases | src/libiotc/event_dispatcher/iotc_event_dispatcher.c:393-419 | If its handler schedules and restarts only to times after the step, wrap-around included, an iteration leaves strictly fewer due events |
| DispatcherTiming.TimedPhaseTerminates | src/libiotc/event_dispatcher/iotc_event_dispatcher.c:393-421 | With such handlers the loop ends after at most as many firings as events were due at first |
| DispatcherTiming.LoopEndsIff | src/libiotc/event_dispatcher/iotc_event_dispatcher.c:393-421 | For every lower bound on the delays, with due times that 64 bits can represent: the timed loop ends for every endless sequence of such handlers if and only if the bound is positive |
| DispatcherTiming.LoopEndsUpToIff | src/libiotc/event_dispatcher/iotc_event_dispatcher.c:393-421 | For every upper bound on the due times, with positive delays: the loop ends for every endless sequence of such handlers if and only if 64 bits can represent the bound |
| DispatcherTiming.AgainEndsIff | src/libiotc/event_dispatcher/iotc_event_dispatcher.c:393-419 | For a handler that re-schedules itself with any delay, the loop ends if and only if the due time, after wrap-around, lies after the step |
| DispatcherTiming.AgainNeverEnds | src/libiotc/event_dispatcher/iotc_event_dispatcher.c:393-419 | Otherwise it fires any number of times in one step: with delay 0, a negative delay, or one that makes the due time wrap around |
| DispatcherTiming.FiresInOrderIff | src/libiotc/event_dispatcher/iotc_event_dispatcher.c:199-220 | For every lower bound on the delays: all runs with steps that do not go back and due times that 64 bits can represent fire in order if and only if the bound is not negative |
| DispatcherTiming.FiresInOrderUpToIff | src/libiotc/event_dispatcher/iotc_event_dispatcher.c:199-220 | For every upper bound on the due times: all runs with steps that do not go back and delays that are not negative fire in order if and only if 64 bits can represent the bound |
| DispatcherTiming.AheadIff | src/libiotc/event_dispatcher/iotc_event_dispatcher.c:199-220 | In 64 bits a due time lies at or after (strictly after) the step if and only if the delay is not negative (is positive) and the due time is representable, or the due time wraps around below |
| DispatcherTiming.DueAtOnceIff | src/libiotc/event_dispatcher/iotc_event_dispatcher.c:199-220 | For every 64-bit step and delay: a new event is due at once if and only if its delay is not positive and its due time does not wrap around below, or its due time wraps around above |
| DispatcherRuns.OthersKeep | src/libiotc/event_dispatcher/iotc_event_dispatcher.c:199-253 | A call on one handle changes neither whether another handle's event is pending nor what it is |
| IoTimeouts.BulkRestart | src/libiotc/iotc_io_timeouts.c:78-99 | Restarting a list of live handles moves exactly their events to the current step plus the new time, leaves every other event unchanged, the queue sorted, and all handles live |
| IoTimeouts.RestartTouches | src/libiotc/event_dispatcher/iotc_time_event.c:356-390 | One restart changes one event's time and otherwise only the order |
| IoTimeouts.RestartAll | src/libiotc/iotc_io_timeouts.c:78-99 | The loop over the vector is that list of restarts, although each iteration permutes the queue the later handles index into |
| IoTimeouts.Create | src/libiotc/iotc_io_timeouts.c:26-50 | Schedules the event and stores its handle; a full vector leaves the event scheduled but reports no memory |
| IoTimeouts.Cancel | src/libiotc/iotc_io_timeouts.c:58-71 | Cancels the event and forgets its handle; the vector keeps all others |
| IoTimeouts.Remove | src/libiotc/iotc_io_timeouts.c:117-130 | Forgets one occurrence of the handle, or nothing if it is not there |
| TimedTaskSpec.OwnsExactlyOne | src/libiotc/iotc_timed_task.c:63-106 | A registered task owns exactly one pending wrapper call, the one its handle names |
| TimedTasks.TaskContainer.Create | src/libiotc/iotc_timed_task.c:41-54 | A new container registers nothing and satisfies the life-cycle invariant; none exactly if it or its lock is refused; a refused table goes unnoticed |
| TimedTasks.TaskContainer.AddTimedTask | src/libiotc/iotc_timed_task.c:63-106 | With memory and a slot the task gets the lowest free slot and one event, a wrapper call for it, due the delay after the current step; it dangles in its slot exactly when it got a slot and its event was refused |
| TimedTaskLaws.AddGives | src/libiotc/iotc_timed_task.c:63-106 | After such an add the task's handle is armed with its wrapper call at the step plus the delay; every other handle reaches what it reached before |
| TimedTaskLaws.AddFails | src/libiotc/iotc_timed_task.c:68-105 | Without memory for the task nothing happens; without a slot it is freed; without an event it is freed and keeps its slot |
| TimedTaskLaws.HasSlotIff | src/libiotc/iotc_timed_task.c:85-87 | There is a slot exactly if one is free, or there are fewer than 64 and the table has room or can double |
| TimedTasks.TaskContainer.RemoveTimedTask | src/libiotc/iotc_timed_task.c:108-139 | A scheduled task loses its slot and its event and is freed; the running one is only marked; any other handle changes nothing |
| TimedTaskLaws.RemoveGives | src/libiotc/iotc_timed_task.c:108-139 | The same of the state machine; every other handle reaches what it reached before |
| TimedTaskLaws.CallGives | src/libiotc/iotc_timed_task.c:159-165 | A callback's call on the dispatcher is made there and touches nothing else |
| TimedTaskLaws.OperationGives | src/libiotc/iotc_timed_task.c:63-192 | Operations between callbacks are single commands, moves of the dispatcher, or firings; a due event of somebody else is popped and nothing else happens |
| TimedTasks.TaskContainer.RunCallback | src/libiotc/iotc_timed_task.c:159-165 | Performs exactly the calls of the callback, in order, up to one that leaves the machine stuck |
| TimedTasks.TaskContainer.CallbackWrapper | src/libiotc/iotc_timed_task.c:141-192 | Is the callback followed by the end of the task or its re-scheduling, as the state machine has them |
| TimedTasks.TaskContainer.FireEvent | src/libiotc/iotc_timed_task.c:141-192 | Refines the firing transition: a due event is popped, and if it is a task's the task fires |
| TimedTasks.TaskContainer.Drive | src/libiotc/iotc_timed_task.c:63-192 | Every run of the class is the run of the state machine over the same operations, and it is healthy exactly if that is not stuck |
| TimedTaskRuns.RunKeeps | src/libiotc/iotc_timed_task.c:63-192 | Every run that is not stuck leaves each registered task with exactly one pending event and no registered task freed, no task freed twice; other users of the dispatcher included |
| TimedTaskRuns.FireKeeps | src/libiotc/iotc_timed_task.c:141-192 | A due event always fires. Afterwards its task is freed and its slot empty if and only if it does not repeat or its callback removed it; otherwise it has an event at the step plus its period. Stuck exactly if the callback got stuck or a task to be re-scheduled was refused its event |
| TimedTaskRuns.PerformAllSlot | src/libiotc/iotc_timed_task.c:159-165 | Whatever a callback adds, removes and calls, its own task keeps its slot; it ends up removed if and only if the callback removed that slot |
| TimedTaskRuns.FreedNeverFires | src/libiotc/iotc_timed_task.c:141-192 | Whatever fires as a task in a run is a task that was not freed before the run |
| TimedTaskRuns.NeverAfterFreed | src/libiotc/iotc_timed_task.c:141-192 | From any point of a run on, the dispatcher's record of firings has no task that was freed by then |
| TimedTaskRuns.RunStuckIff | src/libiotc/iotc_timed_task.c:85-105 | A run gets stuck if and only if some add gets a slot and no event, or some task to be re-scheduled gets no event |
| TimedTaskRuns.FireStuckIff | src/libiotc/iotc_timed_task.c:166-185 | After a callback that schedules nothing the task is lost if and only if it repeats, was not removed, and memory for its event is refused |
| TimedTaskRuns.NeverStuckIfRoom | src/libiotc/iotc_timed_task.c:63-192 | No run gets stuck with memory granted and, whenever an operation begins, room for the pending events and those it schedules in 64 slots |
| TimedTaskRuns.DanglingAdd | src/libiotc/iotc_timed_task.c:85-105 | A concrete run gets stuck: one add without memory for its event leaves the freed task in its slot |
| TimedTaskRuns.ContainerPlays | src/libiotc/iotc_timed_task.c:63-192 | What a run of the container does to its dispatcher is a sequence of the dispatcher's moves |
| TimedTaskRuns.TasksFireInOrder | src/libiotc/iotc_timed_task.c:141-192 | So in every run in which nothing is scheduled into the past, tasks and all other timed events fire in order |
| TimedTaskRuns.CallKeeps | src/libiotc/iotc_timed_task.c:63-192 | Calls of others on the dispatcher leave the life cycle of all tasks alone |
| HandleTables.ObjectForHandle | src/libiotc/iotc_handle.c:34-37 | The object in the slot named by the handle's low byte, or null |
| HandleTables.FindHandle | src/libiotc/iotc_handle.c:39-52 | The first slot that holds the object, or not found |
| HandleTables.DeleteHandle | src/libiotc/iotc_handle.c:54-66 | Empties the object's slot, or reports that there is none |
| HandleTables.RegisterHandle | src/libiotc/iotc_handle.c:68-85 | Uses the lowest free slot, else grows up to the limit, else reports that there are no resources |
| HandleTables.LookupFind | src/libiotc/iotc_handle.c:34-52 | Lookup and find are inverse on the objects of the table |
| HandleTables.RegisterKeeps | src/libiotc/iotc_handle.c:68-85 | Registering changes no other live handle, reuses the lowest free slot, keeps to the limit, and makes the object findable exactly when there was a slot |
| HandleTables.DeleteKeeps | src/libiotc/iotc_handle.c:54-66 | Deleting frees one slot and changes no other handle |
| HandleTables.HandleLives | src/libiotc/iotc_handle.c:34-85 | Over every sequence of registers and deletes a handle leads to its object, and the object to it, until that object is deleted |
| HandleTables.HandlesAlias | src/libiotc/datastructures/iotc_vector.c:217-222 | Handles that agree in their low byte reach the same slot |
| HandleTables.LookupRefusedIff | src/libiotc/datastructures/iotc_vector.c:217-222 | A lookup finds an object if and only if the low byte of the handle is the index of a used slot |
| BackoffSpec.PenaltiesSeparate | src/libiotc/iotc_backoff_status_api.c:41-92 | In a doubling table any penalty at a level is smaller than any at the next, for all draws, and stays within the stated bounds around its base value |
| BackoffSpec.SeparatedIff | src/libiotc/iotc_backoff_status_api.c:41-92 | In any table two adjacent levels are separated for all draws if and only if the greatest penalty of one is below the least of the other |
| BackoffSpec.PenaltyRange | src/libiotc/iotc_backoff_status_api.c:41-92 | The extreme draws give the extreme penalties of a level |
| BackoffSpec.PenaltyFits | src/libiotc/iotc_backoff_status_api.c:45-91 | For table values below 2^30 no step of the 32-bit arithmetic overflows and the penalty is not below the first entry |
| BackoffSpec.ShippedTableDoubles | src/libiotc/iotc_backoff_lut_config.h:26-48 | The shipped table starts at 0, then 2, then doubles, and both tables have one length |
| BackoffSpec.CoolsDown | src/libiotc/iotc_backoff_status_api.c:209-225 | Whenever its firings happen: each lowers the index by one and re-arms with the decay of the level it reached, from its own time; as many as the index was high lead to index 0 and no event |
| BackoffSpec.RunIsFirings | src/libiotc/iotc_backoff_status_api.c:209-225 | In every run of the dispatcher without a reported failure and a refused cooldown, the backoff does what its firings do at the times the dispatcher recorded for them |
| BackoffSpec.RunCoolsDown | src/libiotc/iotc_backoff_status_api.c:209-225 | So in such a run the index is lower by the number of firings, and the event pending is due at the last firing plus the decay of the level reached, or there is none at 0 |
| BackoffSpec.RunKeepsIff | src/libiotc/iotc_backoff_status_api.c:165-225 | In every run, other users included: the index stays in the table, and above 0 a cooldown is pending throughout if and only if none was refused |
| BackoffSpec.DoKeepsIff | src/libiotc/iotc_backoff_status_api.c:165-225 | The same for one operation, with the exact condition of a refusal |
| BackoffSpec.FireIs | src/libiotc/iotc_backoff_status_api.c:209-225 | One iteration of the timed loop is a cooldown if the earliest event is that, and otherwise leaves the backoff alone; refused exactly if it has to re-arm and memory for the event is refused |
| BackoffLaws.FailureRaises | src/libiotc/iotc_backoff_status_api.c:28-34 | One reported failure goes one level up, but not above the last, and the cooldown is due the decay of that level after now |
| BackoffLaws.RepeatedFailures | src/libiotc/iotc_backoff_status_api.c:165-185 | After n failures in a row from index i the index is the lesser of i + n and the last level, with the cooldown due that level's decay after now |
| BackoffLaws.FailingKeepsIndex | src/libiotc/iotc_backoff_status_api.c:209-225 | While the last state reported is a failure, firings keep the index and re-arm with its decay |
| BackoffLaws.LastFiring | src/libiotc/iotc_backoff_status_api.c:209-225 | At the lowest level, or on reaching it, a firing is the last one |
| BackoffLaws.OthersAct | src/libiotc/iotc_backoff_status_api.c:94-107 | Others' calls and moves and a good state leave index and cooldown alone; a reset clears both |
| BackoffLaws.LowestPenalty | src/libiotc/iotc_backoff_status_api.c:41-92 | At the lowest level the penalty is the first entry |
| BackoffLaws.PenaltyIs | src/libiotc/iotc_backoff_status_api.c:41-92 | Above it, exactly: entry plus draw less half the previous entry (at least 1), not below the first entry; draws count modulo the previous entry plus 1 |
| BackoffSpec.GrantedIfRoom | src/libiotc/iotc_backoff_status_api.c:187-207 | No cooldown is refused with memory granted and fewer than 64 events pending at any time |
| BackoffSpec.RefusedReport | src/libiotc/iotc_backoff_status_api.c:165-207 | A concrete run: one failure reported without memory for the cooldown leaves level 1 with nothing pending |
| BackoffSpec.BackoffPlays | src/libiotc/iotc_backoff_status_api.c:165-225 | What a run of the backoff does to its dispatcher is a sequence of the dispatcher's moves |
| BackoffSpec.CooldownsFireInOrder | src/libiotc/iotc_backoff_status_api.c:187-225 | So in every run in which nothing is scheduled into the past, cooldowns and all other timed events fire in order |
| Backoffs.Backoff.Configure | src/libiotc/iotc_backoff_status_api.c:121-145 | Refused for empty tables or without memory for both; otherwise the old index and class are kept, and the backoff is consistent if and only if that index is in the new tables |
| Backoffs.Backoff.RestartUpdateTime | src/libiotc/iotc_backoff_status_api.c:187-207 | Refines the arming transition on the whole dispatcher: one restart or one scheduling, nothing else; fails exactly if no event is pending afterwards |
| Backoffs.Backoff.Update | src/libiotc/iotc_backoff_status_api.c:165-185 | Refines the report transition on the whole dispatcher |
| Backoffs.Backoff.ApplyCooldown | src/libiotc/iotc_backoff_status_api.c:209-225 | Refines the cooldown transition; fails exactly if the index is above 0 and nothing is pending afterwards |
| Backoffs.Backoff.FireNext | src/libiotc/iotc_backoff_status_api.c:209-225 | Refines the firing transition, whoever the earliest event belongs to |
| Backoffs.Backoff.CancelEvent | src/libiotc/iotc_backoff_status_api.c:94-99 | Cancels the pending cooldown, if there is one, and no other event |
| Backoffs.Backoff.Reset | src/libiotc/iotc_backoff_status_api.c:101-107 | Index 0, no cooldown pending, all other events as they were |
| Backoffs.Backoff.Drive | src/libiotc/iotc_backoff_status_api.c:165-225 | Every run of the class is the run of the state machine over the same operations |
| EventLoops.EventLoop.UpdateFiles | src/libiotc/event_dispatcher/iotc_event_dispatcher.c:527-552 | Afterwards every dispatcher has had exactly the calls that the waiting files' handlers made on it, in order; reports whether there was a waiting file |
| EventLoops.FilesProject | src/libiotc/event_dispatcher/iotc_event_dispatcher.c:532-549 | The same for the files of one dispatcher, of the state machine |
| EventLoops.ScheduledByFile | src/libiotc/event_loop/iotc_event_loop.c:117 | An event that a waiting file's handler schedules on any dispatcher is pending there in the end, at its time, if its handle is not used again |
| EventLoops.SampledStep | src/libiotc/event_loop/iotc_event_loop.c:70-87 | Sampling one more dispatcher keeps the candidate the least time of all pending events so far, attained by one of them |
| EventLoops.EventLoop.SelectTimeout | src/libiotc/event_loop/iotc_event_loop.c:48-142 | The timeout is between 0 and the maximum, is 0 if a file handler ran, and never sleeps past an event pending in the end; with no file handler it is exactly the time to the first event, capped, or the default |
| LinkedLists.List.PushBack | src/libiotc/datastructures/iotc_list.h:20-33 | Appends the node behind the last one |
| LinkedLists.List.Drop | src/libiotc/datastructures/iotc_list.h:53-70 | Takes the node out, if it is there, clears its link, and keeps the others in order |
| LinkedLists.List.Pop | src/libiotc/datastructures/iotc_list.h:72-81 | Takes the first node out and clears its link |
| LinkedLists.List.MoveNode | src/libiotc/datastructures/iotc_list.h:142-160 | Moving one node keeps both lists acyclic and disjoint |
| LinkedLists.List.SplitI | src/libiotc/datastructures/iotc_list.h:134-166 | Both lists end acyclic and disjoint; the input keeps the rejected nodes, the output gets the selected ones; the predicate sees each node once with its original index |
| LinkedLists.SelectedIsStable | src/libiotc/datastructures/iotc_list.h:134-166 | A selected node stands behind exactly the selected nodes that preceded it |
| LinkedLists.KeptIsStable | src/libiotc/datastructures/iotc_list.h:134-166 | The same for the nodes that stay |
| LinkedLists.SplitLengths | src/libiotc/datastructures/iotc_list.h:134-166 | Each side has as many nodes as the predicate named for it |
| LinkedLists.SplitConserves | src/libiotc/datastructures/iotc_list.h:134-166 | Both sides together hold exactly the original nodes |
| LinkedLists.SplitAppendsIff | src/libiotc/datastructures/iotc_list.h:134-166 | The split appends to the output list if and only if nothing is selected or that list has at most one node; otherwise it keeps only its first node in front of the selected ones |
| DataDescs.HighestBit | src/libiotc/iotc_helpers.c:101-109 | The shift-and-mask filter yields the greatest power of two not above the value, for every non-zero 32-bit value |
| DataDescs.SpreadsAll | src/libiotc/iotc_helpers.c:101-109 | Five shifts spread every bit to all places on its right |
| DataDescs.GrowsToSmallest | src/libiotc/iotc_data_desc.c:167-194 | Growth picks the smallest power of two that meets the need |
| DataDescs.GrowthMeetsNeedIff | src/libiotc/iotc_data_desc.c:167-194 | The rule meets a need if and only if it is at most 2^31; above, the capacity is 0 |
| DataDescs.DataDesc.MakeEmpty | src/libiotc/iotc_data_desc.c:22-40 | An empty descriptor of the given capacity, or null exactly when memory is refused |
| DataDescs.DataDesc.MakeCopy | src/libiotc/iotc_data_desc.c:42-62 | The content is a copy of the buffer in memory of the descriptor's own; null exactly when memory is refused |
| DataDescs.DataDesc.MakeShare | src/libiotc/iotc_data_desc.c:64-82 | The content is the caller's buffer itself, not owned; null exactly when memory is refused |
| DataDescs.DataDesc.Realloc | src/libiotc/iotc_data_desc.c:196-227 | Keeps the content, in fresh owned memory of the capacity the rule gives; refused memory changes nothing; the copy overruns the new memory exactly for growth to more than 2^31 |
| DataDescs.DataDesc.AppendDataResize | src/libiotc/iotc_data_desc.c:229-254 | Old content followed by the new bytes, or nothing changed; a borrowed buffer is never written; growth copies the old capacity once; the write overruns exactly if growth is needed for more than 2^31 bytes |
| DataDescs.DataDesc.AppendBytes | src/libiotc/iotc_data_desc.c:256-272 | Appends everything or nothing, without growing |
| DataDescs.DataDesc.AppendAll | src/libiotc/iotc_data_desc.c:196-254 | A run of appends yields old content followed by all chunks, if and only if they come to at most 2^31 bytes or fit in without growing, and growth copied fewer bytes than first plus last capacity |
| DataDescs.DoublesPow2 | src/libiotc/iotc_data_desc.c:167-194 | Growing from a power of two at least doubles, which bounds the copying |
| TlsInbounds.TlsInbound.Pull | src/libiotc/tls/iotc_tls_layer.c:426-432 | A received descriptor's unread bytes join the end of the stream |
| TlsInbounds.TlsInbound.RecvCallback | src/libiotc/tls/iotc_tls_layer.c:33-75 | For any read size: bytes received are bytes delivered followed by bytes left; each queued descriptor has something left; the library is told to wait if and only if nothing is queued |
| TlsInbounds.WaitsWhenNothingLeft | src/libiotc/tls/iotc_tls_layer.c:50-74 | Nothing is queued if and only if no byte is left |
| TlsInbounds.JoinedTake | src/libiotc/tls/iotc_tls_layer.c:52-65 | Taking bytes off the first descriptor takes them off the front of the stream |
| TlsOutbounds.TlsOutbound.SendCallback | src/libiotc/tls/iotc_tls_layer.c:77-138 | Refines the send transition: starts a write, keeps waiting, or reports the whole size once WRITTEN has arrived; with an error exactly if a fresh call is refused its descriptor |
| TlsOutbounds.TlsOutbound.NotifyWritten | src/libiotc/tls/iotc_tls_layer.c:375-384 | Refines the notification transition |
| TlsOutbounds.TlsOutbound.Drive | src/libiotc/tls/iotc_tls_layer.c:97-131 | Every run of the class is the run of the state machine over the same calls and notifications |
| TlsOutbounds.RunKeepsIff | src/libiotc/tls/iotc_tls_layer.c:97-131 | In every run: suspended if and only if the write state is not NONE, one buffer below at most, as many reports as notifications but the latest, each buffer reported in order with its size; throughout if and only if no fresh call is refused memory, for its descriptor or for the push |
| TlsOutbounds.ApplyKeepsIff | src/libiotc/tls/iotc_tls_layer.c:97-131 | The same for one call or notification |
| TlsOutbounds.RefusalIsFinal | src/libiotc/tls/iotc_tls_layer.c:97-131 | After a refusal nothing that the assertions admit changes the layer any more |
| TlsOutbounds.RefusedCalls | src/libiotc/tls/iotc_tls_layer.c:97-131 | Concrete runs: one call without memory for its descriptor, one without memory for the call below; both leave WRITING with nothing below |

## Left out

- Sockets, files, clocks, random generator and heap under `src/bsp/platform`: foreign calls, taken as inputs.
- Cryptography, JWT, the MQTT codec and logic, the TLS handshake and close sequences: driven by libraries that are not part of this model.
- Locks and threads: each operation is modelled as run by one thread; handlers re-enter between operations as in the source.
- File descriptor tuples, and the socket array that the event loop fills for select: only their effect on the timeout, through file handlers, is modelled.
- Handler arguments and argument counts: an event handle is a function number and one argument.
- Timed-task callbacks and user data: a callback is the list of adds, removes and dispatcher calls it makes; calls on the dispatcher leave the tasks' own handles alone.
- Connection states are given to the backoff as their class; the classification table is a plain list of cases.
- State that outlives the teardown and re-creation of the SDK's globals: a backoff lives from one configuration to its release.
- Destruction of containers with elements left in them.
- TimedLoop: runs as many iterations as reactions are given, since the source's loop need not end; `TimedPhaseTerminates` says when it does.
- CallLoop: runs as many iterations as reactions are given, since a handler may enqueue calls for ever.
- SelectTimeout: times are unbounded integers; the source subtracts only the current time from a time not before it, which fits 64 bits for a clock that is not negative.
- Penalty: computed on unbounded integers, which the source's 32-bit values equal for tables below 2^30 (`PenaltyFits`).
- Pull: a layer that is not operational, and the reaction of the TLS library to the new data, are not modelled.
- RemoveIf: the predicate is a pure function of the element.
- TimedTasks.TaskContainer.RunCallback: stops at an add that leaves a freed task in the table, and so do runs there and at a task left without an event; what the source does with such a task later is undefined.
- DataDescs.DataDesc.Realloc: nothing is promised once the copy has overrun the new memory, nor in `AppendDataResize` and `AppendAll`.
- TlsOutbounds.TlsOutbound.NotifyWritten: the layer below notifies only for a buffer it was handed and while the layer is writing, as the source asserts, and after the send callback has returned, never from inside the push.
- TlsOutbounds.RunKeepsIff: the TLS library repeats a pending call with the size it first gave, as its interface demands.
- EventLoops.EventLoop.UpdateFiles: the files are given beforehand; handlers that register or unregister files during the scan, and so move entries of the vector it walks, are not modelled.
- DataDescs.DataDesc.MakeEmpty: capacities and lengths below 2^32, also in `MakeCopy` and `MakeShare`; the source truncates larger ones to 32 bits.
- TimedTasks.TaskContainer.Create: what happens to a container without a table is not modelled beyond saying that it is handed out.

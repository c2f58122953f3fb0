/** The timed tasks of iotc_timed_task.c: a slot table of tasks over the dispatcher's timer queue. Each operation
    refines the transition of the same purpose in TimedTaskRuns. */
module TimedTasks {
  import opened Vectors
  import opened TimerSpec
  import opened TimerQueues
  import opened DispatcherSpec
  import opened Dispatchers
  import opened HandleTables
  import opened TimedTaskSpec
  import opened TimedTaskRuns
  import opened TimedTaskLaws
  import DispatcherRuns

  /** What became of an attempt to add a task: it has a handle; it was refused without a trace; or
      scheduling failed after it had got a slot, and the slot keeps the freed task. */
  datatype AddResult = Added(handle: int) | Refused | Dangling

  /** What became of an attempt to make a container. One whose table was refused is handed out all the same; the
      first use of it fails an assertion. */
  datatype MakeResult = NoContainer | NoTable | Created(container: TaskContainer)

  class TaskContainer {
    const dispatcher: Dispatcher
    const tasks: Vector<Task?>
    /** The handles that others use on the dispatcher. */
    ghost const guests: set<Handle>
    ghost var slots: seq<Task?>
    ghost var released: seq<Task>
    ghost var running: Task?
    ghost var stuck: bool
    ghost var Repr: set<object>

    ghost function View(): Container
      reads this, dispatcher, tasks, if running == null then {} else {running}
    {
      Container(dispatcher.state, slots, if tasks.capacity < 0 then 0 else tasks.capacity, released, running,
                running != null && running.state == DELETABLE, stuck)
    }

    /** The container, its table and its dispatcher do not overlap. */
    ghost predicate Shape()
      reads this, Repr
    {
      && this in Repr && dispatcher in Repr && dispatcher.Repr <= Repr && tasks in Repr && tasks.elems in Repr
      && this !in dispatcher.Repr && tasks !in dispatcher.Repr && tasks.elems !in dispatcher.Repr
      && tasks.Valid() && tasks.managed && tasks.zero == null && tasks.elemNo <= MAX_TIMED_EVENT
      && dispatcher.Valid() && guests <= dispatcher.timers.clients
    }

    /** The registered tasks: scheduled, but for the one whose callback runs. */
    ghost predicate Registered()
      requires Shape()
      reads this, Repr
    {
      slots == tasks.Contents() && Others()
    }

    ghost predicate Others()
      requires Shape()
      reads this, Repr
    {
      && (forall i :: 0 <= i < |slots| && slots[i] != null ==>
            && slots[i] in Repr && slots[i] !in dispatcher.Repr
            && slots[i].delayedEvent in dispatcher.timers.clients && slots[i].delayedEvent !in guests
            && (slots[i].state == SCHEDULED <==> slots[i] != running))
      && (running != null ==> running in Repr && running !in dispatcher.Repr && running.state != SCHEDULED)
      && (forall i :: 0 <= i < |released| ==> released[i] in Repr)
    }

    ghost predicate Heap()
      reads this, Repr
    {
      Shape() && Registered()
    }

    ghost predicate Valid()
      reads this, Repr
    {
      Heap() && LifeCycle(View())
    }

    constructor (dispatcher: Dispatcher, ghost guests: set<Handle>)
      requires dispatcher.Valid() && DispatcherRuns.Sound(dispatcher.state) && guests <= dispatcher.timers.clients
      requires forall i :: 0 <= i < |dispatcher.state.pending| ==> dispatcher.state.pending[i].handler.fn != WRAPPER
      ensures Valid() && this.dispatcher == dispatcher && this.guests == guests && fresh(Repr - dispatcher.Repr)
      ensures View() == Container(dispatcher.state, [], 2, [], null, false, false)
    {
      hide TimerQueue.Wf, TimerQueue.Valid, LinkedLists.List.Valid;
      this.dispatcher, this.guests := dispatcher, guests;
      tasks := new Vector<Task?>(null);
      slots, released, running, stuck := [], [], null, false;
      new;
      Repr := {this, tasks, tasks.elems} + dispatcher.Repr;
    }

    /** `iotc_make_timed_task_container`. */
    static method Create(dispatcher: Dispatcher, ghost guests: set<Handle>,
                         containerOk: bool, tableOk: bool, lockOk: bool)
      returns (r: MakeResult)
      requires dispatcher.Valid() && DispatcherRuns.Sound(dispatcher.state) && guests <= dispatcher.timers.clients
      requires forall x :: x in dispatcher.state.pending ==> x.handler.fn != WRAPPER
      ensures r.NoContainer? <==> !containerOk || !lockOk
      ensures r.NoTable? <==> containerOk && lockOk && !tableOk
      ensures r.Created? ==>
                && fresh(r.container) && r.container.Valid() && r.container.dispatcher == dispatcher
                && r.container.View() == Container(dispatcher.state, [], 2, [], null, false, false)
    {
      if !containerOk || !lockOk {
        return NoContainer;
      }
      if !tableOk {
        return NoTable;
      }
      var container := new TaskContainer(dispatcher, guests);
      r := Created(container);
    }

    lemma Footprint()
      requires Heap()
      ensures this in Repr && tasks in Repr && tasks.elems in Repr && dispatcher in Repr && dispatcher.Repr <= Repr
      ensures dispatcher in dispatcher.Repr && dispatcher.timers in dispatcher.Repr && dispatcher.Valid()
      ensures forall i :: 0 <= i < |slots| && slots[i] != null ==> slots[i] in Repr && slots[i] !in dispatcher.Repr
      ensures running != null ==> running in Repr
      ensures tasks.Valid() && tasks.managed && tasks.zero == null && tasks.elemNo <= MAX_TIMED_EVENT
      ensures slots == tasks.Contents() && tasks !in dispatcher.Repr && tasks.elems !in dispatcher.Repr
      ensures this !in dispatcher.Repr
    {
    }

    // ---------- single steps on the objects ----------

    /** Registers the task and looks its handle up. */
    method Enter(task: Task, pushOk: bool) returns (ok: bool, handle: int)
      requires tasks.Valid() && tasks.managed && tasks.zero == null && task !in tasks.Contents()
      requires tasks.elemNo <= MAX_TIMED_EVENT
      modifies tasks, tasks.elems
      ensures tasks.Valid() && tasks.elemNo <= MAX_TIMED_EVENT
      ensures (tasks.elems == old(tasks.elems) || (ok && fresh(tasks.elems)))
      ensures ok == HasSlot(old(tasks.Contents()), old(tasks.capacity), pushOk)
      ensures tasks.Contents() == if ok then WithTask(old(tasks.Contents()), task) else old(tasks.Contents())
      ensures tasks.capacity == if ok then TableCapacity(old(tasks.Contents()), old(tasks.capacity))
                                else old(tasks.capacity)
      ensures handle == if ok then FirstOf(old(tasks.Contents()), null) else -1
    {
      ghost var s := tasks.Contents();
      var state := RegisterHandle(tasks, MAX_TIMED_EVENT, task, pushOk);
      if state != FOUND {
        return false, -1;
      }
      FirstOfUnique(tasks.Contents(), task,
                    if HasSlot(s, old(tasks.capacity), pushOk) then FirstOf(s, null) else |s|);
      state, handle := FindHandle(tasks, task);
      ok := state == FOUND;
    }

    /** A freshly allocated task gets its slot. */
    method EnterNew(t: Task, pushOk: bool) returns (ok: bool, handle: int)
      requires Heap() && t !in Repr && t.delayedEvent !in Repr && t.delayedEvent.event == null && t.state == SCHEDULED
      requires t !in slots && t != running
      modifies this`slots, this`Repr, tasks, tasks.elems
      modifies dispatcher`Repr, dispatcher.timers`clients, dispatcher.timers`Repr
      ensures Heap() && fresh(Repr - old(Repr) - {t, t.delayedEvent})
      ensures ok == HasSlot(old(slots), old(tasks.capacity), pushOk)
      ensures View() == if ok then old(View()).(slots := WithTask(old(slots), t),
                                                capacity := TableCapacity(old(slots), old(tasks.capacity)))
                        else old(View())
      ensures !ok ==> Repr == old(Repr)
      ensures ok ==> t in Repr && t.delayedEvent in dispatcher.timers.clients && handle == FirstOf(old(slots), null)
    {
      hide TimerQueue.Wf, TimerQueue.Valid, LinkedLists.List.Valid, HasSlot, TableCapacity, WithTask;
      Footprint();
      dispatcher.ClientsInRepr();
      ok, handle := Enter(t, pushOk);
      Repr := Repr + {tasks.elems};
      if ok {
        Occupy(t);
      }
    }

    /** Bookkeeping after a new task was written into the table. */
    ghost method Occupy(t: Task)
      requires Shape() && t !in Repr && t.delayedEvent !in Repr && t.delayedEvent.event == null && t.state == SCHEDULED
      requires t !in slots && t != running && tasks.Contents() == WithTask(slots, t)
      requires Others()
      modifies this`slots, this`Repr, dispatcher`Repr, dispatcher.timers`clients, dispatcher.timers`Repr
      ensures Heap() && slots == tasks.Contents() && Repr == old(Repr) + {t, t.delayedEvent}
      ensures dispatcher.state == old(dispatcher.state) && t.delayedEvent in dispatcher.timers.clients
    {
      hide TimerQueue.Wf, TimerQueue.Valid, LinkedLists.List.Valid, WithTask;
      dispatcher.ClientsInRepr();
      dispatcher.Admit(t.delayedEvent);
      WithTaskSlots(slots, t);
      slots := tasks.Contents();
      Repr := Repr + {t, t.delayedEvent};
    }

    /** Schedules the wrapper call of a task whose event is empty. */
    method ScheduleTask(t: Task, seconds: int, eventOk: bool, growOk: bool) returns (ret: State)
      requires Heap() && t in slots && !Armed(dispatcher.state.pending, t.delayedEvent)
      modifies this`Repr, dispatcher.Repr
      ensures Heap() && fresh(Repr - old(Repr))
      ensures View() == old(View()).(d := Schedule'(old(View()), t, seconds, eventOk, growOk))
      ensures ret == if Schedulable(old(View()), eventOk, growOk) then OK else OUT_OF_MEMORY
    {
      hide TimerQueue.Wf, TimerQueue.Valid, LinkedLists.List.Valid, Apply, Accepts, Armed;
      Footprint();
      dispatcher.ClientsInRepr();
      dispatcher.Liveness(t.delayedEvent);
      ret := dispatcher.ExecuteIn(WrapperFor(t), seconds, t.delayedEvent, eventOk, growOk);
      Repr := Repr + dispatcher.Repr;
    }

    /** Cancels the event of a scheduled task. */
    method CancelTask(t: Task)
      requires Heap() && t in slots && Armed(dispatcher.state.pending, t.delayedEvent)
      modifies dispatcher.Repr
      ensures Heap() && dispatcher.Repr == old(dispatcher.Repr)
      ensures View() == old(View()).(d := Apply(old(View()).d, Cmd.Cancel(t.delayedEvent)))
    {
      hide TimerQueue.Wf, TimerQueue.Valid, LinkedLists.List.Valid, Apply, Armed;
      Footprint();
      dispatcher.Liveness(t.delayedEvent);
      var ret := dispatcher.Cancel(t.delayedEvent);
    }

    /** Frees the slot of a task, and the task. */
    method ReleaseTask(t: Task)
      requires Heap() && t in slots
      modifies this`slots, this`released, this`running, tasks.elems
      ensures running == if old(running) == t then null else old(running)
      ensures slots == Deleted(old(slots), null, t) && released == old(released) + [t]
      ensures dispatcher.state == old(dispatcher.state) && tasks.capacity == old(tasks.capacity)
      ensures t !in slots ==> Heap()
    {
      hide TimerQueue.Wf, TimerQueue.Valid, LinkedLists.List.Valid;
      Footprint();
      var state := DeleteHandle(tasks, t);
      DeletedSlots(slots, t);
      slots := tasks.Contents();
      released := released + [t];
      running := if running == t then null else running;
    }

    // ---------- the operations ----------

    method AddTimedTask(seconds: int, repeats: bool, taskOk: bool, pushOk: bool, eventOk: bool, growOk: bool)
      returns (result: AddResult, ghost task: Task?)
      requires Valid() && !stuck
      modifies Repr
      ensures var cmd := Add(seconds, repeats, taskOk, pushOk, eventOk, growOk);
              Lawful(old(View()), cmd, task) && View() == AddTask(old(View()), cmd, task)
      ensures fresh(Repr - old(Repr)) && (!stuck ==> Valid())
      ensures result.Dangling? <==> stuck
      ensures result.Added? <==> taskOk && HasSlot(old(View()).slots, old(View()).capacity, pushOk) && !stuck
      ensures result.Added? ==> result.handle == FirstOf(old(slots), null)
      ensures result.Added? ==>
                && task != null && task.secondsRepeat == (if repeats then seconds else 0)
                && Arrives(old(View()), View(), task, AddTime(old(View()).d.now, seconds))
    {
      hide Valid, HasSlot, AddTask, Arrives, AddTime, FirstOf;
      task := null;
      Objects();
      if !taskOk {
        NotAllocated(Add(seconds, repeats, taskOk, pushOk, eventOk, growOk));
        return Refused, null;
      }
      var t := new Task(if repeats then seconds else 0);
      task := t;
      IsNew(t);
      result := AddNew(t, Add(seconds, repeats, taskOk, pushOk, eventOk, growOk));
    }

    lemma NotAllocated(cmd: TaskCmd)
      requires cmd.Add?
      ensures AddTask(View(), cmd, null) == View()
    {
    }

    /** The part of an add behind the task's allocation. */
    method AddNew(t: Task, cmd: TaskCmd) returns (result: AddResult)
      requires Valid() && !stuck && cmd.Add? && cmd.taskOk && t.secondsRepeat == if cmd.repeats then cmd.seconds else 0
      requires t !in Repr && t.delayedEvent !in Repr && t.delayedEvent.event == null && t.state == SCHEDULED
      requires NewTask(View(), t) && t != running
      modifies Repr, t, t.delayedEvent
      ensures View() == AddTask(old(View()), cmd, t)
      ensures fresh(Repr - old(Repr) - {t, t.delayedEvent}) && (!stuck ==> Valid())
      ensures result.Dangling? <==> stuck
      ensures result.Added? <==> HasSlot(old(View()).slots, old(View()).capacity, cmd.pushOk) && !stuck
      ensures result.Added? ==> result.handle == FirstOf(old(View()).slots, null)
      ensures result.Added? ==> Arrives(old(View()), View(), t, AddTime(old(View()).d.now, cmd.seconds))
    {
      hide LifeCycle, HasSlot, Schedulable, Schedule', Shape, Registered, WithTask, TableCapacity, FirstOf,
           Arrives, AddTime;
      Footprint();
      AddKeeps(View(), cmd, t);
      if HasSlot(View().slots, View().capacity, cmd.pushOk) && Schedulable(View(), cmd.eventOk, cmd.growOk) {
        Granted(cmd, t);
      }
      result := EnterAndSchedule(t, cmd.seconds, cmd.pushOk, cmd.eventOk, cmd.growOk);
    }

    lemma Granted(cmd: TaskCmd, t: Task)
      requires Valid() && !stuck && cmd.Add? && NewTask(View(), t)
      requires HasSlot(View().slots, View().capacity, cmd.pushOk) && Schedulable(View(), cmd.eventOk, cmd.growOk)
      ensures var e := AddTask(View(), cmd, t);
              Arrives(View(), e, t, AddTime(View().d.now, cmd.seconds))
    {
      hide LifeCycle, HasSlot, Apply, Gains, TakesSlot, AddTime;
      Footprint();
      AddGives(View(), cmd, t);
    }

    /** Slot and event of a new task. */
    method EnterAndSchedule(t: Task, seconds: int, pushOk: bool, eventOk: bool, growOk: bool)
      returns (result: AddResult)
      requires Heap() && !stuck && t !in Repr && t.delayedEvent !in Repr && t.delayedEvent.event == null
      requires t.state == SCHEDULED
      requires NewTask(View(), t) && t != running
      modifies Repr, t, t.delayedEvent
      ensures fresh(Repr - old(Repr) - {t, t.delayedEvent}) && Heap()
      ensures var c := old(View());
              && View() == TimedTaskRuns.Enter(c, t, seconds, pushOk, eventOk, growOk)
              && result == if !HasSlot(c.slots, c.capacity, pushOk) then Refused
                           else if Schedulable(c, eventOk, growOk) then Added(FirstOf(c.slots, null)) else Dangling
    {
      hide HasSlot, Apply, Accepts, Shape, Registered, WithTask, TableCapacity, FirstOf;
      Footprint();
      ghost var c := View();
      var ok, handle := EnterNew(t, pushOk);
      if !ok {
        LogRelease(t);
        return Refused;
      }
      WithTaskSlots(c.slots, t);
      Footprint();
      var ret := ScheduleTask(t, seconds, eventOk, growOk);
      if ret != OK {
        RefusedSchedule(c, t, seconds, eventOk, growOk);
        LogDangling(t);
        return Dangling;
      }
      return Added(handle);
    }

    /** Scheduling has failed: the task is freed, and its slot keeps it. */
    ghost method LogDangling(t: Task)
      requires Heap() && t in slots
      modifies this`released, this`stuck
      ensures Heap() && View() == old(View()).(released := old(released) + [t], stuck := true)
    {
      hide TimerQueue.Wf, TimerQueue.Valid, LinkedLists.List.Valid;
      released, stuck := released + [t], true;
    }

    lemma IsNew(t: Task)
      requires Valid() && t !in Repr && t.delayedEvent !in Repr && t.delayedEvent.event == null
      ensures NewTask(View(), t) && t !in slots && t != running
    {
      hide TimerQueue.Wf, TimerQueue.Valid, LinkedLists.List.Valid;
      dispatcher.ClientsInRepr();
      dispatcher.NotArmed(t.delayedEvent);
    }

    /** A task freed without ever having had a slot. */
    ghost method LogRelease(t: Task)
      requires Heap() && t !in Repr
      modifies this`released, this`Repr
      ensures Heap() && View() == old(View()).(released := old(released) + [t]) && Repr == old(Repr) + {t}
    {
      hide TimerQueue.Wf, TimerQueue.Valid, LinkedLists.List.Valid;
      released, Repr := released + [t], Repr + {t};
    }

    /** Removing a scheduled task cancels and frees it; removing the running one only marks it. */
    method RemoveTimedTask(handle: int)
      requires Valid() && !stuck
      modifies Repr
      ensures Valid() && !stuck && Repr == old(Repr) && View() == RemoveTask(old(View()), handle)
      ensures var i := Int8(handle);
              if i < 0 || i >= |old(slots)| || old(slots)[i] == null then
                slots == old(slots) && released == old(released) && dispatcher.state == old(dispatcher.state)
              else if old(slots)[i] == running then slots == old(slots) && running.state == DELETABLE
              else
                && slots == old(slots)[i := null] && released == old(released) + [old(slots)[i]]
                && Loses(old(dispatcher.state).pending, dispatcher.state.pending, old(slots)[i])
    {
      hide LifeCycle, Apply, Shape, Registered, Deleted, Loses;
      Footprint();
      ghost var c := View();
      RemoveKeeps(c, handle);
      RemoveGives(c, handle, null);
      var task := ObjectForHandle(tasks, handle);
      if task != null {
        Found(handle);
        if task.state == SCHEDULED {
          CancelTask(task);
          ReleasedGone(c, task);
          ReleaseTask(task);
        } else if task.state == RUNNING {
          Mark(task);
        }
      }
    }

    /** The task of a handle is running or has its event. */
    lemma Found(handle: int)
      requires Valid() && ObjectFor(slots, null, handle) != null
      ensures var t := ObjectFor(slots, null, handle);
              && t in slots && (t.state == SCHEDULED <==> t != running)
              && (t != running ==> Armed(dispatcher.state.pending, t.delayedEvent))
    {
      var t := ObjectFor(slots, null, handle);
      Owner(dispatcher.state.pending, slots, Idle(running), t);
    }

    lemma ReleasedGone(c: Container, t: Task)
      requires LifeCycle(c) && t in c.slots
      ensures t !in Deleted(c.slots, null, t)
    {
      OwnedDistinct(c.d.pending, c.slots, Idle(c.running));
    }

    method Mark(t: Task)
      requires Heap() && t == running
      modifies t`state
      ensures Heap() && View() == old(View()).(removed := true)
    {
      hide TimerQueue.Wf, TimerQueue.Valid, LinkedLists.List.Valid;
      t.state := DELETABLE;
    }

    /** A call on the dispatcher that is none of the tasks' business. */
    method CallDispatcher(cmd: Cmd)
      requires Valid() && !stuck && Known(cmd, guests) && (cmd.Schedule? ==> cmd.handler.fn != WRAPPER)
      modifies this`Repr, dispatcher.Repr
      ensures Foreign(old(View()), cmd) && View() == old(View()).(d := Apply(old(View()).d, cmd))
      ensures Valid() && fresh(Repr - old(Repr))
    {
      hide TimerQueue.Wf, TimerQueue.Valid, LinkedLists.List.Valid, Apply, Owned, DispatcherRuns.Sound;
      Footprint();
      CallKeeps(View(), cmd);
      dispatcher.Call(cmd);
      Repr := Repr + dispatcher.Repr;
    }

    ghost predicate Allowed(cmd: TaskCmd)
    {
      cmd.Call? ==> Known(cmd.cmd, guests) && (cmd.cmd.Schedule? ==> cmd.cmd.handler.fn != WRAPPER)
    }

    method PerformCmd(cmd: TaskCmd) returns (healthy: bool, ghost t: Task?)
      requires Valid() && !stuck && Allowed(cmd)
      modifies Repr
      ensures Lawful(old(View()), cmd, t) && View() == Perform(old(View()), cmd, t)
      ensures fresh(Repr - old(Repr)) && healthy == !stuck && (healthy ==> Valid())
    {
      hide Valid, NewTask, Foreign, AddTask, RemoveTask, Apply, HasSlot;
      Objects();
      healthy := true;
      match cmd {
        case Add(seconds, repeats, taskOk, pushOk, eventOk, growOk) =>
          var result;
          result, t := AddTimedTask(seconds, repeats, taskOk, pushOk, eventOk, growOk);
          healthy := !result.Dangling?;
        case Remove(handle) =>
          RemoveTimedTask(handle);
          t := null;
        case Call(call) =>
          CallDispatcher(call);
          t := null;
      }
    }

    lemma Objects()
      requires Valid()
      ensures this in Repr && dispatcher.Repr <= Repr && dispatcher in Repr && tasks in Repr
      ensures running != null ==> running in Repr
    {
    }

    /** The user's callback. It stops where an add leaves a freed task in the table. */
    method RunCallback(cmds: seq<TaskCmd>) returns (healthy: bool, ghost ts: seq<Task?>)
      requires Valid() && !stuck && forall i :: 0 <= i < |cmds| ==> Allowed(cmds[i])
      modifies Repr
      ensures |ts| == |cmds| && AllLawful(old(View()), cmds, ts) && View() == PerformAll(old(View()), cmds, ts)
      ensures fresh(Repr - old(Repr)) && healthy == !stuck && (healthy ==> Valid())
    {
      hide Valid, Perform, Lawful;
      ghost var c := View();
      healthy, ts := true, [];
      var i := 0;
      while i < |cmds| && healthy
        invariant 0 <= i <= |cmds| && |ts| == i && healthy == !stuck
        invariant AllLawful(c, cmds[..i], ts) && View() == PerformAll(c, cmds[..i], ts)
        invariant fresh(Repr - old(Repr)) && (healthy ==> Valid())
        decreases |cmds| - i
      {
        ghost var t;
        healthy, t := PerformCmd(cmds[i]);
        PerformAllAppend(c, cmds[..i], ts, cmds[i], t);
        assert cmds[..i] + [cmds[i]] == cmds[..i + 1];
        ts := ts + [t];
        i := i + 1;
      }
      ghost var all := ts + Nulls(|cmds| - i);
      assert all[..i] == ts && all[i..] == Nulls(|cmds| - i);
      PerformAllSplit(c, cmds, all, i);
      if healthy {
        assert all == ts && cmds[..i] == cmds;
      } else {
        StuckStays(View(), cmds[i..], Nulls(|cmds| - i));
      }
      ts := all;
    }

    // ---------- the timed loop ----------

    /** Pops the first event if it is due. */
    method TakeDue() returns (due: bool, handle: EventHandle)
      requires Heap()
      modifies dispatcher.Repr
      ensures Heap() && dispatcher.Repr == old(dispatcher.Repr)
      ensures due == Due(old(dispatcher.state))
      ensures View() == if due then old(View()).(d := Pop(old(View()).d)) else old(View())
      ensures due ==> handle == old(dispatcher.state).pending[0].handler
    {
      hide TimerQueue.Wf, TimerQueue.Valid, LinkedLists.List.Valid;
      Footprint();
      due, handle := dispatcher.PopDue();
    }

    method MarkRunning(t: Task)
      requires Heap() && running == null && t in slots
      modifies this`running, t`state
      ensures Heap() && View() == old(View()).(running := t, removed := false)
    {
      hide TimerQueue.Wf, TimerQueue.Valid, LinkedLists.List.Valid;
      t.state := RUNNING;
      running := t;
    }

    method MarkScheduled(t: Task)
      requires Heap() && running == t
      modifies this`running, t`state
      ensures Heap() && View() == old(View()).(running := null, removed := false)
    {
      hide TimerQueue.Wf, TimerQueue.Valid, LinkedLists.List.Valid;
      t.state := SCHEDULED;
      running := null;
    }

    /** What is left to do after the callback of the task in slot k. */
    method FinishTask(t: Task, ghost k: nat, eventOk: bool, growOk: bool) returns (healthy: bool)
      requires Valid() && !stuck && running == t && k < |slots| && slots[k] == t
      modifies Repr
      ensures View() == Finish(old(View()), t, eventOk, growOk)
      ensures fresh(Repr - old(Repr)) && healthy == !stuck && (healthy ==> Valid())
    {
      hide LifeCycle, Apply, Accepts, Shape, Registered, Deleted, Schedulable, Schedule';
      Footprint();
      ghost var c := View();
      FinishKeeps(c, t, k, eventOk, growOk);
      healthy := true;
      if t.secondsRepeat == 0 || t.state == DELETABLE {
        ReleasedGone(c, t);
        ReleaseTask(t);
      } else {
        RunningIdle(t);
        var ret := ScheduleTask(t, t.secondsRepeat, eventOk, growOk);
        if ret == OK {
          MarkScheduled(t);
        } else {
          Footprint();
          RefusedSchedule(c, t, t.secondsRepeat, eventOk, growOk);
          stuck, healthy := true, false;
        }
      }
    }

    lemma RunningIdle(t: Task)
      requires Valid() && running == t
      ensures t in slots && !Armed(dispatcher.state.pending, t.delayedEvent)
    {
      Owner(dispatcher.state.pending, slots, Idle(running), t);
    }

    /** What the dispatcher calls for a task whose event it has just popped. */
    method CallbackWrapper(t: Task, cmds: seq<TaskCmd>, eventOk: bool, growOk: bool)
      returns (healthy: bool, ghost ts: seq<Task?>)
      requires Heap() && !stuck && running == null && t in slots && LifeCycle(View().(running := t, removed := false))
      requires forall i :: 0 <= i < |cmds| ==> Allowed(cmds[i])
      modifies Repr
      ensures var c := old(View()).(running := t, removed := false);
              && |ts| == |cmds| && AllLawful(c, cmds, ts)
              && View() == Finish(PerformAll(c, cmds, ts), t, eventOk, growOk)
      ensures fresh(Repr - old(Repr)) && healthy == !stuck && (healthy ==> Valid())
    {
      hide LifeCycle, Shape, Registered, PerformAll, AllLawful, RemovesSlot;
      Footprint();
      ts := Nulls(|cmds|);
      healthy := true;
      ghost var k := FirstOf(slots, t);
      var state, handle := FindHandle(tasks, t);
      if state == FOUND {
        MarkRunning(t);
        ghost var c := View();
        healthy, ts := RunCallback(cmds);
        PerformAllKeeps(c, cmds, ts);
        PerformAllSlot(c, cmds, ts, k);
        if healthy {
          healthy := FinishTask(t, k, eventOk, growOk);
        }
      }
    }

    /** One iteration of the dispatcher's timed loop. */
    method FireEvent(cmds: seq<TaskCmd>, eventOk: bool, growOk: bool)
      returns (healthy: bool, fired: Task?, ghost ts: seq<Task?>)
      requires Valid() && !stuck && running == null && forall i :: 0 <= i < |cmds| ==> Allowed(cmds[i])
      modifies Repr
      ensures |ts| == |cmds| && OpLawful(old(View()), FireOp(cmds, eventOk, growOk), ts)
      ensures View() == FireNext(old(View()), cmds, ts, eventOk, growOk)
      ensures fired == if Due(old(dispatcher.state)) then TaskOf(old(dispatcher.state).pending[0]) else null
      ensures fresh(Repr - old(Repr)) && healthy == !stuck && (healthy ==> Valid() && running == null)
    {
      hide LifeCycle, Shape, Registered, PerformAll, AllLawful, Finish;
      Footprint();
      ghost var c := View();
      ts := Nulls(|cmds|);
      healthy, fired := true, null;
      var due, handle := TakeDue();
      if !due {
        return;
      }
      Begins(c);
      if handle.fn != WRAPPER {
        return;
      }
      fired := handle.arg as Task;
      healthy, ts := CallbackWrapper(fired, cmds, eventOk, growOk);
      FireFacts(c, cmds, ts, eventOk, growOk);
    }

    /** A silent move of the dispatcher. */
    method OtherMove(move: Move)
      requires Valid() && Silent(move)
      modifies dispatcher.Repr
      ensures Valid() && View() == old(View()).(d := Make(old(View()).d, move)) && Repr == old(Repr)
    {
      hide TimerQueue.Wf, TimerQueue.Valid, LinkedLists.List.Valid, LifeCycle, Make;
      Footprint();
      SilentKeeps(View(), move);
      dispatcher.MakeSilent(move);
    }

    ghost predicate OpAllowed(op: Op)
    {
      match op
      case DoOp(cmd) => Allowed(cmd)
      case SilentOp(move) => Silent(move)
      case FireOp(cmds, _, _) => forall i :: 0 <= i < |cmds| ==> Allowed(cmds[i])
    }

    /** One operation between handlers. */
    method PerformOp(op: Op) returns (healthy: bool, ghost ts: seq<Task?>)
      requires Valid() && !stuck && running == null && OpAllowed(op)
      modifies Repr
      ensures |ts| == Names(op) && OpLawful(old(View()), op, ts) && View() == TimedTaskRuns.Act(old(View()), op, ts)
      ensures fresh(Repr - old(Repr)) && healthy == !stuck && (healthy ==> Valid() && running == null)
    {
      hide Valid, Perform, Lawful, FireNext, AllLawful;
      Objects();
      match op {
        case DoOp(cmd) =>
          ghost var t;
          ghost var c := View();
          healthy, t := PerformCmd(cmd);
          RunningStays(c, cmd, t);
          ts := [t];
        case SilentOp(move) =>
          OtherMove(move);
          healthy, ts := true, [];
        case FireOp(cmds, eventOk, growOk) =>
          var fired;
          healthy, fired, ts := FireEvent(cmds, eventOk, growOk);
      }
    }

    /** Whole runs, until the machine gets stuck. */
    method Drive(ops: seq<Op>) returns (healthy: bool, ghost names: seq<seq<Task?>>)
      requires Valid() && !stuck && running == null && forall i :: 0 <= i < |ops| ==> OpAllowed(ops[i])
      modifies Repr
      ensures Fits(ops, names) && RunLawful(old(View()), ops, names)
      ensures View() == TimedTaskRuns.Run(old(View()), ops, names)
      ensures fresh(Repr - old(Repr)) && healthy == !stuck && (healthy ==> Valid() && running == null)
    {
      hide Valid, TimedTaskRuns.Act, OpLawful, OpAllowed;
      ghost var c := View();
      healthy, names := true, [];
      var i := 0;
      while i < |ops| && healthy
        invariant 0 <= i <= |ops| && Fits(ops[..i], names) && healthy == !stuck
        invariant RunLawful(c, ops[..i], names) && View() == TimedTaskRuns.Run(c, ops[..i], names)
        invariant fresh(Repr - old(Repr)) && (healthy ==> Valid() && running == null)
        decreases |ops| - i
      {
        ghost var ts;
        healthy, ts := PerformOp(ops[i]);
        RunAppend(c, ops[..i], names, ops[i], ts);
        assert ops[..i] + [ops[i]] == ops[..i + 1];
        names := names + [ts];
        i := i + 1;
      }
      if healthy {
        assert ops[..i] == ops;
      } else {
        names := RunStuck(c, ops, names, i);
      }
    }
  }
}

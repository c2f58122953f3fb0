/** What each operation of the timed-task container means for its table, its tasks and the pending events. */
module TimedTaskLaws {
  import opened Sequences
  import opened TimerSpec
  import opened DispatcherSpec
  import opened DispatcherRuns
  import opened DispatcherLaws
  import opened Vectors
  import opened HandleTables
  import opened TimedTaskSpec
  import opened TimedTaskRuns

  /** One entry more, in its place: the wrapper call for t, due at the given time, reached through t's handle. */
  ghost predicate Gains(v: seq<Entry>, w: seq<Entry>, t: Task, time: int)
  {
    && Armed(w, t.delayedEvent)
    && var x := w[IndexOf(w, t.delayedEvent)];
       x.handler == EventHandle(WRAPPER, t) && x.time == time && x.handle == t.delayedEvent && Placed(v, w, x)
  }

  /** One entry less: the one reached through t's handle. */
  ghost predicate Loses(v: seq<Entry>, w: seq<Entry>, t: Task)
  {
    && !Armed(w, t.delayedEvent)
    && exists i :: 0 <= i < |v| && v[i].handle == t.delayedEvent && w == v[..i] + v[i + 1..]
  }

  /** Slot k is free, or one behind the last, and no slot before it is free. */
  ghost predicate LowestFree(slots: seq<Task?>, k: nat)
  {
    k <= |slots| && (k < |slots| ==> slots[k] == null) && forall i :: 0 <= i < k ==> slots[i] != null
  }

  /** t is in the lowest free slot, or in a new one behind all others; nothing else has moved. */
  ghost predicate TakesSlot(slots: seq<Task?>, after: seq<Task?>, t: Task)
  {
    exists k: nat :: LowestFree(slots, k) && after == if k < |slots| then slots[k := t] else slots + [t]
  }

  /** t gains an event due at the given time, and a slot; no task is freed. */
  ghost predicate Arrives(c: Container, e: Container, t: Task, time: int)
  {
    && Gains(c.d.pending, e.d.pending, t, time) && TakesSlot(c.slots, e.slots, t)
    && e.released == c.released && e.running == c.running && e.removed == c.removed
  }

  lemma ScheduleGains(d: DState, t: Task, seconds: int, eventOk: bool, growOk: bool)
    requires Sorted(d.pending) && !Armed(d.pending, t.delayedEvent)
    requires eventOk && Accepts(|d.pending|, d.capacity, growOk)
    ensures var w := Apply(d, Schedule(WrapperFor(t), seconds, t.delayedEvent, eventOk, growOk)).pending;
            && Gains(d.pending, w, t, AddTime(d.now, seconds))
            && forall h: Handle :: h != t.delayedEvent ==> SameFor(d.pending, w, h)
  {
    hide Apply, Placed, AddTime;
    var cmd := Schedule(WrapperFor(t), seconds, t.delayedEvent, eventOk, growOk);
    ScheduleAdds(d, WrapperFor(t), seconds, t.delayedEvent, eventOk, growOk);
    ScheduleArms(d, WrapperFor(t), seconds, t.delayedEvent, eventOk, growOk);
    forall h: Handle | h != t.delayedEvent
      ensures SameFor(d.pending, Apply(d, cmd).pending, h)
    {
      OthersKeep(d, cmd, h);
    }
  }

  lemma CancelLoses(d: DState, t: Task)
    requires DistinctHandles(d.pending) && Armed(d.pending, t.delayedEvent)
    ensures var w := Apply(d, Cancel(t.delayedEvent)).pending;
            && Loses(d.pending, w, t)
            && forall h: Handle :: h != t.delayedEvent ==> SameFor(d.pending, w, h)
  {
    hide Apply;
    CancelEmpties(d, t.delayedEvent);
    CancelRemoves(d, t.delayedEvent);
    assert d.pending[IndexOf(d.pending, t.delayedEvent)].handle == t.delayedEvent;
    forall h: Handle | h != t.delayedEvent
      ensures SameFor(d.pending, Apply(d, Cancel(t.delayedEvent)).pending, h)
    {
      OthersKeep(d, Cancel(t.delayedEvent), h);
    }
  }

  lemma WithTaskTakes(slots: seq<Task?>, t: Task)
    ensures TakesSlot(slots, WithTask(slots, t), t)
  {
    assert LowestFree(slots, FirstOf(slots, null));
  }

  /** A new task that gets a slot and an event: the event is due the delay after now. */
  lemma AddGives(c: Container, cmd: TaskCmd, t: Task)
    requires cmd.Add? && LifeCycle(c) && !c.stuck && NewTask(c, t)
    requires HasSlot(c.slots, c.capacity, cmd.pushOk) && cmd.eventOk && Accepts(|c.d.pending|, c.d.capacity, cmd.growOk)
    ensures var e := Perform(c, cmd, t);
            && Arrives(c, e, t, AddTime(c.d.now, cmd.seconds)) && !e.stuck
            && (forall h: Handle :: h != t.delayedEvent ==> SameFor(c.d.pending, e.d.pending, h))
            && e.d.now == c.d.now && e.d.fired == c.d.fired && e.d.calls == c.d.calls
  {
    hide Owned, Gains, SameFor, Accepts, AddTime, Insert, HasSlot, TakesSlot, WithTask, TableCapacity, Upper, IndexOf;
    ScheduleGains(c.d, t, cmd.seconds, cmd.eventOk, cmd.growOk);
    WithTaskTakes(c.slots, t);
  }

  /** Without memory for the task nothing happens; without a slot it is freed; without an event it is freed and
      keeps its slot. */
  lemma AddFails(c: Container, cmd: TaskCmd, t: Task?)
    requires cmd.Add? && !c.stuck
    ensures t == null ==> Perform(c, cmd, t) == c
    ensures t != null && !HasSlot(c.slots, c.capacity, cmd.pushOk) ==>
              Perform(c, cmd, t) == c.(released := c.released + [t])
    ensures t != null && HasSlot(c.slots, c.capacity, cmd.pushOk)
            && !(cmd.eventOk && Accepts(|c.d.pending|, c.d.capacity, cmd.growOk)) ==>
              var e := Perform(c, cmd, t);
              e.stuck && e.d == c.d && e.released == c.released + [t] && TakesSlot(c.slots, e.slots, t)
  {
    hide HasSlot, Accepts, Apply, TakesSlot, WithTask, TableCapacity;
    if t != null {
      WithTaskTakes(c.slots, t);
      if !Schedulable(c, cmd.eventOk, cmd.growOk) {
        RefusedSchedule(c, t, cmd.seconds, cmd.eventOk, cmd.growOk);
      }
    }
  }

  /** Whether there is a slot for one more task. */
  lemma HasSlotIff(slots: seq<Task?>, capacity: nat, pushOk: bool)
    ensures HasSlot(slots, capacity, pushOk) <==>
              (null in slots
               || (|slots| < 64 && (|slots| < capacity || (pushOk && 2 * capacity <= 127))))
  {
    if null in slots {
      var i :| 0 <= i < |slots| && slots[i] == null;
      assert FirstOf(slots, null) <= i;
    }
  }

  lemma HasEvent(v: seq<Entry>, t: Task, idle: set<Task>)
    requires Stands(v, t, idle) && t !in idle
    ensures Armed(v, t.delayedEvent)
  {
  }

  /** Removing a task that is not running: its slot is free, its event is gone, it is freed. A handle of no task
      changes nothing; the running task is only marked. */
  lemma RemoveGives(c: Container, handle: int, name: Task?)
    requires LifeCycle(c) && !c.stuck
    ensures var e, i := Perform(c, Remove(handle), name), Int8(handle);
            if i < 0 || i >= |c.slots| || c.slots[i] == null then e == c
            else if c.slots[i] == c.running then e == c.(removed := true)
            else
              && e.slots == c.slots[i := null] && e.released == c.released + [c.slots[i]]
              && Loses(c.d.pending, e.d.pending, c.slots[i])
              && (forall h: Handle :: h != c.slots[i].delayedEvent ==> SameFor(c.d.pending, e.d.pending, h))
              && e.running == c.running && e.removed == c.removed && e.stuck == c.stuck
              && e.d.now == c.d.now && e.d.fired == c.d.fired && e.d.calls == c.d.calls
  {
    hide Stands, NoStrayCalls, Int8, Loses, SameFor, RemoveAt;
    var i := Int8(handle);
    if 0 <= i < |c.slots| && c.slots[i] != null && c.slots[i] != c.running {
      SoundHandles(c.d);
      Owner(c.d.pending, c.slots, Idle(c.running), c.slots[i]);
      HasEvent(c.d.pending, c.slots[i], Idle(c.running));
      CancelLoses(c.d, c.slots[i]);
      OwnedDistinct(c.d.pending, c.slots, Idle(c.running));
      FirstOfUnique(c.slots, c.slots[i], i);
    }
  }

  /** A call on the dispatcher is made there, and touches nothing else. */
  lemma CallGives(c: Container, cmd: Cmd, name: Task?)
    requires !c.stuck
    ensures Perform(c, Call(cmd), name) == c.(d := Apply(c.d, cmd))
  {
  }

  /** Operations between callbacks are those commands, the moves of the dispatcher, and firings. A due event that
      is no task's is popped, and nothing else happens. */
  lemma OperationGives(c: Container, op: Op, ts: seq<Task?>)
    requires |ts| == Names(op) && !c.stuck
    ensures op.DoOp? ==> TimedTaskRuns.Act(c, op, ts) == Perform(c, op.cmd, ts[0])
    ensures op.SilentOp? ==> TimedTaskRuns.Act(c, op, ts) == c.(d := Make(c.d, op.move))
    ensures op.FireOp? && !Due(c.d) ==> TimedTaskRuns.Act(c, op, ts) == c
    ensures op.FireOp? && Due(c.d) && c.d.pending[0].handler.fn != WRAPPER ==>
              TimedTaskRuns.Act(c, op, ts) == c.(d := Pop(c.d))
  {
    hide Perform, Make, PerformAll, Finish;
  }
}

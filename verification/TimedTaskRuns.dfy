/** The timed-task container as a state machine, and what holds over all its runs. Callbacks are open: each
    execution gets the list of calls it makes. Which task object an allocation yields is given as a name. */
module TimedTaskRuns {
  import opened Sequences
  import opened TimerSpec
  import opened DispatcherSpec
  import opened DispatcherRuns
  import opened Vectors
  import opened HandleTables
  import opened TimedTaskSpec

  const MAX_TIMED_EVENT := 64

  /** What a task callback, or a client between handlers, does to the container, or to the dispatcher behind
      its back. The flags say whether memory was granted. */
  datatype TaskCmd =
    | Add(seconds: int, repeats: bool, taskOk: bool, pushOk: bool, eventOk: bool, growOk: bool)
    | Remove(handle: int)
    | Call(cmd: Cmd)

  /** One step of a run. What the handlers of events that are no tasks do comes as operations of their own. */
  datatype Op =
    | DoOp(cmd: TaskCmd)
    | SilentOp(move: Move)
    | FireOp(cmds: seq<TaskCmd>, eventOk: bool, growOk: bool)

  /** The dispatcher, the table with its capacity, the tasks freed so far in order, the task whose callback
      runs and whether it has been removed. The machine is stuck once a task that is freed, or owns no event,
      is left in the table: the source has no defined behaviour from there. */
  datatype Container = Container(d: DState, slots: seq<Task?>, capacity: nat, released: seq<Task>,
                                 running: Task?, removed: bool, stuck: bool)

  // ---------- transitions ----------

  /** Whether the table has a slot for one more task. */
  predicate HasSlot(slots: seq<Task?>, capacity: nat, pushOk: bool)
  {
    FirstOf(slots, null) < |slots| || (|slots| < MAX_TIMED_EVENT && Accepts(|slots|, capacity, pushOk))
  }

  function WithTask(slots: seq<Task?>, t: Task): seq<Task?>
  {
    var k := FirstOf(slots, null);
    if k < |slots| then slots[k := t] else slots + [t]
  }

  function TableCapacity(slots: seq<Task?>, capacity: nat): nat
  {
    if FirstOf(slots, null) < |slots| then capacity else Grown(|slots|, capacity)
  }

  function Schedule'(c: Container, t: Task, seconds: int, eventOk: bool, growOk: bool): DState
  {
    Apply(c.d, Schedule(WrapperFor(t), seconds, t.delayedEvent, eventOk, growOk))
  }

  predicate Schedulable(c: Container, eventOk: bool, growOk: bool)
  {
    eventOk && Accepts(|c.d.pending|, c.d.capacity, growOk)
  }

  lemma RefusedSchedule(c: Container, t: Task, seconds: int, eventOk: bool, growOk: bool)
    requires !Schedulable(c, eventOk, growOk)
    ensures Schedule'(c, t, seconds, eventOk, growOk) == c.d
  {
  }

  function AddTask(c: Container, cmd: TaskCmd, t: Task?): Container
    requires cmd.Add?
  {
    if t == null then c else Enter(c, t, cmd.seconds, cmd.pushOk, cmd.eventOk, cmd.growOk)
  }

  /** A new task gets a slot and an event. Without a slot it is freed; without an event, too, but it keeps its slot. */
  function Enter(c: Container, t: Task, seconds: int, pushOk: bool, eventOk: bool, growOk: bool): Container
  {
    if !HasSlot(c.slots, c.capacity, pushOk) then c.(released := c.released + [t])
    else
      var e := c.(slots := WithTask(c.slots, t), capacity := TableCapacity(c.slots, c.capacity));
      if Schedulable(c, eventOk, growOk) then e.(d := Schedule'(c, t, seconds, eventOk, growOk))
      else e.(released := c.released + [t], stuck := true)
  }

  function RemoveTask(c: Container, handle: int): Container
  {
    var t := ObjectFor(c.slots, null, handle);
    if t == null then c
    else if t == c.running then c.(removed := true)
    else c.(d := Apply(c.d, Cancel(t.delayedEvent)), slots := Deleted(c.slots, null, t), released := c.released + [t])
  }

  function Perform(c: Container, cmd: TaskCmd, t: Task?): Container
  {
    if c.stuck then c
    else match cmd
      case Add(_, _, _, _, _, _) => AddTask(c, cmd, t)
      case Remove(handle) => RemoveTask(c, handle)
      case Call(cmd) => c.(d := Apply(c.d, cmd))
  }

  function PerformAll(c: Container, cmds: seq<TaskCmd>, ts: seq<Task?>): Container
    requires |cmds| == |ts|
    decreases |cmds|
  {
    if cmds == [] then c else PerformAll(Perform(c, cmds[0], ts[0]), cmds[1..], ts[1..])
  }

  /** After the callback: the task is freed, or scheduled again. */
  function Finish(c: Container, t: Task, eventOk: bool, growOk: bool): Container
  {
    if c.stuck then c
    else if t.secondsRepeat == 0 || c.removed then
      c.(slots := Deleted(c.slots, null, t), released := c.released + [t], running := null, removed := false)
    else if Schedulable(c, eventOk, growOk) then
      c.(d := Schedule'(c, t, t.secondsRepeat, eventOk, growOk), running := null)
    else c.(stuck := true)
  }

  /** The task a wrapper call is for. */
  function TaskOf(x: Entry): Task?
  {
    if x.handler.fn == WRAPPER && x.handler.arg is Task then x.handler.arg as Task else null
  }

  /** One iteration of the dispatcher's timed loop. */
  function FireNext(c: Container, cmds: seq<TaskCmd>, ts: seq<Task?>, eventOk: bool, growOk: bool): Container
    requires |cmds| == |ts|
  {
    if c.stuck || !Due(c.d) then c
    else
      var e, t := c.(d := Pop(c.d)), TaskOf(c.d.pending[0]);
      if t == null then e else Finish(PerformAll(e.(running := t, removed := false), cmds, ts), t, eventOk, growOk)
  }

  /** How many names an operation may take. */
  function Names(op: Op): nat
  {
    match op
    case DoOp(_) => 1
    case SilentOp(_) => 0
    case FireOp(cmds, _, _) => |cmds|
  }

  function Act(c: Container, op: Op, ts: seq<Task?>): Container
    requires |ts| == Names(op)
  {
    match op
    case DoOp(cmd) => Perform(c, cmd, ts[0])
    case SilentOp(move) => if c.stuck then c else c.(d := Make(c.d, move))
    case FireOp(cmds, eventOk, growOk) => FireNext(c, cmds, ts, eventOk, growOk)
  }

  predicate Fits(ops: seq<Op>, names: seq<seq<Task?>>)
  {
    |ops| == |names| && forall i :: 0 <= i < |ops| ==> |names[i]| == Names(ops[i])
  }

  function Run(c: Container, ops: seq<Op>, names: seq<seq<Task?>>): Container
    requires Fits(ops, names)
    decreases |ops|
  {
    if ops == [] then c else Run(Act(c, ops[0], names[0]), ops[1..], names[1..])
  }

  // ---------- what a run may do ----------

  /** The object is new: no slot, no list of freed tasks and no event knows it or its handle. */
  ghost predicate NewTask(c: Container, t: Task)
  {
    && t !in c.slots && t !in c.released && !Armed(c.d.pending, t.delayedEvent)
    && forall i :: 0 <= i < |c.slots| && c.slots[i] != null ==> c.slots[i].delayedEvent != t.delayedEvent
  }

  /** The call neither is a wrapper call nor touches a task's event. */
  ghost predicate Foreign(c: Container, cmd: Cmd)
  {
    && (cmd.Schedule? ==> cmd.handler.fn != WRAPPER)
    && forall i :: 0 <= i < |c.slots| && c.slots[i] != null ==> !Uses(cmd, c.slots[i].delayedEvent)
  }

  /** t is what the allocator answers. */
  ghost predicate Lawful(c: Container, cmd: TaskCmd, t: Task?)
  {
    match cmd
    case Add(seconds, repeats, taskOk, _, _, _) =>
      && (t != null <==> taskOk)
      && (t != null ==> NewTask(c, t) && t.secondsRepeat == if repeats then seconds else 0)
    case Remove(_) => true
    case Call(cmd) => Foreign(c, cmd)
  }

  ghost predicate AllLawful(c: Container, cmds: seq<TaskCmd>, ts: seq<Task?>)
    requires |cmds| == |ts|
    decreases |cmds|
  {
    c.stuck || cmds == []
    || (Lawful(c, cmds[0], ts[0]) && AllLawful(Perform(c, cmds[0], ts[0]), cmds[1..], ts[1..]))
  }

  ghost predicate OpLawful(c: Container, op: Op, ts: seq<Task?>)
    requires |ts| == Names(op)
  {
    c.stuck ||
    match op
    case DoOp(cmd) => Lawful(c, cmd, ts[0])
    case SilentOp(move) => Silent(move)
    case FireOp(cmds, _, _) =>
      Due(c.d) && TaskOf(c.d.pending[0]) != null ==> AllLawful(Begun(c), cmds, ts)
  }

  /** The callback of the first event begins. */
  function Begun(c: Container): Container
    requires c.d.pending != []
  {
    c.(d := Pop(c.d), running := TaskOf(c.d.pending[0]), removed := false)
  }

  ghost predicate RunLawful(c: Container, ops: seq<Op>, names: seq<seq<Task?>>)
    requires Fits(ops, names)
    decreases |ops|
  {
    ops == [] || (OpLawful(c, ops[0], names[0]) && RunLawful(Act(c, ops[0], names[0]), ops[1..], names[1..]))
  }

  // ---------- the life cycle ----------

  ghost function Idle(running: Task?): set<Task>
  {
    if running == null then {} else {running}
  }

  /** Every registered task owns one pending event, but the one whose callback runs; none of them has been
      freed, and none was freed twice. */
  ghost predicate LifeCycle(c: Container)
  {
    && Owned(c.d.pending, c.slots, Idle(c.running)) && Sound(c.d) && |c.slots| <= MAX_TIMED_EVENT
    && (if c.running == null then !c.removed else c.running in c.slots)
    && (forall i :: 0 <= i < |c.slots| && c.slots[i] != null ==> c.slots[i] !in c.released)
    && (forall i, j :: 0 <= i < j < |c.released| ==> c.released[i] != c.released[j])
  }

  lemma SlotTasks(slots: seq<Task?>, t: Task)
    requires t !in slots
    ensures forall i :: 0 <= i < |slots| && slots[i] != null ==> slots[i] != t
  {
  }

  lemma AddKeeps(c: Container, cmd: TaskCmd, t: Task?)
    requires cmd.Add? && LifeCycle(c) && Lawful(c, cmd, t)
    ensures var e := AddTask(c, cmd, t);
            && e.running == c.running && e.removed == c.removed && c.released <= e.released
            && (!e.stuck ==> LifeCycle(e))
  {
    hide Owned, Sound, Apply, Accepts, IndexOf;
    var e := AddTask(c, cmd, t);
    if t != null && HasSlot(c.slots, c.capacity, cmd.pushOk) && Schedulable(c, cmd.eventOk, cmd.growOk) {
      var idle := Idle(c.running);
      SlotTasks(c.slots, t);
      OwnedAfterEnter(c.d.pending, c.slots, idle, e.slots, FirstOf(c.slots, null), t);
      ScheduledKeeps(c, e.slots, idle + {t}, t, cmd.seconds, cmd.eventOk, cmd.growOk);
      assert idle + {t} - {t} == idle;
      assert t in e.slots by {
        assert e.slots[FirstOf(c.slots, null)] == t;
      }
    }
  }

  /** An idle task's event is scheduled. */
  lemma ScheduledKeeps(c: Container, slots: seq<Task?>, idle: set<Task>, t: Task, seconds: int,
                       eventOk: bool, growOk: bool)
    requires Owned(c.d.pending, slots, idle) && t in idle && t in slots && Sound(c.d) && Schedulable(c, eventOk, growOk)
    ensures var d := Schedule'(c, t, seconds, eventOk, growOk);
            && Owned(d.pending, slots, idle - {t}) && Sound(d) && d.fired == c.d.fired && d.now == c.d.now
            && OwnsEvent(d.pending, t)
            && d.pending[IndexOf(d.pending, t.delayedEvent)].time == AddTime(c.d.now, seconds)
  {
    hide Owned, Sound, Accepts, IndexOf, AddTime, Insert;
    var cmd := Schedule(WrapperFor(t), seconds, t.delayedEvent, eventOk, growOk);
    Owner(c.d.pending, slots, idle, t);
    ApplySound(c.d, cmd);
    var x := Entry(c.d.nextId, AddTime(c.d.now, seconds), WrapperFor(t), t.delayedEvent);
    ScheduleArms(c.d, WrapperFor(t), seconds, t.delayedEvent, eventOk, growOk);
    SoundHandles(Apply(c.d, cmd));
    OwnedAfterArm(c.d.pending, slots, idle, t, x);
  }

  /** The slot of an idle task is freed, and the task. */
  lemma ReleasedKeeps(c: Container, idle: set<Task>, t: Task)
    requires Owned(c.d.pending, c.slots, idle) && t in idle && t in c.slots && t !in c.released
    requires forall i :: 0 <= i < |c.slots| && c.slots[i] != null ==> c.slots[i] !in c.released
    ensures var slots := Deleted(c.slots, null, t);
            && Owned(c.d.pending, slots, idle - {t}) && |slots| == |c.slots| && t !in slots
            && (forall u: Task :: u in c.slots && u != t ==> u in slots)
            && (forall i :: 0 <= i < |slots| && slots[i] != null ==> slots[i] !in c.released + [t])
  {
    hide IndexOf, NoStrayCalls, Stands, DistinctHandles;
    var k := FirstOf(c.slots, t);
    OwnedAfterRelease(c.d.pending, c.slots, idle, k);
    forall u: Task | u in c.slots && u != t
      ensures u in Deleted(c.slots, null, t)
    {
      var i :| 0 <= i < |c.slots| && c.slots[i] == u;
      assert Deleted(c.slots, null, t)[i] == u;
    }
  }

  lemma RemoveKeeps(c: Container, handle: int)
    requires LifeCycle(c)
    ensures var e := RemoveTask(c, handle);
            && LifeCycle(e) && e.running == c.running && c.released <= e.released && e.d.fired == c.d.fired
            && e.stuck == c.stuck
  {
    hide Owned, Sound, IndexOf, RemoveAt;
    var t := ObjectFor(c.slots, null, handle);
    if t != null && t != c.running {
      var idle := Idle(c.running);
      OwnedAfterTake(c.d.pending, c.slots, idle, t);
      ApplySound(c.d, Cancel(t.delayedEvent));
      ReleasedKeeps(c.(d := Apply(c.d, Cancel(t.delayedEvent))), idle + {t}, t);
      assert idle + {t} - {t} == idle;
    }
  }

  /** Calls on the dispatcher that leave the tasks' events alone. */
  lemma CallKeeps(c: Container, cmd: Cmd)
    requires LifeCycle(c) && Foreign(c, cmd)
    ensures LifeCycle(c.(d := Apply(c.d, cmd))) && Apply(c.d, cmd).fired == c.d.fired
  {
    hide Sound, IndexOf, Insert, Retimed, RemoveAt, Stands, DistinctHandles;
    var w := Apply(c.d, cmd).pending;
    ApplySound(c.d, cmd);
    SoundHandles(Apply(c.d, cmd));
    forall i | 0 <= i < |c.slots| && c.slots[i] != null
      ensures SameFor(c.d.pending, w, c.slots[i].delayedEvent)
    {
      OthersKeep(c.d, cmd, c.slots[i].delayedEvent);
    }
    CallMembers(c, cmd);
    OwnedAfterOther(c.d.pending, w, c.slots, Idle(c.running));
  }

  lemma RetimedMembers(v: seq<Entry>, i: nat, t: int)
    requires i < |v|
    ensures forall y :: y in Retimed(v, i, t) ==> y in v || y == v[i].(time := t)
  {
    var rest, x := RemoveAt(v, i), v[i].(time := t);
    var k := if t < v[i].time then Upper(rest, t) else Lower(rest, t);
    RemovedMembers(v, i);
    InsertedMembers(rest, k, x);
    forall y | y in Retimed(v, i, t)
      ensures y in v || y == x
    {
      assert t != v[i].time ==> y in InsertAt(rest, k, x);
    }
  }

  lemma CallMembers(c: Container, cmd: Cmd)
    requires Owned(c.d.pending, c.slots, Idle(c.running)) && Foreign(c, cmd)
    ensures forall x :: x in Apply(c.d, cmd).pending && x.handler.fn == WRAPPER ==> x in c.d.pending
  {
    hide Retimed, RemoveAt, Upper, Stands, DistinctHandles, DistinctTasks;
    var v := c.d.pending;
    match cmd
    case Schedule(handler, delay, h, _, _) =>
      var x := Entry(c.d.nextId, AddTime(c.d.now, delay), handler, h);
      InsertedMembers(v, Upper(v, x.time), x);
    case Cancel(h) =>
      if Armed(v, h) {
        RemovedMembers(v, IndexOf(v, h));
      }
    case Restart(h, delay) =>
      if Armed(v, h) {
        var i, t := IndexOf(v, h), AddTime(c.d.now, delay);
        if v[i].handler.fn == WRAPPER {
          var k := WrapperEntry(v, c.slots, Idle(c.running), i);
          assert false;
        }
        RetimedMembers(v, i, t);
      }
    case _ =>
  }

  lemma WithTaskSlots(slots: seq<Task?>, t: Task)
    ensures t in WithTask(slots, t) && |slots| <= |WithTask(slots, t)|
    ensures forall i :: 0 <= i < |WithTask(slots, t)| ==>
              WithTask(slots, t)[i] == t || (i < |slots| && WithTask(slots, t)[i] == slots[i])
  {
    assert WithTask(slots, t)[FirstOf(slots, null)] == t;
  }

  lemma DeletedSlots(slots: seq<Task?>, t: Task)
    ensures |Deleted(slots, null, t)| == |slots|
    ensures forall i :: 0 <= i < |slots| ==>
              Deleted(slots, null, t)[i] == null || Deleted(slots, null, t)[i] == slots[i]
  {
  }

  lemma PerformKeeps(c: Container, cmd: TaskCmd, t: Task?)
    requires !c.stuck ==> LifeCycle(c) && Lawful(c, cmd, t)
    ensures var e := Perform(c, cmd, t);
            && e.running == c.running && c.released <= e.released && e.d.fired == c.d.fired
            && (if c.stuck then e == c else !e.stuck ==> LifeCycle(e))
  {
    hide LifeCycle, RemoveTask;
    if !c.stuck {
      match cmd
      case Add(_, _, _, _, _, _) => AddKeeps(c, cmd, t);
      case Remove(handle) => RemoveKeeps(c, handle);
      case Call(cmd) => CallKeeps(c, cmd);
    }
  }

  lemma {:induction false} PerformAllKeeps(c: Container, cmds: seq<TaskCmd>, ts: seq<Task?>)
    requires |cmds| == |ts| && (!c.stuck ==> LifeCycle(c) && AllLawful(c, cmds, ts))
    ensures var e := PerformAll(c, cmds, ts);
            && e.running == c.running && c.released <= e.released && e.d.fired == c.d.fired
            && (!e.stuck ==> LifeCycle(e))
    decreases |cmds|
  {
    hide LifeCycle, Perform, Lawful;
    if cmds != [] {
      PerformKeeps(c, cmds[0], ts[0]);
      PerformAllKeeps(Perform(c, cmds[0], ts[0]), cmds[1..], ts[1..]);
    }
  }

  lemma {:induction false} PerformAllSplit(c: Container, cmds: seq<TaskCmd>, ts: seq<Task?>, k: nat)
    requires |cmds| == |ts| && k <= |cmds|
    ensures PerformAll(c, cmds, ts) == PerformAll(PerformAll(c, cmds[..k], ts[..k]), cmds[k..], ts[k..])
    ensures AllLawful(c, cmds[..k], ts[..k]) && AllLawful(PerformAll(c, cmds[..k], ts[..k]), cmds[k..], ts[k..]) ==>
              AllLawful(c, cmds, ts)
    decreases |cmds|
  {
    hide Perform, Lawful;
    if k == 0 {
      assert cmds[0..] == cmds && ts[0..] == ts && cmds[..0] == [] && ts[..0] == [];
    } else {
      PerformAllSplit(Perform(c, cmds[0], ts[0]), cmds[1..], ts[1..], k - 1);
      assert cmds[..k][1..] == cmds[1..][..k - 1] && ts[..k][1..] == ts[1..][..k - 1];
      assert cmds[1..][k - 1..] == cmds[k..] && ts[1..][k - 1..] == ts[k..];
    }
  }

  /** One more command at the end. */
  lemma PerformAllAppend(c: Container, cmds: seq<TaskCmd>, ts: seq<Task?>, cmd: TaskCmd, t: Task?)
    requires |cmds| == |ts|
    ensures PerformAll(c, cmds + [cmd], ts + [t]) == Perform(PerformAll(c, cmds, ts), cmd, t)
    ensures AllLawful(c, cmds, ts) && Lawful(PerformAll(c, cmds, ts), cmd, t) ==> AllLawful(c, cmds + [cmd], ts + [t])
  {
    hide Perform, Lawful;
    var a, b, k := cmds + [cmd], ts + [t], |cmds|;
    PerformAllSplit(c, a, b, k);
    assert a[..k] == cmds && b[..k] == ts && a[k..] == [cmd] && b[k..] == [t];
    assert [cmd][1..] == [] && [t][1..] == [];
    var e := PerformAll(c, cmds, ts);
    assert PerformAll(e, [cmd], [t]) == Perform(e, cmd, t);
    assert AllLawful(Perform(e, cmd, t), [], []);
    assert Lawful(e, cmd, t) ==> AllLawful(e, [cmd], [t]);
  }

  function Nulls(n: nat): (ts: seq<Task?>)
    ensures |ts| == n
  {
    seq(n, _ => null)
  }

  // ---------- a callback ----------

  /** The callback removes the task in slot k, under one of its handles. */
  ghost predicate RemovesSlot(cmds: seq<TaskCmd>, k: nat)
  {
    exists i :: 0 <= i < |cmds| && cmds[i].Remove? && Int8(cmds[i].handle) == k
  }

  lemma RemovesCons(cmds: seq<TaskCmd>, k: nat)
    requires cmds != []
    ensures RemovesSlot(cmds, k) <==> (cmds[0].Remove? && Int8(cmds[0].handle) == k) || RemovesSlot(cmds[1..], k)
  {
    if RemovesSlot(cmds[1..], k) {
      var i :| 0 <= i < |cmds[1..]| && cmds[1..][i].Remove? && Int8(cmds[1..][i].handle) == k;
      assert cmds[i + 1] == cmds[1..][i];
    }
    if RemovesSlot(cmds, k) {
      var i :| 0 <= i < |cmds| && cmds[i].Remove? && Int8(cmds[i].handle) == k;
      assert i > 0 ==> cmds[1..][i - 1] == cmds[i];
    }
  }

  lemma OwnedDistinct(v: seq<Entry>, slots: seq<Task?>, idle: set<Task>)
    requires Owned(v, slots, idle)
    ensures DistinctTasks(slots)
  {
  }

  /** Whatever a callback calls, its task keeps its slot until it is done. */
  lemma PerformSlot(c: Container, cmd: TaskCmd, t: Task?, k: nat)
    requires LifeCycle(c) && !c.stuck && Lawful(c, cmd, t) && k < |c.slots| && c.running != null
    requires c.slots[k] == c.running
    ensures var e := Perform(c, cmd, t);
            && k < |e.slots| && e.slots[k] == c.running
            && (e.removed <==> c.removed || (cmd.Remove? && Int8(cmd.handle) == k))
  {
    hide Owned, Sound, Apply, Int8;
    OwnedDistinct(c.d.pending, c.slots, Idle(c.running));
  }

  lemma {:induction false} PerformAllSlot(c: Container, cmds: seq<TaskCmd>, ts: seq<Task?>, k: nat)
    requires |cmds| == |ts| && LifeCycle(c) && !c.stuck && AllLawful(c, cmds, ts)
    requires k < |c.slots| && c.running != null && c.slots[k] == c.running
    ensures var e := PerformAll(c, cmds, ts);
            !e.stuck ==> k < |e.slots| && e.slots[k] == c.running && (e.removed <==> c.removed || RemovesSlot(cmds, k))
    decreases |cmds|
  {
    hide LifeCycle, Perform, Lawful, RemovesSlot, Int8;
    if cmds == [] {
      NothingRemoved(k);
    } else {
      RemovesCons(cmds, k);
      PerformKeeps(c, cmds[0], ts[0]);
      PerformSlot(c, cmds[0], ts[0], k);
      var e := Perform(c, cmds[0], ts[0]);
      if e.stuck {
        StuckStays(e, cmds[1..], ts[1..]);
      } else {
        PerformAllSlot(e, cmds[1..], ts[1..], k);
      }
    }
  }

  lemma NothingRemoved(k: nat)
    ensures !RemovesSlot([], k)
  {
  }

  lemma {:induction false} StuckStays(c: Container, cmds: seq<TaskCmd>, ts: seq<Task?>)
    requires |cmds| == |ts| && c.stuck
    ensures PerformAll(c, cmds, ts) == c
    decreases |cmds|
  {
    if cmds != [] {
      StuckStays(c, cmds[1..], ts[1..]);
    }
  }

  /** A task's event is popped: the task is registered, has not been freed, and is idle now. */
  lemma Begins(c: Container)
    requires LifeCycle(c) && c.running == null && c.d.pending != []
    ensures var t := TaskOf(c.d.pending[0]);
            if c.d.pending[0].handler.fn == WRAPPER then
              && t != null && t in c.slots && t !in c.released && LifeCycle(Begun(c))
              && c.d.pending[0].handler == WrapperFor(t) && c.d.pending[0].handle == t.delayedEvent
            else t == null && LifeCycle(c.(d := Pop(c.d)))
  {
    hide Owned, Sound, IndexOf;
    var v := c.d.pending;
    PopSound(c.d);
    assert RemoveAt(v, 0) == v[1..];
    if v[0].handler.fn == WRAPPER {
      var i := WrapperEntry(v, c.slots, {}, 0);
      var t: Task := c.slots[i];
      OwnedAfterTake(v, c.slots, {}, t);
      assert {} + {t} == {t} == Idle(t);
    } else {
      NoTasksEntry(v, c.slots, {}, 0);
      SoundHandles(Pop(c.d));
      RemovedMembers(v, 0);
      forall i | 0 <= i < |c.slots| && c.slots[i] != null
        ensures SameFor(v, v[1..], c.slots[i].delayedEvent)
      {
        RemoveKeepsOther(v, 0, c.slots[i].delayedEvent);
      }
      OwnedAfterOther(v, v[1..], c.slots, {});
    }
  }

  /** What the end of a callback leaves. */
  ghost predicate Outcome(c: Container, e: Container, t: Task, k: nat, removed: bool)
  {
    && e.running == null && !e.removed && LifeCycle(e) && k < |e.slots|
    && (if t.secondsRepeat == 0 || removed then
          e.slots[k] == null && t !in e.slots && e.released == c.released + [t] && e.d == c.d
        else
          && e.slots == c.slots && e.slots[k] == t && e.released == c.released && e.d.fired == c.d.fired
          && OwnsEvent(e.d.pending, t)
          && e.d.pending[IndexOf(e.d.pending, t.delayedEvent)].time == AddTime(c.d.now, t.secondsRepeat))
  }

  lemma FinishKeeps(c: Container, t: Task, k: nat, eventOk: bool, growOk: bool)
    requires LifeCycle(c) && !c.stuck && c.running == t && k < |c.slots| && c.slots[k] == t
    ensures var e := Finish(c, t, eventOk, growOk);
            if t.secondsRepeat == 0 || c.removed || Schedulable(c, eventOk, growOk) then
              !e.stuck && Outcome(c, e, t, k, c.removed)
            else e == c.(stuck := true)
  {
    hide Owned, Sound, Schedule', Schedulable, OwnsEvent, AddTime, IndexOf;
    if t.secondsRepeat == 0 || c.removed {
      OwnedDistinct(c.d.pending, c.slots, Idle(c.running));
      ReleasedKeeps(c, {t}, t);
      assert {t} - {t} == {};
    } else if Schedulable(c, eventOk, growOk) {
      ScheduledKeeps(c, c.slots, {t}, t, t.secondsRepeat, eventOk, growOk);
      assert {t} - {t} == {};
    }
  }

  /** One iteration of the timed loop. A due event fires; if it is a task's, its callback runs, and then the
      task is freed exactly if it does not repeat or the callback removed it; otherwise it is scheduled again,
      a period after the step. */
  lemma FireKeeps(c: Container, cmds: seq<TaskCmd>, ts: seq<Task?>, eventOk: bool, growOk: bool)
    requires |cmds| == |ts| && LifeCycle(c) && !c.stuck && c.running == null
    requires OpLawful(c, FireOp(cmds, eventOk, growOk), ts)
    ensures var e := FireNext(c, cmds, ts, eventOk, growOk);
            && c.released <= e.released
            && e.d.fired == (if Due(c.d) then c.d.fired + [Firing(c.d.pending[0], c.d.now)] else c.d.fired)
            && (!e.stuck ==> LifeCycle(e) && e.running == null)
    ensures Due(c.d) && TaskOf(c.d.pending[0]) != null ==>
              var t, e := TaskOf(c.d.pending[0]), FireNext(c, cmds, ts, eventOk, growOk);
              var k, f := FirstOf(c.slots, t), PerformAll(Begun(c), cmds, ts);
              && k < |c.slots| && t !in c.released
              && (!e.stuck ==> Outcome(f, e, t, k, RemovesSlot(cmds, k)))
              && (e.stuck <==>
                    f.stuck || !(t.secondsRepeat == 0 || RemovesSlot(cmds, k) || Schedulable(f, eventOk, growOk)))
  {
    hide LifeCycle, RemovesSlot, PerformAll, AllLawful, Finish, Schedulable, Outcome;
    if Due(c.d) {
      Begins(c);
      var t := TaskOf(c.d.pending[0]);
      if t != null {
        var k := FirstOf(c.slots, t);
        PerformAllKeeps(Begun(c), cmds, ts);
        PerformAllSlot(Begun(c), cmds, ts, k);
        var f := PerformAll(Begun(c), cmds, ts);
        if f.stuck {
          StuckFinish(f, t, eventOk, growOk);
        } else {
          FinishKeeps(f, t, k, eventOk, growOk);
          OutcomeKeeps(f, Finish(f, t, eventOk, growOk), t, k, f.removed);
        }
      }
    }
  }

  lemma StuckFinish(c: Container, t: Task, eventOk: bool, growOk: bool)
    requires c.stuck
    ensures Finish(c, t, eventOk, growOk) == c
  {
  }

  lemma OutcomeKeeps(c: Container, e: Container, t: Task, k: nat, removed: bool)
    ensures Outcome(c, e, t, k, removed) ==>
              LifeCycle(e) && e.running == null && c.released <= e.released && e.d.fired == c.d.fired
  {
  }

  // ---------- whole runs ----------

  lemma SilentKeeps(c: Container, move: Move)
    requires LifeCycle(c) && Silent(move)
    ensures LifeCycle(c.(d := Make(c.d, move)))
    ensures Make(c.d, move).pending == c.d.pending && Make(c.d, move).fired == c.d.fired
  {
    hide Owned, Sound;
    MakeSound(c.d, move);
  }

  /** What every operation keeps. */
  ghost predicate Kept(c: Container, e: Container)
  {
    && c.released <= e.released && c.d.fired <= e.d.fired
    && (c.stuck ==> e == c) && (!e.stuck ==> LifeCycle(e) && e.running == null)
  }

  lemma ActKeeps(c: Container, op: Op, ts: seq<Task?>)
    requires |ts| == Names(op) && (!c.stuck ==> LifeCycle(c) && c.running == null) && OpLawful(c, op, ts)
    ensures Kept(c, Act(c, op, ts))
    ensures !c.stuck ==> Act(c, op, ts).d.fired
                         == (if op.FireOp? && Due(c.d) then c.d.fired + [Firing(c.d.pending[0], c.d.now)]
                             else c.d.fired)
  {
    hide LifeCycle, Perform, AllLawful, Lawful;
    match op
    case DoOp(cmd) => PerformKeeps(c, cmd, ts[0]);
    case SilentOp(move) =>
      if !c.stuck {
        SilentKeeps(c, move);
      }
    case FireOp(cmds, eventOk, growOk) =>
      if !c.stuck {
        FireFacts(c, cmds, ts, eventOk, growOk);
      }
  }

  lemma FireFacts(c: Container, cmds: seq<TaskCmd>, ts: seq<Task?>, eventOk: bool, growOk: bool)
    requires |cmds| == |ts| && LifeCycle(c) && !c.stuck && c.running == null
    requires OpLawful(c, FireOp(cmds, eventOk, growOk), ts)
    ensures var e := FireNext(c, cmds, ts, eventOk, growOk);
            && c.released <= e.released
            && e.d.fired == (if Due(c.d) then c.d.fired + [Firing(c.d.pending[0], c.d.now)] else c.d.fired)
            && (!e.stuck ==> LifeCycle(e) && e.running == null)
  {
    hide LifeCycle, FireNext, OpLawful, Outcome, PerformAll;
    FireKeeps(c, cmds, ts, eventOk, growOk);
  }

  /** The life cycle is kept by every run, until it is stuck. */
  lemma {:induction false} RunKeeps(c: Container, ops: seq<Op>, names: seq<seq<Task?>>)
    requires Fits(ops, names) && (!c.stuck ==> LifeCycle(c) && c.running == null) && RunLawful(c, ops, names)
    ensures Kept(c, Run(c, ops, names))
    decreases |ops|
  {
    hide LifeCycle, Act, OpLawful;
    if ops != [] {
      ActKeeps(c, ops[0], names[0]);
      RunKeeps(Act(c, ops[0], names[0]), ops[1..], names[1..]);
    }
  }

  /** A task that was freed before a run does not fire in it: what fires as a task is a registered one. */
  lemma {:induction false} FreedNeverFires(c: Container, ops: seq<Op>, names: seq<seq<Task?>>)
    requires Fits(ops, names) && (!c.stuck ==> LifeCycle(c) && c.running == null) && RunLawful(c, ops, names)
    ensures var f := Run(c, ops, names).d.fired;
            && c.d.fired <= f
            && forall i :: |c.d.fired| <= i < |f| && f[i].entry.handler.fn == WRAPPER ==>
                 TaskOf(f[i].entry) != null && TaskOf(f[i].entry) !in c.released
    decreases |ops|
  {
    hide LifeCycle, Act, OpLawful, TaskOf;
    if ops != [] {
      var e := Act(c, ops[0], names[0]);
      ActKeeps(c, ops[0], names[0]);
      FreedNeverFires(e, ops[1..], names[1..]);
      if !c.stuck && ops[0].FireOp? && Due(c.d) {
        Begins(c);
      }
    }
  }

  lemma {:induction false} StuckRun(c: Container, ops: seq<Op>, names: seq<seq<Task?>>)
    requires Fits(ops, names) && c.stuck
    ensures Run(c, ops, names) == c && RunLawful(c, ops, names)
    decreases |ops|
  {
    if ops != [] {
      StuckRun(c, ops[1..], names[1..]);
    }
  }

  /** A run goes on from where its first part left off; so nothing fires after it was freed. */
  lemma {:induction false} RunSplit(c: Container, ops: seq<Op>, names: seq<seq<Task?>>, k: nat)
    requires Fits(ops, names) && k <= |ops|
    ensures Run(c, ops, names) == Run(Run(c, ops[..k], names[..k]), ops[k..], names[k..])
    ensures RunLawful(c, ops, names) <==>
              RunLawful(c, ops[..k], names[..k]) && RunLawful(Run(c, ops[..k], names[..k]), ops[k..], names[k..])
    decreases |ops|
  {
    hide Act, OpLawful;
    if k == 0 {
      assert ops[0..] == ops && names[0..] == names && ops[..0] == [] && names[..0] == [];
    } else {
      RunSplit(Act(c, ops[0], names[0]), ops[1..], names[1..], k - 1);
      assert ops[..k][1..] == ops[1..][..k - 1] && names[..k][1..] == names[1..][..k - 1];
      assert ops[1..][k - 1..] == ops[k..] && names[1..][k - 1..] == names[k..];
    }
  }

  /** One more operation at the end. */
  lemma RunAppend(c: Container, ops: seq<Op>, names: seq<seq<Task?>>, op: Op, ts: seq<Task?>)
    requires Fits(ops, names) && |ts| == Names(op)
    ensures Fits(ops + [op], names + [ts]) && Run(c, ops + [op], names + [ts]) == Act(Run(c, ops, names), op, ts)
    ensures RunLawful(c, ops + [op], names + [ts]) <==> RunLawful(c, ops, names) && OpLawful(Run(c, ops, names), op, ts)
  {
    hide Act, OpLawful;
    var a, b, k := ops + [op], names + [ts], |ops|;
    RunSplit(c, a, b, k);
    assert a[..k] == ops && b[..k] == names && a[k..] == [op] && b[k..] == [ts];
    assert [op][1..] == [] && [ts][1..] == [];
    assert Run(Run(c, ops, names), [op], [ts]) == Act(Run(c, ops, names), op, ts);
  }

  /** The rest of a stuck run changes nothing, whatever it is named. */
  lemma RunStuck(c: Container, ops: seq<Op>, names: seq<seq<Task?>>, k: nat) returns (all: seq<seq<Task?>>)
    requires k <= |ops| && Fits(ops[..k], names) && Run(c, ops[..k], names).stuck && RunLawful(c, ops[..k], names)
    ensures Fits(ops, all) && Run(c, ops, all) == Run(c, ops[..k], names) && RunLawful(c, ops, all)
  {
    hide Act, OpLawful;
    all := seq(|ops|, i requires 0 <= i < |ops| => if i < k then names[i] else Nulls(Names(ops[i])));
    assert all[..k] == names;
    RunSplit(c, ops, all, k);
    StuckRun(Run(c, ops[..k], names), ops[k..], all[k..]);
  }

  lemma RunningStays(c: Container, cmd: TaskCmd, t: Task?)
    ensures Perform(c, cmd, t).running == c.running
  {
  }

  /** Once freed, a task never fires again. */
  lemma NeverAfterFreed(c: Container, ops: seq<Op>, names: seq<seq<Task?>>, k: nat, t: Task)
    requires Fits(ops, names) && !c.stuck && LifeCycle(c) && c.running == null && RunLawful(c, ops, names) && k <= |ops|
    requires t in Run(c, ops[..k], names[..k]).released
    ensures var m, f := Run(c, ops[..k], names[..k]).d.fired, Run(c, ops, names).d.fired;
            |m| <= |f| && forall i :: |m| <= i < |f| && f[i].entry.handler.fn == WRAPPER ==> TaskOf(f[i].entry) != t
  {
    hide LifeCycle, Run, TaskOf;
    RunSplit(c, ops, names, k);
    RunKeeps(c, ops[..k], names[..k]);
    FreedNeverFires(Run(c, ops[..k], names[..k]), ops[k..], names[k..]);
  }

  // ---------- when a run gets stuck ----------

  /** The task gets a slot, but its event is refused. */
  predicate Refused(c: Container, cmd: TaskCmd, t: Task?)
  {
    cmd.Add? && t != null && HasSlot(c.slots, c.capacity, cmd.pushOk) && !Schedulable(c, cmd.eventOk, cmd.growOk)
  }

  predicate AllGranted(c: Container, cmds: seq<TaskCmd>, ts: seq<Task?>)
    requires |cmds| == |ts|
    decreases |cmds|
  {
    cmds == [] || (!Refused(c, cmds[0], ts[0]) && AllGranted(Perform(c, cmds[0], ts[0]), cmds[1..], ts[1..]))
  }

  /** Every add of the callback is granted; and so is the event of a task that repeats and was not removed. */
  ghost predicate FireGranted(c: Container, cmds: seq<TaskCmd>, ts: seq<Task?>, eventOk: bool, growOk: bool)
    requires |cmds| == |ts|
  {
    Due(c.d) && TaskOf(c.d.pending[0]) != null ==>
      var t := TaskOf(c.d.pending[0]);
      && AllGranted(Begun(c), cmds, ts)
      && (t.secondsRepeat == 0 || RemovesSlot(cmds, FirstOf(c.slots, t))
          || Schedulable(PerformAll(Begun(c), cmds, ts), eventOk, growOk))
  }

  ghost predicate OpGranted(c: Container, op: Op, ts: seq<Task?>)
    requires |ts| == Names(op)
  {
    match op
    case DoOp(cmd) => !Refused(c, cmd, ts[0])
    case SilentOp(_) => true
    case FireOp(cmds, eventOk, growOk) => FireGranted(c, cmds, ts, eventOk, growOk)
  }

  ghost predicate RunGranted(c: Container, ops: seq<Op>, names: seq<seq<Task?>>)
    requires Fits(ops, names)
    decreases |ops|
  {
    ops == [] || (OpGranted(c, ops[0], names[0]) && RunGranted(Act(c, ops[0], names[0]), ops[1..], names[1..]))
  }

  lemma PerformStuckIff(c: Container, cmd: TaskCmd, t: Task?)
    requires !c.stuck
    ensures Perform(c, cmd, t).stuck <==> Refused(c, cmd, t)
  {
    hide Apply, HasSlot, Schedulable, ObjectFor, Deleted;
  }

  lemma {:induction false} PerformAllStuckIff(c: Container, cmds: seq<TaskCmd>, ts: seq<Task?>)
    requires |cmds| == |ts| && !c.stuck
    ensures PerformAll(c, cmds, ts).stuck <==> !AllGranted(c, cmds, ts)
    decreases |cmds|
  {
    hide Perform, Refused;
    if cmds != [] {
      PerformStuckIff(c, cmds[0], ts[0]);
      var e := Perform(c, cmds[0], ts[0]);
      if e.stuck {
        StuckStays(e, cmds[1..], ts[1..]);
      } else {
        PerformAllStuckIff(e, cmds[1..], ts[1..]);
      }
    }
  }

  lemma ActStuckIff(c: Container, op: Op, ts: seq<Task?>)
    requires |ts| == Names(op) && LifeCycle(c) && !c.stuck && c.running == null && OpLawful(c, op, ts)
    ensures Act(c, op, ts).stuck <==> !OpGranted(c, op, ts)
  {
    hide LifeCycle, Perform, PerformAll, Refused, RemovesSlot, Schedulable, AllGranted, Outcome;
    match op
    case DoOp(cmd) => PerformStuckIff(c, cmd, ts[0]);
    case SilentOp(move) =>
    case FireOp(cmds, eventOk, growOk) =>
      FireKeeps(c, cmds, ts, eventOk, growOk);
      if Due(c.d) && TaskOf(c.d.pending[0]) != null {
        PerformAllStuckIff(Begun(c), cmds, ts);
      }
  }

  /** A run gets stuck exactly when some add gets a slot and no event, or some task that repeats and was not
      removed gets no new event. */
  lemma {:induction false} RunStuckIff(c: Container, ops: seq<Op>, names: seq<seq<Task?>>)
    requires Fits(ops, names) && LifeCycle(c) && !c.stuck && c.running == null && RunLawful(c, ops, names)
    ensures Run(c, ops, names).stuck <==> !RunGranted(c, ops, names)
    decreases |ops|
  {
    hide LifeCycle, Act, OpLawful, OpGranted;
    if ops != [] {
      ActStuckIff(c, ops[0], names[0]);
      ActKeeps(c, ops[0], names[0]);
      var e := Act(c, ops[0], names[0]);
      if e.stuck {
        RunKeeps(e, ops[1..], names[1..]);
      } else {
        RunStuckIff(e, ops[1..], names[1..]);
      }
    }
  }

  // ---------- enough memory ----------

  predicate Schedules(cmd: TaskCmd)
  {
    cmd.Add? || (cmd.Call? && cmd.cmd.Schedule?)
  }

  function CountSchedules(cmds: seq<TaskCmd>): nat
  {
    if cmds == [] then 0 else (if Schedules(cmds[0]) then 1 else 0) + CountSchedules(cmds[1..])
  }

  /** The pending events, with room reserved for the task whose callback runs. */
  function Load(c: Container): nat
  {
    |c.d.pending| + if c.running == null then 0 else 1
  }

  lemma PerformLoad(c: Container, cmd: TaskCmd, t: Task?)
    ensures var e := Perform(c, cmd, t);
            && e.running == c.running && Load(e) <= Load(c) + (if Schedules(cmd) then 1 else 0)
            && (!Schedules(cmd) ==> e.d.capacity == c.d.capacity)
  {
    hide Apply, HasSlot, Accepts, ObjectFor, Deleted;
    match cmd
    case Add(seconds, _, _, _, eventOk, growOk) =>
      if t != null {
        ApplyLength(c.d, Schedule(WrapperFor(t), seconds, t.delayedEvent, eventOk, growOk));
      }
    case Remove(handle) =>
      var t := ObjectFor(c.slots, null, handle);
      if t != null {
        ApplyLength(c.d, Cancel(t.delayedEvent));
      }
    case Call(cmd) => ApplyLength(c.d, cmd);
  }

  /** A callback that schedules nothing leaves the room its own event made, so its task is lost exactly when it
      repeats, is not removed, and is refused the memory of its event. */
  lemma {:induction false} QuietCallback(c: Container, cmds: seq<TaskCmd>, ts: seq<Task?>)
    requires |cmds| == |ts| && !c.stuck && CountSchedules(cmds) == 0
    ensures var e := PerformAll(c, cmds, ts); !e.stuck && |e.d.pending| <= |c.d.pending| && e.d.capacity == c.d.capacity
    decreases |cmds|
  {
    hide Perform;
    if cmds != [] {
      PerformLoad(c, cmds[0], ts[0]);
      PerformStuckIff(c, cmds[0], ts[0]);
      QuietCallback(Perform(c, cmds[0], ts[0]), cmds[1..], ts[1..]);
    }
  }

  lemma FireStuckIff(c: Container, cmds: seq<TaskCmd>, ts: seq<Task?>, eventOk: bool, growOk: bool)
    requires |cmds| == |ts| && LifeCycle(c) && !c.stuck && c.running == null
    requires OpLawful(c, FireOp(cmds, eventOk, growOk), ts)
    requires Due(c.d) && TaskOf(c.d.pending[0]) != null && CountSchedules(cmds) == 0
    ensures var t := TaskOf(c.d.pending[0]);
            FireNext(c, cmds, ts, eventOk, growOk).stuck
            <==> !(t.secondsRepeat == 0 || RemovesSlot(cmds, FirstOf(c.slots, t)) || eventOk)
  {
    hide LifeCycle, FireNext, OpLawful, PerformAll, RemovesSlot, Outcome;
    FireKeeps(c, cmds, ts, eventOk, growOk);
    QuietCallback(Begun(c), cmds, ts);
    RoomForOne(c);
  }

  lemma RoomForOne(c: Container)
    requires LifeCycle(c) && c.d.pending != []
    ensures |Pop(c.d).pending| < c.d.capacity
  {
    hide Owned;
  }

  predicate FlagsSet(cmd: TaskCmd)
  {
    cmd.Add? ==> cmd.eventOk && cmd.growOk
  }

  predicate OpFlagsSet(op: Op)
  {
    match op
    case DoOp(cmd) => FlagsSet(cmd)
    case SilentOp(_) => true
    case FireOp(cmds, eventOk, growOk) => eventOk && growOk && forall i :: 0 <= i < |cmds| ==> FlagsSet(cmds[i])
  }

  function OpSchedules(op: Op): nat
  {
    match op
    case DoOp(cmd) => if Schedules(cmd) then 1 else 0
    case SilentOp(_) => 0
    case FireOp(cmds, _, _) => CountSchedules(cmds)
  }

  lemma RoomMeansGranted(c: Container, cmd: TaskCmd, t: Task?)
    requires LifeCycle(c) && FlagsSet(cmd) && Load(c) + (if Schedules(cmd) then 1 else 0) <= 64
    ensures !Refused(c, cmd, t)
  {
    hide Owned, Sound, HasSlot, Accepts;
    if cmd.Add? {
      RoomBelow64(c.d);
    }
  }

  lemma {:induction false} CallbackRoom(c: Container, cmds: seq<TaskCmd>, ts: seq<Task?>)
    requires |cmds| == |ts| && LifeCycle(c) && !c.stuck && AllLawful(c, cmds, ts)
    requires (forall i :: 0 <= i < |cmds| ==> FlagsSet(cmds[i])) && Load(c) + CountSchedules(cmds) <= 64
    ensures var e := PerformAll(c, cmds, ts);
            !e.stuck && e.running == c.running && Load(e) <= Load(c) + CountSchedules(cmds)
    decreases |cmds|
  {
    hide LifeCycle, Perform, Lawful, FlagsSet, Refused, Load, Schedules;
    if cmds != [] {
      RoomMeansGranted(c, cmds[0], ts[0]);
      PerformStuckIff(c, cmds[0], ts[0]);
      PerformKeeps(c, cmds[0], ts[0]);
      PerformLoad(c, cmds[0], ts[0]);
      CallbackRoom(Perform(c, cmds[0], ts[0]), cmds[1..], ts[1..]);
    }
  }

  lemma FinishRoom(c: Container, t: Task, eventOk: bool, growOk: bool)
    requires LifeCycle(c) && !c.stuck && c.running == t && eventOk && growOk && Load(c) <= 64
    ensures var e := Finish(c, t, eventOk, growOk); !e.stuck && Load(e) <= Load(c)
  {
    hide Owned, Sound, Apply, Accepts;
    RoomBelow64(c.d);
    ApplyLength(c.d, Schedule(WrapperFor(t), t.secondsRepeat, t.delayedEvent, eventOk, growOk));
  }

  lemma ActRoom(c: Container, op: Op, ts: seq<Task?>)
    requires |ts| == Names(op) && LifeCycle(c) && !c.stuck && c.running == null && OpLawful(c, op, ts)
    requires OpFlagsSet(op) && Load(c) + OpSchedules(op) <= 64
    ensures var e := Act(c, op, ts); !e.stuck && Load(e) <= Load(c) + OpSchedules(op)
  {
    hide LifeCycle, Perform, PerformAll, AllLawful, Lawful, FlagsSet, Refused, Schedules, Finish;
    match op
    case DoOp(cmd) =>
      RoomMeansGranted(c, cmd, ts[0]);
      PerformStuckIff(c, cmd, ts[0]);
      PerformLoad(c, cmd, ts[0]);
    case SilentOp(move) => SilentKeeps(c, move);
    case FireOp(cmds, eventOk, growOk) =>
      if Due(c.d) {
        Begins(c);
        var t := TaskOf(c.d.pending[0]);
        if t != null {
          CallbackRoom(Begun(c), cmds, ts);
          PerformAllKeeps(Begun(c), cmds, ts);
          FinishRoom(PerformAll(Begun(c), cmds, ts), t, eventOk, growOk);
          FireFacts(c, cmds, ts, eventOk, growOk);
        }
      }
  }

  /** No run gets stuck as long as memory is granted and, whenever an operation begins, the pending events and
      those it schedules fit into 64 slots. */
  lemma {:induction false} NeverStuckIfRoom(c: Container, ops: seq<Op>, names: seq<seq<Task?>>)
    requires Fits(ops, names) && LifeCycle(c) && !c.stuck && c.running == null && RunLawful(c, ops, names)
    requires forall i :: 0 <= i < |ops| ==> OpFlagsSet(ops[i])
    requires forall k :: 0 <= k < |ops| ==> |Run(c, ops[..k], names[..k]).d.pending| + OpSchedules(ops[k]) <= 64
    ensures !Run(c, ops, names).stuck && RunGranted(c, ops, names)
    decreases |ops|
  {
    hide LifeCycle, Act, OpLawful, OpGranted, OpFlagsSet, OpSchedules;
    if ops != [] {
      assert ops[..0] == [] && names[..0] == [] && Run(c, ops[..0], names[..0]) == c;
      ActRoom(c, ops[0], names[0]);
      ActKeeps(c, ops[0], names[0]);
      ActStuckIff(c, ops[0], names[0]);
      var e := Act(c, ops[0], names[0]);
      forall k | 0 <= k < |ops| - 1
        ensures Run(e, ops[1..][..k], names[1..][..k]) == Run(c, ops[..k + 1], names[..k + 1])
      {
        assert ops[..k + 1][1..] == ops[1..][..k] && names[..k + 1][1..] == names[1..][..k];
      }
      NeverStuckIfRoom(e, ops[1..], names[1..]);
    }
  }

  // ---------- the dispatcher's side of a run ----------

  /** The command schedules nothing into the past. */
  predicate CmdTimely(now: int, cmd: TaskCmd)
  {
    match cmd
    case Add(seconds, _, _, _, _, _) => now <= AddTime(now, seconds)
    case Remove(_) => true
    case Call(call) => NotPast(now, call)
  }

  /** Neither do the callback and the period of a task that fires; and steps do not go back. */
  ghost predicate OpTimely(c: Container, op: Op)
  {
    match op
    case DoOp(cmd) => CmdTimely(c.d.now, cmd)
    case SilentOp(move) => MoveWhere(c.d.now, move, NotPast)
    case FireOp(cmds, _, _) =>
      Due(c.d) && TaskOf(c.d.pending[0]) != null ==>
        && (forall i :: 0 <= i < |cmds| ==> CmdTimely(c.d.now, cmds[i]))
        && c.d.now <= AddTime(c.d.now, TaskOf(c.d.pending[0]).secondsRepeat)
  }

  ghost predicate RunTimely(c: Container, ops: seq<Op>, names: seq<seq<Task?>>)
    requires Fits(ops, names)
    decreases |ops|
  {
    ops == [] || (OpTimely(c, ops[0]) && RunTimely(Act(c, ops[0], names[0]), ops[1..], names[1..]))
  }

  /** One call on the dispatcher, or none. */
  lemma AtMostOneCall(s: DState, t: DState, call: Cmd)
    requires t == s || t == Apply(s, call)
    ensures exists moves :: Play(s, moves) == t && (NotPast(s.now, call) ==> PlayWhere(s, moves, NotPast))
    ensures t.now == s.now
  {
    hide Apply, NotPast;
    if t == s {
      NoMoves(s, NotPast);
      assert Play(s, []) == t;
    } else {
      PlayOne(s, Calls(call), NotPast);
      CallKeepsNow(s, call);
      assert Play(s, [Calls(call)]) == t;
    }
  }

  lemma PerformPlays(c: Container, cmd: TaskCmd, t: Task?) returns (moves: seq<Move>)
    ensures Play(c.d, moves) == Perform(c, cmd, t).d && Perform(c, cmd, t).d.now == c.d.now
    ensures CmdTimely(c.d.now, cmd) ==> PlayWhere(c.d, moves, NotPast)
  {
    hide Apply, Play, PlayWhere, HasSlot, Schedulable, ObjectFor, Deleted, WithTask, TableCapacity;
    var call := CallOf(c, cmd, t);
    var e := Perform(c, cmd, t);
    AtMostOneCall(c.d, e.d, call);
    moves :| Play(c.d, moves) == e.d && (NotPast(c.d.now, call) ==> PlayWhere(c.d, moves, NotPast));
  }

  /** The one call on the dispatcher a command may make. */
  function CallOf(c: Container, cmd: TaskCmd, t: Task?): Cmd
  {
    match cmd
    case Add(seconds, _, _, _, eventOk, growOk) =>
      if t == null then Enqueue(EventHandle(0, null), false)
      else Schedule(WrapperFor(t), seconds, t.delayedEvent, eventOk, growOk)
    case Remove(handle) =>
      var u := ObjectFor(c.slots, null, handle);
      if u == null then Enqueue(EventHandle(0, null), false) else Cancel(u.delayedEvent)
    case Call(call) => call
  }

  lemma {:induction false} CallbackPlays(c: Container, cmds: seq<TaskCmd>, ts: seq<Task?>) returns (moves: seq<Move>)
    requires |cmds| == |ts|
    ensures Play(c.d, moves) == PerformAll(c, cmds, ts).d && PerformAll(c, cmds, ts).d.now == c.d.now
    ensures (forall i :: 0 <= i < |cmds| ==> CmdTimely(c.d.now, cmds[i])) ==> PlayWhere(c.d, moves, NotPast)
    decreases |cmds|
  {
    hide Perform, CmdTimely;
    moves := [];
    if cmds != [] {
      var e := Perform(c, cmds[0], ts[0]);
      var first := PerformPlays(c, cmds[0], ts[0]);
      var rest := CallbackPlays(e, cmds[1..], ts[1..]);
      PlayConcat(c.d, first, rest, NotPast);
      moves := first + rest;
    }
  }

  lemma FinishPlays(c: Container, t: Task, eventOk: bool, growOk: bool) returns (moves: seq<Move>)
    ensures Play(c.d, moves) == Finish(c, t, eventOk, growOk).d
    ensures c.d.now <= AddTime(c.d.now, t.secondsRepeat) ==> PlayWhere(c.d, moves, NotPast)
  {
    hide Apply, Play, PlayWhere, Schedulable, Deleted;
    var call := Schedule(WrapperFor(t), t.secondsRepeat, t.delayedEvent, eventOk, growOk);
    var e := Finish(c, t, eventOk, growOk);
    AtMostOneCall(c.d, e.d, call);
    moves :| Play(c.d, moves) == e.d && (NotPast(c.d.now, call) ==> PlayWhere(c.d, moves, NotPast));
  }

  lemma ActPlays(c: Container, op: Op, ts: seq<Task?>) returns (moves: seq<Move>)
    requires |ts| == Names(op)
    ensures Play(c.d, moves) == Act(c, op, ts).d
    ensures OpTimely(c, op) ==> PlayWhere(c.d, moves, NotPast)
  {
    hide Perform, FireNext, Play, PlayWhere, AddTime, CmdTimely;
    NoMoves(c.d, NotPast);
    moves := [];
    match op
    case DoOp(cmd) => moves := PerformPlays(c, cmd, ts[0]);
    case SilentOp(move) =>
      if !c.stuck {
        PlayOne(c.d, move, NotPast);
        moves := [move];
      }
    case FireOp(cmds, eventOk, growOk) => moves := FiringPlays(c, cmds, ts, eventOk, growOk);
  }

  lemma FiringPlays(c: Container, cmds: seq<TaskCmd>, ts: seq<Task?>, eventOk: bool, growOk: bool)
    returns (moves: seq<Move>)
    requires |cmds| == |ts|
    ensures Play(c.d, moves) == FireNext(c, cmds, ts, eventOk, growOk).d
    ensures OpTimely(c, FireOp(cmds, eventOk, growOk)) ==> PlayWhere(c.d, moves, NotPast)
  {
    hide PerformAll, Finish, Play, PlayWhere, AddTime, CmdTimely;
    NoMoves(c.d, NotPast);
    moves := [];
    if !c.stuck && Due(c.d) {
      PlayOne(c.d, PopTimed, NotPast);
      moves := [PopTimed];
      var t := TaskOf(c.d.pending[0]);
      if t != null {
        var f := PerformAll(Begun(c), cmds, ts);
        var callback := CallbackPlays(Begun(c), cmds, ts);
        var finish := FinishPlays(f, t, eventOk, growOk);
        PlayConcat(Pop(c.d), callback, finish, NotPast);
        PlayFirst(c.d, PopTimed, callback + finish, NotPast);
        moves := [PopTimed] + (callback + finish);
      }
    }
  }

  /** What a run of the container does to its dispatcher is a run of the dispatcher's moves. */
  lemma {:induction false} ContainerPlays(c: Container, ops: seq<Op>, names: seq<seq<Task?>>) returns (moves: seq<Move>)
    requires Fits(ops, names)
    ensures Play(c.d, moves) == Run(c, ops, names).d
    ensures RunTimely(c, ops, names) ==> PlayWhere(c.d, moves, NotPast)
    decreases |ops|
  {
    hide Act, OpTimely;
    moves := [];
    if ops != [] {
      var first := ActPlays(c, ops[0], names[0]);
      var rest := ContainerPlays(Act(c, ops[0], names[0]), ops[1..], names[1..]);
      PlayConcat(c.d, first, rest, NotPast);
      moves := first + rest;
    }
  }

  /** So timed tasks, and all other timed events, fire in order, as long as steps do not go back and nothing is
      scheduled into the past. */
  lemma TasksFireInOrder(c: Container, ops: seq<Op>, names: seq<seq<Task?>>)
    requires Fits(ops, names) && Ordered(c.d) && RunTimely(c, ops, names)
    ensures InOrder(Run(c, ops, names).d.fired)
  {
    hide Run, RunTimely, InOrder, NotBefore;
    var moves := ContainerPlays(c, ops, names);
    PlayOrdered(c.d, moves);
  }

  // ---------- a run that gets stuck ----------

  /** One add without memory for its event, into an empty table. */
  lemma DanglingAdd(d: DState, t: Task, growOk: bool)
    requires Sound(d) && (forall x :: x in d.pending ==> x.handler.fn != WRAPPER) && !Armed(d.pending, t.delayedEvent)
    requires t.secondsRepeat == 0
    ensures var c := Container(d, [], 2, [], null, false, false);
            var ops, names := [DoOp(Add(5, false, true, true, false, growOk))], [[t]];
            && LifeCycle(c) && RunLawful(c, ops, names)
            && Run(c, ops, names) == c.(slots := [t], released := [t], stuck := true)
  {
    hide Sound;
    var c := Container(d, [], 2, [], null, false, false);
    var op := DoOp(Add(5, false, true, true, false, growOk));
    SoundHandles(d);
    assert [op][1..] == [] && [[t]][1..] == [];
    assert FirstOf(c.slots, null) == 0;
    assert Run(Act(c, op, [t]), [], []) == Act(c, op, [t]);
  }
}

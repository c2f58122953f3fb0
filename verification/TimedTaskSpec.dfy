/** Who owns which pending event: the bookkeeping between the timed-task table and the timer queue. */
module TimedTaskSpec {
  import opened Sequences
  import opened TimerSpec

  datatype TaskState = SCHEDULED | RUNNING | DELETABLE

  /** `iotc_timed_task_callback_wrapper`, as a function of an event handle. */
  const WRAPPER := 1

  class Task {
    const secondsRepeat: int
    const delayedEvent: Handle
    var state: TaskState

    constructor (secondsRepeat: int)
      ensures this.secondsRepeat == secondsRepeat && state == SCHEDULED
      ensures fresh(delayedEvent) && delayedEvent.event == null
    {
      this.secondsRepeat := secondsRepeat;
      delayedEvent := new Handle();
      state := SCHEDULED;
    }
  }

  function WrapperFor(t: Task): EventHandle
  {
    EventHandle(WRAPPER, t)
  }

  /** The entry of t in the queue, if it has one. */
  predicate OwnsEvent(v: seq<Entry>, t: Task)
  {
    Armed(v, t.delayedEvent) && v[IndexOf(v, t.delayedEvent)].handler == WrapperFor(t)
  }

  ghost predicate DistinctTasks(slots: seq<Task?>)
  {
    forall i, j :: 0 <= i < j < |slots| && slots[i] != null && slots[j] != null ==>
      slots[i] != slots[j] && slots[i].delayedEvent != slots[j].delayedEvent
  }

  /** Every pending wrapper call belongs to a registered task that is not idle, and is armed with its handle. */
  ghost predicate NoStrayCalls(v: seq<Entry>, slots: seq<Task?>, idle: set<Task>)
  {
    forall x :: x in v && x.handler.fn == WRAPPER ==> exists i :: Caller(x, slots, i, idle)
  }

  /** A task owns an event, or is idle and owns none. */
  predicate Stands(v: seq<Entry>, t: Task, idle: set<Task>)
  {
    if t in idle then !Armed(v, t.delayedEvent) else OwnsEvent(v, t)
  }

  ghost predicate Caller(x: Entry, slots: seq<Task?>, i: int, idle: set<Task>)
  {
    0 <= i < |slots| && slots[i] != null && slots[i] !in idle
    && x.handler.arg == slots[i] && x.handle == slots[i].delayedEvent
  }

  /** Each registered task owns one pending event; an idle one (its callback is running, or it is being
      added or removed) owns none. */
  ghost predicate Owned(v: seq<Entry>, slots: seq<Task?>, idle: set<Task>)
  {
    && DistinctHandles(v) && DistinctTasks(slots) && NoStrayCalls(v, slots, idle)
    && (forall i :: 0 <= i < |slots| && slots[i] != null ==> Stands(v, slots[i], idle))
  }

  /** Owning one event means owning exactly one: no other entry of the queue calls the wrapper for t. */
  lemma OwnsExactlyOne(v: seq<Entry>, slots: seq<Task?>, idle: set<Task>, t: Task, j: nat)
    requires Owned(v, slots, idle) && t in slots && j < |v| && v[j].handler == WrapperFor(t)
    ensures t !in idle && OwnsEvent(v, t) && j == IndexOf(v, t.delayedEvent)
  {
    var i :| Caller(v[j], slots, i, idle);
    UniqueEntry(v, j, t.delayedEvent);
  }

  lemma RemovedMembers(v: seq<Entry>, k: nat)
    requires k < |v|
    ensures forall x :: x in RemoveAt(v, k) ==> x in v
  {
  }

  lemma InsertedMembers(v: seq<Entry>, k: nat, y: Entry)
    requires k <= |v|
    ensures forall x :: x in InsertAt(v, k, y) <==> x in v || x == y
  {
    assert v == v[..k] + v[k..];
  }

  lemma SameStands(v: seq<Entry>, w: seq<Entry>, t: Task, idle: set<Task>)
    requires SameFor(v, w, t.delayedEvent)
    ensures Stands(w, t, idle) <==> Stands(v, t, idle)
  {
  }

  /** A new task gets a free or new slot, and is idle at first. */
  lemma OwnedAfterEnter(v: seq<Entry>, slots: seq<Task?>, idle: set<Task>, slots': seq<Task?>, k: nat, t: Task)
    requires Owned(v, slots, idle) && !Armed(v, t.delayedEvent) && t !in idle
    requires k < |slots'| && |slots| <= |slots'| && slots'[k] == t
    requires forall i :: 0 <= i < |slots'| && i != k ==> i < |slots| && slots'[i] == slots[i]
    requires k < |slots| ==> slots[k] == null
    requires forall i :: 0 <= i < |slots| && slots[i] != null ==>
               slots[i] != t && slots[i].delayedEvent != t.delayedEvent
    ensures Owned(v, slots', idle + {t})
  {
    hide IndexOf;
    forall x | x in v && x.handler.fn == WRAPPER
      ensures exists i :: Caller(x, slots', i, idle + {t})
    {
      var i :| Caller(x, slots, i, idle);
      assert Caller(x, slots', i, idle + {t});
    }
    forall i | 0 <= i < |slots'| && slots'[i] != null
      ensures Stands(v, slots'[i], idle + {t})
    {
      assert i != k ==> Stands(v, slots[i], idle);
    }
  }

  /** An idle task is armed. */
  lemma OwnedAfterArm(v: seq<Entry>, slots: seq<Task?>, idle: set<Task>, t: Task, x: Entry)
    requires Owned(v, slots, idle) && t in idle && t in slots && DistinctHandles(Insert(v, x))
    requires x.handler == WrapperFor(t) && x.handle == t.delayedEvent
    ensures Owned(Insert(v, x), slots, idle - {t})
    ensures Insert(v, x)[IndexOf(Insert(v, x), t.delayedEvent)] == x
  {
    hide IndexOf, InsertAt, Upper, DistinctHandles;
    var w := Insert(v, x);
    var s :| 0 <= s < |slots| && slots[s] == t;
    assert Stands(v, slots[s], idle);
    PutOwn(v, Upper(v, x.time), x, t.delayedEvent);
    InsertedMembers(v, Upper(v, x.time), x);
    forall i | 0 <= i < |slots| && slots[i] != null
      ensures Stands(w, slots[i], idle - {t})
    {
      if slots[i] != t {
        assert slots[i].delayedEvent != slots[s].delayedEvent;
        InsertKeepsOther(v, x, slots[i].delayedEvent);
        SameStands(v, w, slots[i], idle);
      }
    }
    forall y | y in w && y.handler.fn == WRAPPER
      ensures exists i :: Caller(y, slots, i, idle - {t})
    {
      if y == x {
        assert Caller(y, slots, s, idle - {t});
      } else {
        var i :| Caller(y, slots, i, idle);
        assert Caller(y, slots, i, idle - {t});
      }
    }
  }

  lemma Owner(v: seq<Entry>, slots: seq<Task?>, idle: set<Task>, t: Task)
    requires Owned(v, slots, idle) && t in slots
    ensures Stands(v, t, idle)
  {
  }

  /** A task's event leaves the queue, fired or cancelled; the task is idle. */
  lemma OwnedAfterTake(v: seq<Entry>, slots: seq<Task?>, idle: set<Task>, t: Task)
    requires Owned(v, slots, idle) && t in slots && t !in idle
    ensures Armed(v, t.delayedEvent)
    ensures Owned(RemoveAt(v, IndexOf(v, t.delayedEvent)), slots, idle + {t})
  {
    hide IndexOf, RemoveAt, DistinctHandles;
    Owner(v, slots, idle, t);
    var k := IndexOf(v, t.delayedEvent);
    var s :| 0 <= s < |slots| && slots[s] == t;
    var w := RemoveAt(v, k);
    RemoveDistinct(v, k);
    RemovedOwn(v, k, t.delayedEvent);
    RemovedMembers(v, k);
    forall i | 0 <= i < |slots| && slots[i] != null
      ensures Stands(w, slots[i], idle + {t})
    {
      if slots[i] != t {
        assert slots[i].delayedEvent != slots[s].delayedEvent;
        RemoveKeepsOther(v, k, slots[i].delayedEvent);
        SameStands(v, w, slots[i], idle);
      }
    }
    forall x | x in w && x.handler.fn == WRAPPER
      ensures exists i :: Caller(x, slots, i, idle + {t})
    {
      var i :| Caller(x, slots, i, idle);
      var j :| 0 <= j < |w| && w[j] == x;
      assert Caller(x, slots, i, idle + {t});
    }
  }

  /** The slot of an idle task is freed. */
  lemma OwnedAfterRelease(v: seq<Entry>, slots: seq<Task?>, idle: set<Task>, s: nat)
    requires s < |slots| && slots[s] != null && slots[s] in idle && Owned(v, slots, idle)
    ensures Owned(v, slots[s := null], idle - {slots[s]})
  {
    hide IndexOf, Armed, DistinctHandles;
    var t, r := slots[s], slots[s := null];
    forall x | x in v && x.handler.fn == WRAPPER
      ensures exists i :: Caller(x, r, i, idle - {t})
    {
      var i :| Caller(x, slots, i, idle);
      assert Caller(x, r, i, idle - {t});
    }
    forall i | 0 <= i < |r| && r[i] != null
      ensures Stands(v, r[i], idle - {t})
    {
      assert Stands(v, slots[i], idle);
    }
  }

  /** What happens to other handles' events, and brings no wrapper call, does not affect any task. */
  lemma OwnedAfterOther(v: seq<Entry>, w: seq<Entry>, slots: seq<Task?>, idle: set<Task>)
    requires Owned(v, slots, idle) && DistinctHandles(w)
    requires forall i :: 0 <= i < |slots| && slots[i] != null ==> SameFor(v, w, slots[i].delayedEvent)
    requires forall x :: x in w && x.handler.fn == WRAPPER ==> x in v
    ensures Owned(w, slots, idle)
  {
    hide SameFor, IndexOf, DistinctHandles;
    forall i | 0 <= i < |slots| && slots[i] != null
      ensures Stands(w, slots[i], idle)
    {
      assert Stands(v, slots[i], idle);
      SameStands(v, w, slots[i], idle);
    }
  }

  /** An event that is no wrapper call belongs to no task. */
  lemma NoTasksEntry(v: seq<Entry>, slots: seq<Task?>, idle: set<Task>, k: nat)
    requires Owned(v, slots, idle) && k < |v| && v[k].handler.fn != WRAPPER
    ensures forall i :: 0 <= i < |slots| && slots[i] != null ==> v[k].handle != slots[i].delayedEvent
  {
    forall i | 0 <= i < |slots| && slots[i] != null
      ensures v[k].handle != slots[i].delayedEvent
    {
      assert Stands(v, slots[i], idle);
      if v[k].handle == slots[i].delayedEvent {
        UniqueEntry(v, k, slots[i].delayedEvent);
      }
    }
  }

  /** A wrapper call belongs to the task it is for. */
  lemma WrapperEntry(v: seq<Entry>, slots: seq<Task?>, idle: set<Task>, k: nat) returns (i: nat)
    requires Owned(v, slots, idle) && k < |v| && v[k].handler.fn == WRAPPER
    ensures i < |slots| && slots[i] != null && slots[i] !in idle
    ensures v[k].handler.arg == slots[i] && v[k].handle == slots[i].delayedEvent
    ensures IndexOf(v, slots[i].delayedEvent) == k
  {
    i :| Caller(v[k], slots, i, idle);
    UniqueEntry(v, k, slots[i].delayedEvent);
  }
}

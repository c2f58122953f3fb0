/** The sleep bound of iotc_event_loop.c: how long the loop may wait in select before some dispatcher has an
    event to execute. */
module EventLoops {
  import opened TimerSpec
  import opened TimerQueues
  import opened DispatcherSpec
  import opened Dispatchers
  import opened LinkedLists
  import DispatcherRuns
  import DispatcherLaws

  const DEFAULT_IDLE_TIMEOUT := 1
  const MAX_IDLE_TIMEOUT := 5

  /** A call made on the dispatcher with the given index. */
  datatype CallOn = CallOn(which: nat, cmd: Cmd)

  /** A file registered with a dispatcher: whether it waits for an event, and what its handler does then. */
  datatype File = File(waits: bool, calls: seq<CallOn>)

  /** The pending events of each dispatcher. */
  function Pending(states: seq<DState>): (q: seq<seq<Entry>>)
    ensures |q| == |states| && forall k :: 0 <= k < |states| ==> q[k] == states[k].pending
  {
    seq(|states|, k requires 0 <= k < |states| => states[k].pending)
  }

  function ApplyOn(states: seq<DState>, c: CallOn): (r: seq<DState>)
    ensures |r| == |states|
  {
    if c.which < |states| then states[c.which := Apply(states[c.which], c.cmd)] else states
  }

  function ApplyCalls(states: seq<DState>, calls: seq<CallOn>): (r: seq<DState>)
    ensures |r| == |states|
    decreases |calls|
  {
    if calls == [] then states else ApplyCalls(ApplyOn(states, calls[0]), calls[1..])
  }

  /** The handlers of the files that wait run, one after the other. */
  function RunFiles(states: seq<DState>, files: seq<File>): (r: seq<DState>)
    ensures |r| == |states|
    decreases |files|
  {
    if files == [] then states
    else RunFiles(if files[0].waits then ApplyCalls(states, files[0].calls) else states, files[1..])
  }

  function RunAllFiles(states: seq<DState>, files: seq<seq<File>>): (r: seq<DState>)
    ensures |r| == |states|
    decreases |files|
  {
    if files == [] then states else RunAllFiles(RunFiles(states, files[0]), files[1..])
  }

  // ---------- what the file handlers do to each dispatcher ----------

  /** Those of the calls that are made on dispatcher k. */
  function CallsFor(calls: seq<CallOn>, k: nat): seq<Cmd>
  {
    if calls == [] then []
    else (if calls[0].which == k then [calls[0].cmd] else []) + CallsFor(calls[1..], k)
  }

  /** The calls on dispatcher k by the handlers of the waiting files, in order. */
  function FileCalls(files: seq<File>, k: nat): seq<Cmd>
  {
    if files == [] then []
    else (if files[0].waits then CallsFor(files[0].calls, k) else []) + FileCalls(files[1..], k)
  }

  function AllFileCalls(files: seq<seq<File>>, k: nat): seq<Cmd>
  {
    if files == [] then [] else FileCalls(files[0], k) + AllFileCalls(files[1..], k)
  }

  lemma {:induction false} CallsProject(states: seq<DState>, calls: seq<CallOn>, k: nat)
    requires k < |states|
    ensures ApplyCalls(states, calls)[k] == ApplyAll(states[k], CallsFor(calls, k))
    decreases |calls|
  {
    hide Apply;
    if calls != [] {
      CallsProject(ApplyOn(states, calls[0]), calls[1..], k);
      if calls[0].which == k {
        assert CallsFor(calls, k)[1..] == CallsFor(calls[1..], k);
      } else {
        assert CallsFor(calls, k) == CallsFor(calls[1..], k);
      }
    }
  }

  /** After the files of one dispatcher were looked at, every dispatcher has had exactly the calls that the
      waiting files' handlers made on it, in order. */
  lemma {:induction false} FilesProject(states: seq<DState>, files: seq<File>, k: nat)
    requires k < |states|
    ensures RunFiles(states, files)[k] == ApplyAll(states[k], FileCalls(files, k))
    decreases |files|
  {
    hide ApplyAll, ApplyCalls, CallsFor;
    if files == [] {
      DispatcherLaws.ApplyAllConcat(states[k], [], []);
      NothingApplied(states[k]);
    } else {
      var t := if files[0].waits then ApplyCalls(states, files[0].calls) else states;
      FilesProject(t, files[1..], k);
      if files[0].waits {
        CallsProject(states, files[0].calls, k);
        DispatcherLaws.ApplyAllConcat(states[k], CallsFor(files[0].calls, k), FileCalls(files[1..], k));
      } else {
        assert [] + FileCalls(files[1..], k) == FileCalls(files[1..], k);
      }
    }
  }

  /** The same for the files of all dispatchers. */
  lemma {:induction false} AllFilesProject(states: seq<DState>, files: seq<seq<File>>, k: nat)
    requires k < |states|
    ensures RunAllFiles(states, files)[k] == ApplyAll(states[k], AllFileCalls(files, k))
    decreases |files|
  {
    hide ApplyAll, RunFiles, FileCalls;
    if files == [] {
      NothingApplied(states[k]);
    } else {
      FilesProject(states, files[0], k);
      AllFilesProject(RunFiles(states, files[0]), files[1..], k);
      DispatcherLaws.ApplyAllConcat(states[k], FileCalls(files[0], k), AllFileCalls(files[1..], k));
    }
  }

  lemma NothingApplied(s: DState)
    ensures ApplyAll(s, []) == s
  {
  }

  /** So an event that a waiting file's handler is granted on dispatcher k, with a handle that is not used again,
      is pending there in the end, at its time. */
  lemma ScheduledByFile(states: seq<DState>, files: seq<seq<File>>, k: nat, before: seq<Cmd>, after: seq<Cmd>,
                        handler: EventHandle, delay: int, h: Handle)
    requires k < |states| && AllFileCalls(files, k) == before + [Schedule(handler, delay, h, true, true)] + after
    requires (forall i :: 0 <= i < |after| ==> !DispatcherRuns.Uses(after[i], h))
    requires var s := ApplyAll(states[k], before); !Armed(s.pending, h) && Accepts(|s.pending|, s.capacity, true)
    ensures var s, v := ApplyAll(states[k], before), RunAllFiles(states, files)[k].pending;
            Armed(v, h) && v[IndexOf(v, h)] == Entry(s.nextId, AddTime(s.now, delay), handler, h)
  {
    hide ApplyAll, Apply, RunAllFiles, AllFileCalls, IndexOf, AddTime, Accepts;
    var c := Schedule(handler, delay, h, true, true);
    var s := ApplyAll(states[k], before);
    AllFilesProject(states, files, k);
    DispatcherLaws.ApplyAllConcat(states[k], before + [c], after);
    DispatcherLaws.CallsInOrder(states[k], before, c);
    DispatcherRuns.ScheduleArms(s, handler, delay, h, true, true);
    DispatcherLaws.StaysPending(Apply(s, c), h, after);
  }

  lemma {:induction false} NobodyRuns(states: seq<DState>, files: seq<File>)
    requires !Waiting(files)
    ensures RunFiles(states, files) == states
    decreases |files|
  {
    if files != [] {
      assert !files[0].waits;
      assert forall j :: 0 <= j < |files[1..]| ==> files[1..][j] == files[j + 1];
      NobodyRuns(states, files[1..]);
    }
  }

  /** No event of these queues is due before t. */
  ghost predicate NoneBefore(queues: seq<seq<Entry>>, t: int)
  {
    forall k, j :: 0 <= k < |queues| && 0 <= j < |queues[k]| ==> t <= queues[k][j].time
  }

  /** Some event of these queues is due at t. */
  ghost predicate SomeAt(queues: seq<seq<Entry>>, t: int)
  {
    exists k, j :: 0 <= k < |queues| && 0 <= j < |queues[k]| && queues[k][j].time == t
  }

  ghost predicate AllEmpty(queues: seq<seq<Entry>>)
  {
    forall k :: 0 <= k < |queues| ==> queues[k] == []
  }

  /** Some file waits for an event. */
  ghost predicate Waiting(files: seq<File>)
  {
    exists j :: 0 <= j < |files| && files[j].waits
  }

  ghost predicate SomeWaiting(files: seq<seq<File>>)
  {
    exists k :: 0 <= k < |files| && Waiting(files[k])
  }

  /** Sleeping that long from now on oversleeps no event. */
  ghost predicate Safe(queues: seq<seq<Entry>>, now: int, timeout: int)
  {
    timeout == 0 || NoneBefore(queues, now + timeout)
  }

  /** The sleep ends with the first event, in the past as now, or with the longest sleep; with no event
      at all it has the default length. */
  ghost predicate Tight(queues: seq<seq<Entry>>, now: int, timeout: int)
  {
    if AllEmpty(queues) then timeout == DEFAULT_IDLE_TIMEOUT
    else exists first ::
        && NoneBefore(queues, first) && SomeAt(queues, first)
        && timeout == if first <= now then 0
                      else if first < now + MAX_IDLE_TIMEOUT then first - now else MAX_IDLE_TIMEOUT
  }

  /** What the loop over the dispatchers has found out so far. */
  ghost predicate Sampled(queues: seq<seq<Entry>>, wasSet: bool, candidate: int)
  {
    if wasSet then NoneBefore(queues, candidate) && SomeAt(queues, candidate) else AllEmpty(queues)
  }

  lemma NothingSampled(queues: seq<seq<Entry>>)
    ensures Sampled(queues[..0], false, 0)
  {
  }

  lemma SampledStep(queues: seq<seq<Entry>>, k: nat, wasSet: bool, candidate: int, some: bool, time: int)
    requires k < |queues| && Sampled(queues[..k], wasSet, candidate) && Sampled([queues[k]], some, time)
    ensures Sampled(queues[..k + 1], wasSet || some,
                    if some && !(wasSet && candidate <= time) then time else candidate)
  {
    var a: seq<seq<Entry>>, b: seq<seq<Entry>> := queues[..k], queues[..k + 1];
    assert b == a + [queues[k]];
    if wasSet {
      var i, j :| 0 <= i < |a| && 0 <= j < |a[i]| && a[i][j].time == candidate;
      assert b[i][j].time == candidate;
    }
    if some {
      var j :| 0 <= j < |[queues[k]][0]| && [queues[k]][0][j].time == time;
      assert b[k][j].time == time;
      assert [queues[k]][0] == queues[k];
    }
  }

  lemma SampledTimeout(queues: seq<seq<Entry>>, wasSet: bool, candidate: int, now: int)
    requires Sampled(queues, wasSet, candidate)
    ensures var wait := if !wasSet then DEFAULT_IDLE_TIMEOUT else if candidate >= now then candidate - now else 0;
            var timeout := if wait > MAX_IDLE_TIMEOUT then MAX_IDLE_TIMEOUT else wait;
            Safe(queues, now, timeout) && Tight(queues, now, timeout)
  {
    if wasSet {
      assert NoneBefore(queues, candidate) && SomeAt(queues, candidate);
      var k, j :| 0 <= k < |queues| && 0 <= j < |queues[k]| && queues[k][j].time == candidate;
      assert queues[k] != [];
    }
  }

  lemma WaitingStep(files: seq<seq<File>>, k: nat)
    requires k < |files|
    ensures SomeWaiting(files[..k + 1]) <==> SomeWaiting(files[..k]) || Waiting(files[k])
  {
    assert files[..k + 1] == files[..k] + [files[k]];
    if SomeWaiting(files[..k]) {
      var i :| 0 <= i < k && Waiting(files[..k][i]);
      assert Waiting(files[..k + 1][i]);
    }
    if Waiting(files[k]) {
      assert Waiting(files[..k + 1][k]);
    }
  }

  /** The event dispatchers of a loop: separate, and each with its own handles. */
  class EventLoop {
    const evtds: seq<Dispatcher>
    ghost const clients: seq<set<Handle>>
    ghost var Repr: set<object>

    ghost predicate Valid()
      reads this, Repr
    {
      && this in Repr && |clients| == |evtds|
      && (forall k :: 0 <= k < |evtds| ==>
            && evtds[k] in Repr && evtds[k].Repr <= Repr && this !in evtds[k].Repr
            && evtds[k].Valid() && evtds[k].timers in Repr && evtds[k].timers.clients == clients[k])
      && (forall j, k :: 0 <= j < |evtds| && 0 <= k < |evtds| && j != k ==> evtds[j].Repr !! evtds[k].Repr)
    }

    constructor (evtds: seq<Dispatcher>, ghost clients: seq<set<Handle>>, ghost repr: set<object>)
      requires |clients| == |evtds|
      requires forall k :: 0 <= k < |evtds| ==>
                 evtds[k].Valid() && evtds[k].timers.clients == clients[k] && evtds[k].Repr <= repr
      requires forall j, k :: 0 <= j < |evtds| && 0 <= k < |evtds| && j != k ==> evtds[j].Repr !! evtds[k].Repr
      ensures Valid() && this.evtds == evtds && Repr == repr + {this}
    {
      hide TimerQueue.Wf, TimerQueue.Valid, List.Valid;
      this.evtds, this.clients, Repr := evtds, clients, repr + {this};
    }

    ghost predicate KnownCall(c: CallOn)
    {
      c.which < |evtds| && c.which < |clients| && Known(c.cmd, clients[c.which])
    }

    ghost predicate KnownFiles(files: seq<File>)
    {
      forall j, i :: 0 <= j < |files| && 0 <= i < |files[j].calls| ==> KnownCall(files[j].calls[i])
    }

    ghost function States(): (q: seq<DState>)
      reads this, evtds
      ensures |q| == |evtds|
    {
      seq(|evtds|, k requires 0 <= k < |evtds| reads evtds => evtds[k].state)
    }

    method RunCall(c: CallOn)
      requires Valid() && KnownCall(c)
      modifies Repr
      ensures Valid() && fresh(Repr - old(Repr)) && States() == ApplyOn(old(States()), c)
    {
      hide TimerQueue.Wf, TimerQueue.Valid, List.Valid, Apply;
      evtds[c.which].Call(c.cmd);
      Repr := Repr + evtds[c.which].Repr;
    }

    /** Samples the earliest event of one dispatcher. */
    method Earliest(k: nat) returns (ret: State, time: int)
      requires Valid() && k < |evtds|
      ensures Sampled([Pending(States())[k]], ret == OK, time)
    {
      ret, time := evtds[k].GetTimeOfEarliestEvent();
      ghost var q := Pending(States())[k];
      assert q != [] ==> [q][0][0].time == q[0].time;
    }

    /** What one file handler does. */
    method RunCalls(calls: seq<CallOn>)
      requires Valid() && forall i :: 0 <= i < |calls| ==> KnownCall(calls[i])
      modifies Repr
      ensures Valid() && fresh(Repr - old(Repr)) && States() == ApplyCalls(old(States()), calls)
    {
      hide Valid, States, ApplyOn;
      assert calls[0..] == calls;
      for i := 0 to |calls|
        invariant Valid() && fresh(Repr - old(Repr))
        invariant ApplyCalls(States(), calls[i..]) == ApplyCalls(old(States()), calls)
      {
        assert calls[i..][1..] == calls[i + 1..];
        RunCall(calls[i]);
      }
    }

    /** `iotc_evtd_update_file_fd_events`. */
    method UpdateFiles(files: seq<File>) returns (updated: bool)
      requires Valid() && KnownFiles(files)
      modifies Repr
      ensures Valid() && fresh(Repr - old(Repr)) && States() == RunFiles(old(States()), files)
      ensures forall k :: 0 <= k < |evtds| ==> States()[k] == ApplyAll(old(States())[k], FileCalls(files, k))
      ensures updated <==> Waiting(files)
      ensures !updated ==> States() == old(States())
    {
      hide Valid, States, ApplyCalls, ApplyAll, FileCalls;
      updated := false;
      assert files[0..] == files;
      for j := 0 to |files|
        invariant Valid() && fresh(Repr - old(Repr))
        invariant updated <==> exists i :: 0 <= i < j && files[i].waits
        invariant RunFiles(States(), files[j..]) == RunFiles(old(States()), files)
      {
        assert files[j..][1..] == files[j + 1..];
        if files[j].waits {
          RunCalls(files[j].calls);
          updated := true;
        }
      }
      forall k | 0 <= k < |evtds|
        ensures States()[k] == ApplyAll(old(States())[k], FileCalls(files, k))
      {
        FilesProject(old(States()), files, k);
      }
      if !updated {
        NobodyRuns(old(States()), files);
      }
    }

    /** `iotc_bsp_event_loop_transform_to_bsp_select`, but for the sockets. The files of the k-th dispatcher are
        files[k]; now is what the clock says once the file handlers have run. */
    method SelectTimeout(files: seq<seq<File>>, now: int) returns (ok: bool, timeout: int)
      requires Valid() && |files| == |evtds| && forall k :: 0 <= k < |files| ==> KnownFiles(files[k])
      modifies Repr
      ensures Valid() && fresh(Repr - old(Repr))
      ensures ok == (evtds != [])
      ensures States() == if ok then RunAllFiles(old(States()), files) else old(States())
      ensures ok ==> forall k :: 0 <= k < |evtds| ==> States()[k] == ApplyAll(old(States())[k], AllFileCalls(files, k))
      ensures ok ==> 0 <= timeout <= MAX_IDLE_TIMEOUT && Safe(Pending(States()), now, timeout)
      ensures ok && SomeWaiting(files) ==> timeout == 0
      ensures ok && !SomeWaiting(files) ==> States() == old(States()) && Tight(Pending(States()), now, timeout)
    {
      hide ApplyAll, AllFileCalls, Valid, States, RunFiles, KnownFiles, Waiting, Sampled, Tight, NoneBefore;
      timeout := 0;
      if evtds == [] {
        return false, 0;
      }
      var wasFileUpdated, wasSet, candidate := false, false, 0;
      NothingSampled(Pending(States()));
      assert files[0..] == files;
      for k := 0 to |evtds|
        invariant Valid() && fresh(Repr - old(Repr))
        invariant wasFileUpdated <==> SomeWaiting(files[..k])
        invariant RunAllFiles(States(), files[k..]) == RunAllFiles(old(States()), files)
        invariant !wasFileUpdated ==> States() == old(States()) && Sampled(Pending(States())[..k], wasSet, candidate)
      {
        hide SomeWaiting;
        assert files[k..][1..] == files[k + 1..];
        ghost var before := Pending(States());
        var state, time := Earliest(k);
        if !wasFileUpdated {
          SampledStep(before, k, wasSet, candidate, state == OK, time);
        }
        if state == OK {
          candidate := if wasSet && candidate <= time then candidate else time;
          wasSet := true;
        }
        var updated := UpdateFiles(files[k]);
        WaitingStep(files, k);
        wasFileUpdated := wasFileUpdated || updated;
      }
      assert files[..|evtds|] == files && Pending(States())[..|evtds|] == Pending(States());
      if !wasFileUpdated {
        SampledTimeout(Pending(States()), wasSet, candidate, now);
      }
      candidate := if !wasSet then DEFAULT_IDLE_TIMEOUT else if candidate >= now then candidate - now else 0;
      candidate := if candidate > MAX_IDLE_TIMEOUT then MAX_IDLE_TIMEOUT else candidate;
      forall k | 0 <= k < |evtds|
        ensures States()[k] == ApplyAll(old(States())[k], AllFileCalls(files, k))
      {
        AllFilesProject(old(States()), files, k);
      }
      ok, timeout := true, if wasFileUpdated then 0 else candidate;
    }
  }
}

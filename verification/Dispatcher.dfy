/** The event dispatcher of iotc_event_dispatcher.c over the timer queue and the linked call queue.
    Each operation refines the transition of the same name in DispatcherSpec. */
module Dispatchers {
  import opened TimerSpec
  import opened TimerQueues
  import opened LinkedLists
  import opened DispatcherSpec
  import DispatcherRuns

  class Dispatcher {
    var currentStep: int
    const timers: TimerQueue
    const callQueue: List<EventHandle>
    var onEmpty: OnEmpty
    var stop: bool
    /** The identity the allocator gives to the next event. */
    var nextId: nat
    ghost var state: DState
    /** The objects of the call queue, and all objects. */
    ghost var queueRepr: set<object>
    ghost var Repr: set<object>

    ghost predicate Valid()
      reads this, Repr
    {
      && this in Repr && timers in Repr && timers.Repr <= Repr && queueRepr <= Repr
      && callQueue in queueRepr && timers.Repr !! queueRepr && this !in timers.Repr && this !in queueRepr
      && timers.Valid()
      && state.pending == timers.view && state.capacity == timers.vector.capacity
      && |state.calls| == |callQueue.nodes|
      && (forall i :: 0 <= i < |callQueue.nodes| ==>
            callQueue.nodes[i] in queueRepr && callQueue.nodes[i].data == state.calls[i])
      && callQueue.Valid()
      && state.now == currentStep && state.onEmpty == onEmpty && state.stop == stop && state.nextId == nextId
    }

    constructor ()
      ensures Valid() && fresh(Repr) && state == Initial() && timers.clients == {}
    {
      timers := new TimerQueue();
      callQueue := new List<EventHandle>();
      currentStep, onEmpty, stop, nextId, state := 0, Unset, false, 0, Initial();
      new;
      queueRepr := {callQueue};
      Repr := {this, timers, callQueue} + timers.Repr;
    }

    /** A handle is empty exactly when no pending event answers to it. */
    lemma Liveness(h: Handle)
      requires Valid() && h in timers.clients
      ensures h.event != null <==> Armed(state.pending, h)
    {
      timers.HandleLiveness(h);
    }

    method Execute(handler: EventHandle, memoryOk: bool) returns (ok: bool)
      requires Valid()
      modifies Repr
      ensures Valid() && fresh(Repr - old(Repr)) && timers.clients == old(timers.clients)
      ensures state == Apply(old(state), Enqueue(handler, memoryOk)) && ok == memoryOk
      ensures ok ==> state == old(state).(calls := old(state).calls + [handler], accepted := state.accepted)
      ensures !ok ==> state == old(state)
    {
      if !memoryOk {
        return false;
      }
      PushCall(handler);
      state := state.(accepted := state.accepted + [handler]);
      ok := true;
    }

    method PushCall(handler: EventHandle)
      requires Valid()
      modifies this`Repr, this`queueRepr, this`state, callQueue, callQueue.nodes
      ensures Valid() && fresh(Repr - old(Repr)) && timers.Repr == old(timers.Repr)
      ensures state == old(state).(calls := old(state).calls + [handler])
    {
      hide TimerQueue.Wf, List.Valid;
      var elem := new Node(handler);
      callQueue.PushBack(elem);
      queueRepr, Repr := queueRepr + {elem}, Repr + {elem};
      state := state.(calls := state.calls + [handler]);
    }

    method ExecuteIn(handler: EventHandle, diff: int, h: Handle?, eventOk: bool, growOk: bool) returns (ret: State)
      requires Valid()
      requires h != null ==> h.event == null && (h in timers.clients || h !in Repr)
      modifies Repr, h
      ensures Valid() && fresh(Repr - old(Repr) - timers.clients)
      ensures timers.clients == old(timers.clients) + (if ret == OK && h != null then {h} else {})
      ensures state == Apply(old(state), Schedule(handler, diff, h, eventOk, growOk))
      ensures ret == if eventOk && Accepts(|old(state).pending|, old(state).capacity, growOk) then OK else OUT_OF_MEMORY
    {
      hide Insert, Armed, IndexOf, Accepts, Grown, AddTime, TimerQueue.Wf, List.Valid;
      if h != null {
        NotArmed(h);
      }
      if !eventOk {
        return OUT_OF_MEMORY;
      }
      ret := AddEvent(handler, AddTime(currentStep, diff), h, growOk);
    }

    method AddEvent(handler: EventHandle, time: int, h: Handle?, growOk: bool) returns (ret: State)
      requires Valid()
      requires h != null ==> h.event == null && (h in timers.clients || h !in Repr)
      modifies Repr, h
      ensures Valid() && fresh(Repr - old(Repr) - timers.clients)
      ensures timers.clients == old(timers.clients) + (if ret == OK && h != null then {h} else {})
      ensures ret == if Accepts(|old(state).pending|, old(state).capacity, growOk) then OK else OUT_OF_MEMORY
      ensures state == if ret != OK then old(state)
                       else old(state).(pending := Insert(old(state).pending,
                                                          Entry(old(state).nextId, time, handler, h)),
                                        capacity := Grown(|old(state).pending|, old(state).capacity),
                                        nextId := old(state).nextId + 1)
    {
      hide Insert, Accepts, Grown, TimerQueue.Wf, List.Valid;
      timers.Footprint();
      var e := new Event(nextId, handler, time);
      ret := timers.Add(e, h, growOk);
      Repr := Repr + timers.Repr;
      if ret == OK {
        nextId := nextId + 1;
        state := state.(pending := timers.view, capacity := timers.vector.capacity, nextId := nextId);
      }
    }

    lemma ClientsInRepr()
      requires Valid()
      ensures forall h :: h in timers.clients ==> h in Repr
    {
      timers.Footprint();
    }

    ghost method Admit(h: Handle)
      requires Valid() && h !in Repr && h.event == null
      modifies this`Repr, timers`clients, timers`Repr
      ensures Valid() && timers.clients == old(timers.clients) + {h}
      ensures Repr == old(Repr) + {h} && timers.Repr == old(timers.Repr) + {h}
    {
      timers.Admit(h);
      Repr := Repr + {h};
    }

    /** An empty handle, known to the queue or not, answers for nothing. */
    lemma NotArmed(h: Handle)
      requires Valid() && h.event == null && (h in timers.clients || h !in Repr)
      ensures !Armed(state.pending, h)
    {
      if h in timers.clients {
        Liveness(h);
      } else if Armed(state.pending, h) {
        timers.EntryAt(IndexOf(state.pending, h));
      }
    }

    method Cancel(h: Handle) returns (ret: State)
      requires Valid() && h in timers.clients && h.event != null
      modifies Repr
      ensures Valid() && Repr == old(Repr) && timers.clients == old(timers.clients)
      ensures ret == OK && Armed(old(state).pending, h)
      ensures state == Apply(old(state), DispatcherSpec.Cancel(h))
    {
      Liveness(h);
      state := Apply(state, DispatcherSpec.Cancel(h));
      var e;
      ret, e := timers.Cancel(h);
    }

    method Restart(h: Handle, newTime: int) returns (ret: State)
      requires Valid() && h in timers.clients && h.event != null
      modifies Repr
      ensures Valid() && Repr == old(Repr) && timers.clients == old(timers.clients)
      ensures ret == OK && Armed(old(state).pending, h)
      ensures state == Apply(old(state), DispatcherSpec.Restart(h, newTime))
    {
      Liveness(h);
      state := Apply(state, DispatcherSpec.Restart(h, newTime));
      ret := timers.Restart(h, AddTime(currentStep, newTime));
    }

    method ContinueWhenEmpty(handler: EventHandle)
      requires Valid()
      modifies this
      ensures Valid() && Repr == old(Repr) && state == Apply(old(state), WhenEmpty(handler))
    {
      onEmpty := Set(handler);
      state := Apply(state, WhenEmpty(handler));
    }

    // ---------- running handlers ----------

    /** One guarded call, as clients make it. */
    method Call(c: Cmd)
      requires Valid() && Known(c, timers.clients)
      modifies Repr
      ensures Valid() && fresh(Repr - old(Repr)) && timers.clients == old(timers.clients)
      ensures state == Apply(old(state), c)
    {
      hide TimerQueue.Wf, List.Valid, Insert, Armed, IndexOf, Accepts, Grown, AddTime, Retimed;
      timers.Footprint();
      match c
      case Schedule(handler, delay, h, eventOk, growOk) =>
        if h != null {
          Liveness(h);
        }
        if h == null || h.event == null {
          var ret := ExecuteIn(handler, delay, h, eventOk, growOk);
        }
      case Cancel(h) =>
        Liveness(h);
        if h.event != null {
          var ret := Cancel(h);
        }
      case Restart(h, delay) =>
        Liveness(h);
        if h.event != null {
          var ret := Restart(h, delay);
        }
      case Enqueue(handler, memoryOk) =>
        var ok := Execute(handler, memoryOk);
      case WhenEmpty(handler) =>
        ContinueWhenEmpty(handler);
    }

    method ExecuteHandle(cmds: seq<Cmd>)
      requires Valid() && KnownAll(cmds, timers.clients)
      modifies Repr
      ensures Valid() && fresh(Repr - old(Repr)) && timers.clients == old(timers.clients)
      ensures state == ApplyAll(old(state), cmds)
    {
      hide Valid, Apply;
      var i := 0;
      assert cmds[0..] == cmds;
      while i < |cmds|
        invariant 0 <= i <= |cmds|
        invariant Valid() && fresh(Repr - old(Repr)) && timers.clients == old(timers.clients)
        invariant ApplyAll(state, cmds[i..]) == ApplyAll(old(state), cmds)
      {
        assert cmds[i..][1..] == cmds[i + 1..];
        Call(cmds[i]);
        i := i + 1;
      }
    }

    method BeginStep(newStep: int)
      requires Valid()
      modifies this
      ensures Valid() && Repr == old(Repr) && state == old(state).(now := newStep)
    {
      currentStep := newStep;
      state := state.(now := newStep);
    }

    /** Takes the earliest event out of the queue, if it is due. */
    method PopDue() returns (due: bool, handle: EventHandle)
      requires Valid()
      modifies Repr
      ensures Valid() && Repr == old(Repr) && timers.clients == old(timers.clients)
      ensures due == Due(old(state))
      ensures state == if due then Pop(old(state)) else old(state)
      ensures due ==> handle == old(state).pending[0].handler
    {
      hide TimerQueue.Wf, List.Valid;
      timers.Footprint();
      due, handle := false, EventHandle(0, null);
      if timers.vector.elemNo != 0 {
        var top := timers.PeekTop();
        if top.time <= currentStep {
          state := Pop(state);
          top := timers.GetTop();
          due, handle := true, top.handler;
        }
      }
    }

    method FireOne(r: Reaction) returns (due: bool)
      requires Valid() && KnownAll(r.cmds, timers.clients)
      modifies Repr
      ensures Valid() && fresh(Repr - old(Repr)) && timers.clients == old(timers.clients)
      ensures due == Due(old(state))
      ensures state == if due then DispatcherSpec.FireOne(old(state), r) else old(state)
    {
      hide ApplyAll, Due;
      var handle;
      due, handle := PopDue();
      if due {
        ExecuteHandle(r.cmds);
        if r.fatal {
          Stop();
        }
      }
    }

    method Stop()
      requires Valid()
      modifies this
      ensures Valid() && Repr == old(Repr) && state == old(state).(stop := true)
    {
      stop := true;
      state := state.(stop := true);
    }

    /** The timed loop, for as many iterations as reactions are given. */
    method TimedLoop(rs: seq<Reaction>)
      requires Valid() && KnownReactions(rs, timers.clients)
      modifies Repr
      ensures Valid() && fresh(Repr - old(Repr)) && timers.clients == old(timers.clients)
      ensures state == TimedPhase(old(state), rs)
    {
      hide Valid, DispatcherSpec.FireOne, Due;
      var k, due := 0, true;
      assert rs[0..] == rs;
      while due && k < |rs|
        invariant 0 <= k <= |rs|
        invariant Valid() && fresh(Repr - old(Repr)) && timers.clients == old(timers.clients)
        invariant TimedPhase(state, rs[k..]) == TimedPhase(old(state), rs)
        invariant due || !Due(state)
        decreases due, |rs| - k
      {
        assert rs[k..][1..] == rs[k + 1..];
        due := FireOne(rs[k]);
        if due {
          k := k + 1;
        }
      }
    }

    /** Serves at most one queued call. */
    method SingleStep(newStep: int, r: Reaction) returns (served: bool)
      requires Valid() && KnownAll(r.cmds, timers.clients)
      modifies Repr
      ensures Valid() && fresh(Repr - old(Repr)) && timers.clients == old(timers.clients)
      ensures served == (old(state).calls != [])
      ensures var s := old(state).(now := newStep);
              state == if served then ServeOne(s, r) else s
    {
      hide ApplyAll;
      served := TakeCall(newStep);
      if served {
        ExecuteHandle(r.cmds);
      }
    }

    method TakeCall(newStep: int) returns (some: bool)
      requires Valid()
      modifies Repr
      ensures Valid() && Repr == old(Repr) && timers.clients == old(timers.clients)
      ensures some == (old(state).calls != [])
      ensures var s := old(state).(now := newStep);
              state == if some then PopCall(s) else s
    {
      hide TimerQueue.Wf;
      currentStep := newStep;
      state := state.(now := newStep);
      some := callQueue.head != null;
      if some {
        PopHead();
      }
    }

    method PopHead()
      requires Valid() && callQueue.head != null
      modifies this`state, callQueue, callQueue.nodes
      ensures Valid() && timers.clients == old(timers.clients)
      ensures old(state).calls != []
      ensures state == PopCall(old(state))
    {
      hide TimerQueue.Wf, List.Valid;
      callQueue.NotEmpty();
      var elem := callQueue.Pop();
      assert old(callQueue.nodes)[0] == elem;
      assert forall i :: 0 <= i < |callQueue.nodes| ==> callQueue.nodes[i] == old(callQueue.nodes)[i + 1];
      state := state.(calls := state.calls[1..], served := state.served + [elem.data]);
    }

    /** The loop over the call queue, for as many iterations as reactions are given. */
    method CallLoop(newStep: int, rs: seq<Reaction>)
      requires Valid() && KnownReactions(rs, timers.clients) && currentStep == newStep
      modifies Repr
      ensures Valid() && fresh(Repr - old(Repr)) && timers.clients == old(timers.clients)
      ensures state == CallPhase(old(state), rs)
    {
      hide ServeOne;
      var k, some := 0, true;
      assert rs[0..] == rs;
      while some && k < |rs|
        invariant 0 <= k <= |rs|
        invariant Valid() && fresh(Repr - old(Repr)) && timers.clients == old(timers.clients)
        invariant CallPhase(state, rs[k..]) == CallPhase(old(state), rs) && state.now == newStep
        invariant some || state.calls == []
        decreases some, |rs| - k
      {
        assert rs[k..][1..] == rs[k + 1..];
        assert state.(now := newStep) == state;
        ServeKeepsNow(state, rs[k]);
        some := SingleStep(newStep, rs[k]);
        if some {
          k := k + 1;
        }
      }
    }

    /** Whether the on-empty handler is to run now. */
    method TakeOnEmpty() returns (some: bool)
      requires Valid()
      modifies this`state
      ensures Valid() && Repr == old(Repr) && some == (old(state).pending == [] && old(state).onEmpty.Set?)
      ensures state == Make(old(state), TakeEmpty)
    {
      hide TimerQueue.Wf, List.Valid;
      timers.Footprint();
      some := timers.vector.elemNo == 0 && onEmpty.Set?;
      if some {
        state := state.(emptied := state.emptied + [onEmpty.handler]);
      }
    }

    /** The on-empty handler is disposed of. */
    method DropOnEmpty()
      requires Valid()
      modifies this`state, this`onEmpty
      ensures Valid() && Repr == old(Repr) && state == Make(old(state), DropEmpty)
    {
      onEmpty := Unset;
      state := state.(onEmpty := Unset);
    }

    method EmptyHandler(r: Reaction)
      requires Valid() && KnownAll(r.cmds, timers.clients)
      modifies Repr
      ensures Valid() && fresh(Repr - old(Repr)) && timers.clients == old(timers.clients)
      ensures state == EmptyPhase(old(state), r)
    {
      hide Valid, ApplyAll;
      InRepr();
      var some := TakeOnEmpty();
      if some {
        ExecuteHandle(r.cmds);
        InRepr();
        DropOnEmpty();
      }
    }

    lemma InRepr()
      requires Valid()
      ensures this in Repr && timers in Repr && state.now == currentStep
    {
    }

    /** A part of a step in which no timed event is popped and no handler runs. */
    method MakeSilent(m: Move)
      requires Valid() && Silent(m)
      modifies Repr
      ensures Valid() && Repr == old(Repr) && timers.clients == old(timers.clients)
      ensures state == Make(old(state), m)
    {
      hide Valid;
      InRepr();
      match m {
        case TickTo(newStep) => BeginStep(newStep);
        case PopQueued =>
          var some := TakeCall(currentStep);
        case TakeEmpty => var some := TakeOnEmpty();
        case DropEmpty => DropOnEmpty();
        case Halt => Stop();
      }
    }

    method Step(newStep: int, timed: seq<Reaction>, calls: seq<Reaction>, empty: Reaction)
      requires Valid() && KnownReactions(timed, timers.clients) && KnownReactions(calls, timers.clients)
      requires KnownAll(empty.cmds, timers.clients)
      modifies Repr
      ensures Valid() && fresh(Repr - old(Repr)) && timers.clients == old(timers.clients)
      ensures state == DispatcherSpec.Step(old(state), newStep, timed, calls, empty)
    {
      hide TimerQueue.Wf, List.Valid, TimedPhase, CallPhase, EmptyPhase;
      BeginStep(newStep);
      DispatcherRuns.TimedPhasePlays(state, timed, NotPast);
      TimedLoop(timed);
      assert currentStep == newStep;
      CallLoop(newStep, calls);
      EmptyHandler(empty);
    }

    /** Whole runs. */
    method Drive(actions: seq<Action>)
      requires Valid() && forall i :: 0 <= i < |actions| ==> KnownAction(actions[i], timers.clients)
      modifies Repr
      ensures Valid() && fresh(Repr - old(Repr)) && timers.clients == old(timers.clients)
      ensures state == Run(old(state), actions)
    {
      hide Valid, DispatcherSpec.Step, Apply;
      var i := 0;
      assert actions[0..] == actions;
      while i < |actions|
        invariant 0 <= i <= |actions|
        invariant Valid() && fresh(Repr - old(Repr)) && timers.clients == old(timers.clients)
        invariant Run(state, actions[i..]) == Run(old(state), actions)
      {
        assert actions[i..][1..] == actions[i + 1..];
        match actions[i] {
          case StepTo(newStep, timed, calls, empty) => Step(newStep, timed, calls, empty);
          case Client(cmd) => Call(cmd);
        }
        i := i + 1;
      }
    }

    method GetTimeOfEarliestEvent() returns (ret: State, time: int)
      requires Valid()
      ensures ret == if state.pending == [] then ELEMENT_NOT_FOUND else OK
      ensures ret == OK ==> time == state.pending[0].time
                            && forall i :: 0 <= i < |state.pending| ==> time <= state.pending[i].time
    {
      time := 0;
      ret := ELEMENT_NOT_FOUND;
      if timers.vector.elemNo != 0 {
        var top := timers.PeekTop();
        time := top.time;
        ret := OK;
      }
    }
  }

  /** The handles a call uses have been admitted to the queue. */
  ghost predicate Known(c: Cmd, clients: set<Handle>)
  {
    match c
    case Schedule(_, _, h, _, _) => h != null ==> h in clients
    case Cancel(h) => h in clients
    case Restart(h, _) => h in clients
    case _ => true
  }

  ghost predicate KnownAll(cmds: seq<Cmd>, clients: set<Handle>)
  {
    forall i :: 0 <= i < |cmds| ==> Known(cmds[i], clients)
  }

  ghost predicate KnownReactions(rs: seq<Reaction>, clients: set<Handle>)
  {
    forall i :: 0 <= i < |rs| ==> KnownAll(rs[i].cmds, clients)
  }

  ghost predicate KnownAction(a: Action, clients: set<Handle>)
  {
    match a
    case StepTo(_, timed, calls, empty) =>
      KnownReactions(timed, clients) && KnownReactions(calls, clients) && KnownAll(empty.cmds, clients)
    case Client(cmd) => Known(cmd, clients)
  }

  lemma ServeKeepsNow(s: DState, r: Reaction)
    ensures s.calls != [] ==> ServeOne(s, r).now == s.now
  {
    if s.calls != [] {
      DispatcherRuns.CallsPlay(PopCall(s), r.cmds, NotPast);
    }
  }
}

/** What each call and each part of a step means, in terms of the queues and the history alone. */
module DispatcherLaws {
  import opened Sequences
  import opened TimerSpec
  import opened DispatcherSpec
  import opened DispatcherRuns

  // ---------- times ----------

  predicate Time(t: int)
  {
    -TIME_MAX - 1 <= t <= TIME_MAX
  }

  /** The sum of two 64-bit times is their sum if that is a 64-bit time; otherwise it is the one 64-bit time
      that differs from their sum by 2^64. */
  lemma AddTimeIs(a: int, b: int)
    requires Time(a) && Time(b)
    ensures Time(a + b) ==> AddTime(a, b) == a + b
    ensures !Time(a + b) ==>
              Time(AddTime(a, b)) && (AddTime(a, b) == a + b + TIME_SPAN || AddTime(a, b) == a + b - TIME_SPAN)
  {
  }

  // ---------- single calls ----------

  /** w is v with x behind everything due at or before its time, and before everything due later. */
  ghost predicate Placed(v: seq<Entry>, w: seq<Entry>, x: Entry)
  {
    exists k :: 0 <= k <= |v| && w == v[..k] + [x] + v[k..]
      && (forall j :: 0 <= j < k ==> v[j].time <= x.time) && (forall j :: k <= j < |v| ==> x.time < v[j].time)
  }

  /** A granted scheduling adds one event, due the delay after now, with a number of its own, and changes nothing
      else; a refused one, or one with a handle in use, changes nothing. */
  lemma ScheduleAdds(s: DState, handler: EventHandle, delay: int, h: Handle?, eventOk: bool, growOk: bool)
    requires Sorted(s.pending)
    ensures var t := Apply(s, Schedule(handler, delay, h, eventOk, growOk));
            if (h == null || forall j :: 0 <= j < |s.pending| ==> s.pending[j].handle != h)
               && eventOk && (|s.pending| < s.capacity || (growOk && 2 * s.capacity <= 127))
            then
              && Placed(s.pending, t.pending, Entry(s.nextId, AddTime(s.now, delay), handler, h))
              && t == s.(pending := t.pending, nextId := s.nextId + 1,
                         capacity := if |s.pending| == s.capacity then 2 * s.capacity else s.capacity)
            else t == s
  {
    hide AddTime, Upper;
    var x := Entry(s.nextId, AddTime(s.now, delay), handler, h);
    UpperSplits(s.pending, x.time);
    var k := Upper(s.pending, x.time);
    assert Insert(s.pending, x) == s.pending[..k] + [x] + s.pending[k..];
    if h != null && Armed(s.pending, h) {
      assert s.pending[IndexOf(s.pending, h)].handle == h;
    }
  }

  /** Cancelling takes out the event of the handle and nothing else, and records its number. */
  lemma CancelRemoves(s: DState, h: Handle)
    ensures var t := Apply(s, Cancel(h));
            if exists j :: 0 <= j < |s.pending| && s.pending[j].handle == h then
              exists i :: 0 <= i < |s.pending| && s.pending[i].handle == h
                && t == s.(pending := s.pending[..i] + s.pending[i + 1..], cancelled := s.cancelled + [s.pending[i].id])
            else t == s
  {
    if Armed(s.pending, h) {
      var i := IndexOf(s.pending, h);
      assert s.pending[i].handle == h;
    }
  }

  /** Restarting moves the event of the handle to the new time after now and changes nothing else. */
  lemma RestartMovesOne(s: DState, h: Handle, delay: int)
    requires Sorted(s.pending)
    ensures var t := Apply(s, Restart(h, delay));
            if exists j :: 0 <= j < |s.pending| && s.pending[j].handle == h then
              exists i, k :: 0 <= i < |s.pending| && 0 <= k < |s.pending| && s.pending[i].handle == h
                && Retaken(s.pending, t.pending, i, k, AddTime(s.now, delay)) && t == s.(pending := t.pending)
            else t == s
  {
    hide AddTime, Retimed;
    if Armed(s.pending, h) {
      var i := IndexOf(s.pending, h);
      assert s.pending[i].handle == h;
      var k := RetimedPlace(s.pending, i, AddTime(s.now, delay));
      assert Retaken(s.pending, Retimed(s.pending, i, AddTime(s.now, delay)), i, k, AddTime(s.now, delay));
    }
  }

  /** w is v with entry i, now due at t, taken out and put back at k. */
  ghost predicate Retaken(v: seq<Entry>, w: seq<Entry>, i: nat, k: nat, t: int)
    requires i < |v| && k < |v|
  {
    |w| == |v| && w[k] == v[i].(time := t) && w[..k] + w[k + 1..] == v[..i] + v[i + 1..]
  }

  /** A granted call goes to the end of the call queue; a refused one changes nothing. */
  lemma EnqueueQueues(s: DState, handler: EventHandle, memoryOk: bool)
    ensures Apply(s, Enqueue(handler, memoryOk))
            == if memoryOk then s.(calls := s.calls + [handler], accepted := s.accepted + [handler]) else s
  {
  }

  lemma WhenEmptySets(s: DState, handler: EventHandle)
    ensures Apply(s, WhenEmpty(handler)) == s.(onEmpty := OnEmpty.Set(handler))
  {
  }

  /** A handler's calls take effect one after the other. */
  lemma {:induction false} CallsInOrder(s: DState, cmds: seq<Cmd>, c: Cmd)
    ensures ApplyAll(s, []) == s && ApplyAll(s, cmds + [c]) == Apply(ApplyAll(s, cmds), c)
    decreases |cmds|
  {
    hide Apply;
    if cmds == [] {
      assert [] + [c] == [c] && [c][1..] == [];
    } else {
      assert (cmds + [c])[1..] == cmds[1..] + [c];
      CallsInOrder(Apply(s, cmds[0]), cmds[1..], c);
    }
  }

  lemma {:induction false} ApplyAllConcat(s: DState, a: seq<Cmd>, b: seq<Cmd>)
    ensures ApplyAll(s, a + b) == ApplyAll(ApplyAll(s, a), b)
    decreases |a|
  {
    hide Apply;
    if a == [] {
      assert [] + b == b;
    } else {
      assert (a + b)[1..] == a[1..] + b;
      ApplyAllConcat(Apply(s, a[0]), a[1..], b);
    }
  }

  /** What was granted to a handle stays pending as long as the handle is not used again. */
  lemma {:induction false} StaysPending(s: DState, h: Handle, cmds: seq<Cmd>)
    requires Armed(s.pending, h) && forall i :: 0 <= i < |cmds| ==> !Uses(cmds[i], h)
    ensures SameFor(s.pending, ApplyAll(s, cmds).pending, h)
    decreases |cmds|
  {
    hide Apply, IndexOf;
    if cmds != [] {
      OthersKeep(s, cmds[0], h);
      StaysPending(Apply(s, cmds[0]), h, cmds[1..]);
    }
  }

  // ---------- which calls a run makes ----------

  /** The calls among the moves, in order. */
  function CallsIn(moves: seq<Move>): seq<Cmd>
  {
    if moves == [] then []
    else (if moves[0].Calls? then [moves[0].cmd] else []) + CallsIn(moves[1..])
  }

  function AllCmds(rs: seq<Reaction>): seq<Cmd>
  {
    if rs == [] then [] else rs[0].cmds + AllCmds(rs[1..])
  }

  /** The calls of the handlers executed on the way from s to t, and the client's. */
  function ActCalls(s: DState, t: DState, a: Action): seq<Cmd>
  {
    match a
    case StepTo(_, timed, calls, empty) =>
      AllCmds(First(timed, |t.fired| - |s.fired|))
      + (AllCmds(First(calls, |t.served| - |s.served|)) + if |t.emptied| > |s.emptied| then empty.cmds else [])
    case Client(cmd) => [cmd]
  }

  function RunCalls(s: DState, actions: seq<Action>): seq<Cmd>
    decreases |actions|
  {
    if actions == [] then []
    else ActCalls(s, Act(s, actions[0]), actions[0]) + RunCalls(Act(s, actions[0]), actions[1..])
  }

  lemma CallsInFirst(moves: seq<Move>)
    requires moves != []
    ensures CallsIn(moves) == if moves[0].Calls? then [moves[0].cmd] + CallsIn(moves[1..]) else CallsIn(moves[1..])
  {
  }

  lemma {:induction false} CallsInConcat(a: seq<Move>, b: seq<Move>)
    ensures CallsIn(a + b) == CallsIn(a) + CallsIn(b)
  {
    if a == [] {
      assert [] + b == b;
    } else {
      assert (a + b)[1..] == a[1..] + b;
      CallsInConcat(a[1..], b);
    }
  }

  lemma {:induction false} CallsInCalls(cmds: seq<Cmd>)
    ensures CallsIn(CallMoves(cmds)) == cmds
    decreases |cmds|
  {
    if cmds != [] {
      assert CallMoves(cmds)[1..] == CallMoves(cmds[1..]);
      CallsInCalls(cmds[1..]);
    }
  }

  lemma CallsInReaction(r: Reaction)
    ensures CallsIn(FireMoves(r)) == CallsIn(ServeMoves(r)) == CallsIn(EmptyMoves(r)) == r.cmds
  {
    CallsInCalls(r.cmds);
    CallsInConcat([PopTimed], CallMoves(r.cmds));
    CallsInConcat([PopQueued], CallMoves(r.cmds));
    CallsInConcat([TakeEmpty], CallMoves(r.cmds));
    CallsInConcat([TakeEmpty] + CallMoves(r.cmds), [DropEmpty]);
    CallsInConcat([PopTimed] + CallMoves(r.cmds), [Halt]);
    SilentCalls(PopTimed);
    SilentCalls(PopQueued);
    SilentCalls(TakeEmpty);
    SilentCalls(DropEmpty);
    SilentCalls(Halt);
    assert [PopTimed] + CallMoves(r.cmds) + [] == [PopTimed] + CallMoves(r.cmds);
  }

  lemma SilentCalls(m: Move)
    requires !m.Calls?
    ensures CallsIn([m]) == []
  {
  }

  lemma {:induction false} CallsInFires(rs: seq<Reaction>)
    ensures CallsIn(FiresMoves(rs)) == AllCmds(rs)
    decreases |rs|
  {
    hide FireMoves;
    if rs != [] {
      CallsInReaction(rs[0]);
      CallsInFires(rs[1..]);
      CallsInConcat(FireMoves(rs[0]), FiresMoves(rs[1..]));
    }
  }

  lemma {:induction false} CallsInServes(rs: seq<Reaction>)
    ensures CallsIn(ServesMoves(rs)) == AllCmds(rs)
    decreases |rs|
  {
    hide ServeMoves;
    if rs != [] {
      CallsInReaction(rs[0]);
      CallsInServes(rs[1..]);
      CallsInConcat(ServeMoves(rs[0]), ServesMoves(rs[1..]));
    }
  }

  lemma CallsInAct(s: DState, t: DState, a: Action)
    ensures CallsIn(ActMoves(s, t, a)) == ActCalls(s, t, a)
  {
    hide CallsIn, FiresMoves, ServesMoves, EmptyMoves, AllCmds;
    match a
    case StepTo(newStep, timed, calls, empty) =>
      var x, y := First(timed, |t.fired| - |s.fired|), First(calls, |t.served| - |s.served|);
      var z := if |t.emptied| > |s.emptied| then EmptyMoves(empty) else [];
      CallsInFires(x);
      CallsInServes(y);
      CallsInReaction(empty);
      CallsInCalls([]);
      CallsInConcat(ServesMoves(y), z);
      CallsInConcat(FiresMoves(x), ServesMoves(y) + z);
      CallsInConcat([TickTo(newStep)], FiresMoves(x) + (ServesMoves(y) + z));
      SilentCalls(TickTo(newStep));
      assert CallMoves([]) == [];
    case Client(cmd) => CallsInCalls([cmd]);
      assert CallMoves([cmd]) == [Calls(cmd)];
  }

  /** In every run the calls made are, in order, all calls of all executed handlers, and the clients'. */
  lemma {:induction false} RunMakesCalls(s: DState, actions: seq<Action>)
    ensures CallsIn(RunMoves(s, actions)) == RunCalls(s, actions)
    decreases |actions|
  {
    hide Act, ActMoves, ActCalls;
    if actions != [] {
      var t := Act(s, actions[0]);
      CallsInAct(s, t, actions[0]);
      RunMakesCalls(t, actions[1..]);
      CallsInConcat(ActMoves(s, t, actions[0]), RunMoves(t, actions[1..]));
    }
  }

  /** The silent moves: time passes; the oldest queued call is taken; the on-empty handler is taken if it is set and
      no timed event is pending; it is disposed of; the dispatcher stops. */
  lemma SilentMoves(s: DState, newStep: int)
    ensures Make(s, TickTo(newStep)) == s.(now := newStep) && Make(s, Halt) == s.(stop := true)
    ensures s.calls != [] ==>
              Make(s, PopQueued) == s.(calls := s.calls[1..], served := s.served + [s.calls[0]])
    ensures s.calls == [] ==> Make(s, PopQueued) == s
    ensures s.pending == [] && s.onEmpty.Set? ==> Make(s, TakeEmpty) == s.(emptied := s.emptied + [s.onEmpty.handler])
    ensures s.pending != [] || s.onEmpty.Unset? ==> Make(s, TakeEmpty) == s
    ensures Make(s, DropEmpty) == s.(onEmpty := Unset)
  {
  }

  /** Moves take effect one after the other. */
  lemma PlayAppend(s: DState, moves: seq<Move>, m: Move)
    ensures Play(s, []) == s && Play(s, moves + [m]) == Make(Play(s, moves), m)
  {
    hide Make;
    PlayConcat(s, moves, [m], NotPast);
    PlayOne(Play(s, moves), m, NotPast);
  }

  /** A run goes on from where it is. */
  lemma {:induction false} RunAppend(s: DState, actions: seq<Action>, a: Action)
    ensures Run(s, []) == s && Run(s, actions + [a]) == Act(Run(s, actions), a)
    decreases |actions|
  {
    hide Act;
    if actions == [] {
      assert [] + [a] == [a] && [a][1..] == [];
    } else {
      assert (actions + [a])[1..] == actions[1..] + [a];
      RunAppend(Act(s, actions[0]), actions[1..], a);
    }
  }

  // ---------- the call queue over whole runs ----------

  /** The handlers of the granted enqueue calls, in order. */
  function Queued(cmds: seq<Cmd>): seq<EventHandle>
  {
    if cmds == [] then []
    else (if cmds[0].Enqueue? && cmds[0].memoryOk then [cmds[0].handler] else []) + Queued(cmds[1..])
  }

  lemma MakeAccepts(s: DState, m: Move)
    ensures Make(s, m).accepted == s.accepted + if m.Calls? then Queued([m.cmd]) else []
  {
    hide Insert, Retimed, RemoveAt, IndexOf;
  }

  lemma QueuedFirst(cmds: seq<Cmd>)
    requires cmds != []
    ensures Queued(cmds) == Queued([cmds[0]]) + Queued(cmds[1..])
  {
  }

  lemma {:induction false} PlayAccepts(s: DState, moves: seq<Move>)
    ensures Play(s, moves).accepted == s.accepted + Queued(CallsIn(moves))
    decreases |moves|
  {
    hide Make, Queued;
    if moves == [] {
      assert Queued(CallsIn(moves)) == [] by { NothingQueued(); }
    } else {
      PlayAccepts(Make(s, moves[0]), moves[1..]);
      MakeAccepts(s, moves[0]);
      CallsInFirst(moves);
      if moves[0].Calls? {
        QueuedFirst(CallsIn(moves));
        assert CallsIn(moves)[1..] == CallsIn(moves[1..]);
      }
    }
  }

  lemma NothingQueued()
    ensures Queued([]) == []
  {
  }

  /** In every run the calls accepted into the queue are exactly those that granted enqueue calls of executed
      handlers and clients put there, in order; the queue holds those not yet served. */
  lemma RunAccepts(actions: seq<Action>)
    ensures var s := Run(Initial(), actions);
            s.accepted == Queued(RunCalls(Initial(), actions)) && s.accepted == s.served + s.calls
  {
    hide Run, RunMoves, RunCalls, Play, PlayWhere, RunWhere, Sound;
    RunPlays(Initial(), actions, NotPast);
    RunMakesCalls(Initial(), actions);
    PlayAccepts(Initial(), RunMoves(Initial(), actions));
    Conservation(actions);
  }

  /** A call phase given more reactions than it executes has served every accepted call, once and in order. */
  lemma CallPhaseServesAll(s: DState, rs: seq<Reaction>)
    requires Sound(s) && |CallPhase(s, rs).served| - |s.served| < |rs|
    ensures var t := CallPhase(s, rs); t.calls == [] && t.served == t.accepted && s.served + s.calls <= t.served
  {
    hide Sound, CallPhase, Play, PlayWhere, ServesMoves, ReactionsWhere;
    CallPhasePlays(s, rs, NotPast);
    var t := CallPhase(s, rs);
    var moves := ServesMoves(rs[..|t.served| - |s.served|]);
    PlaySound(s, moves);
    PlayAccepts(s, moves);
    SoundCalls(s);
    SoundCalls(t);
  }

  lemma SoundCalls(s: DState)
    requires Sound(s)
    ensures s.accepted == s.served + s.calls
  {
  }

  /** If the handlers enqueue nothing, as many reactions as calls are queued are enough. */
  lemma {:induction false} CallPhaseEnds(s: DState, rs: seq<Reaction>)
    requires |s.calls| <= |rs| && forall i :: 0 <= i < |rs| ==> Queued(rs[i].cmds) == []
    ensures var t := CallPhase(s, rs); t.calls == [] && t.served == s.served + s.calls
    decreases |rs|
  {
    hide ApplyAll, Queued;
    if rs != [] && s.calls != [] {
      QuietCalls(PopCall(s), rs[0].cmds);
      CallsPlay(PopCall(s), rs[0].cmds, NotPast);
      CallPhaseEnds(ServeOne(s, rs[0]), rs[1..]);
    }
  }

  lemma {:induction false} QuietCalls(s: DState, cmds: seq<Cmd>)
    requires Queued(cmds) == []
    ensures ApplyAll(s, cmds).calls == s.calls
    decreases |cmds|
  {
    hide Insert, Retimed, RemoveAt, IndexOf;
    if cmds != [] {
      assert Queued(cmds[1..]) == [];
      QuietCalls(Apply(s, cmds[0]), cmds[1..]);
    }
  }

  // ---------- the on-empty handler and stopping ----------

  /** Over a step: once timed events and queued calls are dealt with, the on-empty handler runs exactly if it is
      set and no timed event is pending; it is unset afterwards, even if it set itself again. */
  lemma StepEmpties(s: DState, newStep: int, timed: seq<Reaction>, calls: seq<Reaction>, empty: Reaction)
    ensures var u := CallPhase(TimedPhase(s.(now := newStep), timed), calls);
            var t := Step(s, newStep, timed, calls, empty);
            && u.emptied == s.emptied
            && (if u.pending == [] && u.onEmpty.Set? then
                  t.emptied == s.emptied + [u.onEmpty.handler] && t.onEmpty == Unset
                else t == u)
  {
    hide TimedPhase, CallPhase, EmptyPhase, FiresMoves, ServesMoves, Play, PlayWhere, ReactionsWhere, CmdsWhere;
    var s0 := s.(now := newStep);
    TimedPhasePlays(s0, timed, NotPast);
    CallPhasePlays(TimedPhase(s0, timed), calls, NotPast);
    EmptyPhasePlays(CallPhase(TimedPhase(s0, timed), calls), empty, NotPast);
  }

  /** The handler last set, if any was. */
  function LastSet(cmds: seq<Cmd>, before: OnEmpty): OnEmpty
  {
    if cmds == [] then before
    else LastSet(cmds[1..], if cmds[0].WhenEmpty? then OnEmpty.Set(cmds[0].handler) else before)
  }

  /** Until it is disposed of, the on-empty handler is the one last set. */
  lemma {:induction false} PlayOnEmpty(s: DState, moves: seq<Move>)
    requires DropEmpty !in moves
    ensures Play(s, moves).onEmpty == LastSet(CallsIn(moves), s.onEmpty)
    decreases |moves|
  {
    hide Insert, Retimed, RemoveAt, IndexOf;
    if moves != [] {
      PlayOnEmpty(Make(s, moves[0]), moves[1..]);
      CallsInFirst(moves);
      if moves[0].Calls? {
        var cmds := CallsIn(moves);
        assert cmds[0] == moves[0].cmd && cmds[1..] == CallsIn(moves[1..]);
      }
    }
  }

  lemma {:induction false} PlayStops(s: DState, moves: seq<Move>)
    ensures Play(s, moves).stop <==> s.stop || Halt in moves
    decreases |moves|
  {
    hide Insert, Retimed, RemoveAt, IndexOf;
    if moves != [] {
      PlayStops(Make(s, moves[0]), moves[1..]);
      assert Halt in moves <==> moves[0] == Halt || Halt in moves[1..];
    }
  }

  lemma HaltInReaction(r: Reaction)
    ensures Halt in FireMoves(r) <==> r.fatal
    ensures Halt !in ServeMoves(r) && Halt !in EmptyMoves(r)
  {
  }

  lemma {:induction false} HaltInFires(rs: seq<Reaction>)
    ensures Halt in FiresMoves(rs) <==> exists i :: 0 <= i < |rs| && rs[i].fatal
    decreases |rs|
  {
    hide FireMoves;
    if rs != [] {
      HaltInReaction(rs[0]);
      HaltInFires(rs[1..]);
      assert forall i :: 1 <= i < |rs| ==> rs[i] == rs[1..][i - 1];
    }
  }

  lemma {:induction false} HaltInServes(rs: seq<Reaction>)
    ensures Halt !in ServesMoves(rs)
    decreases |rs|
  {
    hide ServeMoves;
    if rs != [] {
      HaltInReaction(rs[0]);
      HaltInServes(rs[1..]);
    }
  }

  /** A step stops the dispatcher exactly if the handler of some timed event it fired returned a fatal state;
      fatal results of other handlers are ignored. */
  lemma StepStops(s: DState, newStep: int, timed: seq<Reaction>, calls: seq<Reaction>, empty: Reaction)
    ensures var t := Step(s, newStep, timed, calls, empty);
            t.stop <==> s.stop || exists i :: 0 <= i < |t.fired| - |s.fired| && i < |timed| && timed[i].fatal
  {
    hide Step, Play, PlayWhere, ReactionsWhere, CmdsWhere, FiresMoves, ServesMoves, EmptyMoves;
    var a := StepTo(newStep, timed, calls, empty);
    var t := Step(s, newStep, timed, calls, empty);
    StepPlays(s, newStep, timed, calls, empty, NotPast);
    StepFires(s, newStep, timed, calls, empty);
    PlayStops(s, ActMoves(s, t, a));
    HaltInFires(First(timed, |t.fired| - |s.fired|));
    HaltInServes(First(calls, |t.served| - |s.served|));
    HaltInReaction(empty);
  }

  lemma StepFires(s: DState, newStep: int, timed: seq<Reaction>, calls: seq<Reaction>, empty: Reaction)
    ensures 0 <= |Step(s, newStep, timed, calls, empty).fired| - |s.fired| <= |timed|
  {
    hide TimedPhase, CallPhase, EmptyPhase, FiresMoves, ServesMoves, Play, PlayWhere, ReactionsWhere, CmdsWhere;
    var s0 := s.(now := newStep);
    TimedPhasePlays(s0, timed, NotPast);
    CallPhasePlays(TimedPhase(s0, timed), calls, NotPast);
    EmptyPhasePlays(CallPhase(TimedPhase(s0, timed), calls), empty, NotPast);
  }
}

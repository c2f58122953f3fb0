/** What holds over every run of the dispatcher: order of firing, conservation of events and calls,
    distinct handles, termination of the timed loop. */
module DispatcherRuns {
  import opened Sequences
  import opened TimerSpec
  import opened DispatcherSpec

  // ---------- order ----------

  ghost predicate NotBefore(v: seq<Entry>, t: int)
  {
    forall i :: 0 <= i < |v| ==> t <= v[i].time
  }

  /** Fired times ascend, nothing fired early, and nothing pending precedes what has fired. */
  ghost predicate Ordered(s: DState)
  {
    && Sorted(s.pending) && InOrder(s.fired)
    && (forall i :: 0 <= i < |s.fired| ==> s.fired[i].at <= s.now)
    && (forall i :: 0 <= i < |s.fired| ==> NotBefore(s.pending, s.fired[i].entry.time))
  }

  /** Ascending order of their times, and never before their time. */
  ghost predicate InOrder(fired: seq<Firing>)
  {
    && (forall i, j :: 0 <= i < j < |fired| ==>
          fired[i].entry.time <= fired[j].entry.time && fired[i].at <= fired[j].at)
    && (forall i :: 0 <= i < |fired| ==> fired[i].entry.time <= fired[i].at)
  }

  lemma PutNotBefore(v: seq<Entry>, k: nat, x: Entry, t: int)
    requires k <= |v| && NotBefore(v, t) && t <= x.time
    ensures NotBefore(InsertAt(v, k, x), t)
  {
  }

  lemma RemoveNotBefore(v: seq<Entry>, i: nat, t: int)
    requires i < |v| && NotBefore(v, t)
    ensures NotBefore(RemoveAt(v, i), t) && |RemoveAt(v, i)| == |v| - 1
  {
  }

  lemma InsertNotBefore(v: seq<Entry>, x: Entry, t: int)
    requires NotBefore(v, t) && t <= x.time
    ensures NotBefore(Insert(v, x), t)
  {
    PutNotBefore(v, Upper(v, x.time), x, t);
  }

  lemma RetimedNotBefore(v: seq<Entry>, i: nat, time: int, t: int)
    requires i < |v| && NotBefore(v, t) && t <= time
    ensures NotBefore(Retimed(v, i, time), t)
  {
    hide NotBefore, InsertAt, RemoveAt, Upper, Lower;
    var rest, x := RemoveAt(v, i), v[i].(time := time);
    RemoveNotBefore(v, i, t);
    if time < v[i].time {
      PutNotBefore(rest, Upper(rest, time), x, t);
    } else if time > v[i].time {
      PutNotBefore(rest, Lower(rest, time), x, t);
    }
  }

  lemma ApplySorted(s: DState, c: Cmd)
    requires Sorted(s.pending)
    ensures Sorted(Apply(s, c).pending)
  {
    match c
    case Schedule(handler, delay, h, _, _) =>
      InsertSorted(s.pending, Entry(s.nextId, AddTime(s.now, delay), handler, h));
    case Restart(h, delay) =>
      if Armed(s.pending, h) {
        RetimedSorted(s.pending, IndexOf(s.pending, h), AddTime(s.now, delay));
      }
    case _ =>
  }

  lemma ApplyNotBefore(s: DState, c: Cmd, t: int)
    requires NotBefore(s.pending, t) && NotPast(s.now, c) && t <= s.now
    ensures NotBefore(Apply(s, c).pending, t)
  {
    hide AddTime;
    match c
    case Schedule(handler, delay, h, _, _) =>
      InsertNotBefore(s.pending, Entry(s.nextId, AddTime(s.now, delay), handler, h), t);
    case Restart(h, delay) =>
      if Armed(s.pending, h) {
        RetimedNotBefore(s.pending, IndexOf(s.pending, h), AddTime(s.now, delay), t);
      }
    case _ =>
  }

  lemma ApplyOrdered(s: DState, c: Cmd)
    requires Ordered(s) && NotPast(s.now, c)
    ensures Ordered(Apply(s, c))
  {
    hide NotBefore, Insert, Retimed, IndexOf;
    ApplySorted(s, c);
    forall i | 0 <= i < |s.fired|
      ensures NotBefore(Apply(s, c).pending, s.fired[i].entry.time)
    {
      ApplyNotBefore(s, c, s.fired[i].entry.time);
    }
  }

  lemma PopOrdered(s: DState)
    requires Ordered(s) && Due(s)
    ensures Ordered(Pop(s))
  {
    var t := Pop(s);
    forall i | 0 <= i < |t.fired|
      ensures NotBefore(t.pending, t.fired[i].entry.time)
    {
      if i == |s.fired| {
        assert forall j :: 0 <= j < |t.pending| ==> t.pending[j] == s.pending[j + 1];
      } else {
        assert NotBefore(s.pending, s.fired[i].entry.time);
      }
    }
    assert forall i :: 0 <= i < |s.fired| ==> s.fired[i].entry.time <= s.pending[0].time by {
      assert forall i :: 0 <= i < |s.fired| ==> NotBefore(s.pending, s.fired[i].entry.time);
    }
  }

  lemma MakeOrdered(s: DState, m: Move)
    requires Ordered(s) && MoveWhere(s.now, m, NotPast)
    ensures Ordered(Make(s, m))
  {
    match m
    case PopTimed =>
      if Due(s) {
        PopOrdered(s);
      }
    case Calls(cmd) => ApplyOrdered(s, cmd);
    case _ =>
  }

  /** Whatever moves are made in whatever order, with no step back and nothing scheduled into the past:
      what has fired has fired in order. */
  lemma {:induction false} PlayOrdered(s: DState, moves: seq<Move>)
    requires Ordered(s) && PlayWhere(s, moves, NotPast)
    ensures Ordered(Play(s, moves))
    decreases |moves|
  {
    hide Ordered, Make;
    if moves != [] {
      MakeOrdered(s, moves[0]);
      PlayOrdered(Make(s, moves[0]), moves[1..]);
    }
  }

  // ---------- steps are made of moves ----------

  lemma {:induction false} PlayConcat(s: DState, a: seq<Move>, b: seq<Move>, ok: (int, Cmd) -> bool)
    ensures Play(s, a + b) == Play(Play(s, a), b)
    ensures PlayWhere(s, a + b, ok) <==> PlayWhere(s, a, ok) && PlayWhere(Play(s, a), b, ok)
    decreases |a|
  {
    hide Make;
    if a == [] {
      assert [] + b == b;
    } else {
      assert (a + b)[1..] == a[1..] + b;
      PlayConcat(Make(s, a[0]), a[1..], b, ok);
    }
  }

  lemma PlayOne(s: DState, m: Move, ok: (int, Cmd) -> bool)
    ensures Play(s, [m]) == Make(s, m) && (PlayWhere(s, [m], ok) <==> MoveWhere(s.now, m, ok))
  {
    assert [m][1..] == [];
  }

  /** A move, and then more. */
  lemma PlayFirst(s: DState, m: Move, b: seq<Move>, ok: (int, Cmd) -> bool)
    ensures Play(s, [m] + b) == Play(Make(s, m), b)
    ensures PlayWhere(s, [m] + b, ok) <==> MoveWhere(s.now, m, ok) && PlayWhere(Make(s, m), b, ok)
  {
    hide Make;
    PlayOne(s, m, ok);
    PlayConcat(s, [m], b, ok);
  }

  function CallMoves(cmds: seq<Cmd>): (moves: seq<Move>)
    ensures |moves| == |cmds| && forall i :: 0 <= i < |cmds| ==> moves[i] == Calls(cmds[i])
  {
    seq(|cmds|, i requires 0 <= i < |cmds| => Calls(cmds[i]))
  }

  /** A handler's calls, one by one; they leave time and history of firings and servings alone. */
  lemma {:induction false} CallsPlay(s: DState, cmds: seq<Cmd>, ok: (int, Cmd) -> bool)
    ensures Play(s, CallMoves(cmds)) == ApplyAll(s, cmds) && SameHistory(s, ApplyAll(s, cmds))
    ensures CmdsWhere(s.now, cmds, ok) ==> PlayWhere(s, CallMoves(cmds), ok)
    decreases |cmds|
  {
    hide Insert, Retimed, RemoveAt, IndexOf;
    if cmds != [] {
      assert CallMoves(cmds)[1..] == CallMoves(cmds[1..]);
      CallsPlay(Apply(s, cmds[0]), cmds[1..], ok);
    }
  }

  predicate SameHistory(s: DState, t: DState)
  {
    t.now == s.now && t.fired == s.fired && t.served == s.served && t.emptied == s.emptied
  }

  /** What firing one timed event comes to. */
  function FireMoves(r: Reaction): seq<Move>
  {
    [PopTimed] + CallMoves(r.cmds) + if r.fatal then [Halt] else []
  }

  /** What serving one queued call comes to. */
  function ServeMoves(r: Reaction): seq<Move>
  {
    [PopQueued] + CallMoves(r.cmds)
  }

  /** What running the on-empty handler comes to. */
  function EmptyMoves(r: Reaction): seq<Move>
  {
    [TakeEmpty] + CallMoves(r.cmds) + [DropEmpty]
  }

  function FiresMoves(rs: seq<Reaction>): seq<Move>
  {
    if rs == [] then [] else FireMoves(rs[0]) + FiresMoves(rs[1..])
  }

  function ServesMoves(rs: seq<Reaction>): seq<Move>
  {
    if rs == [] then [] else ServeMoves(rs[0]) + ServesMoves(rs[1..])
  }

  function First(rs: seq<Reaction>, n: int): seq<Reaction>
  {
    if 0 <= n <= |rs| then rs[..n] else rs
  }

  /** The moves of an action that led from s to t: as many reactions as the history shows handlers to have been
      executed, in order, timed ones first, then queued ones, then the one for an empty queue. */
  function ActMoves(s: DState, t: DState, a: Action): seq<Move>
  {
    match a
    case StepTo(newStep, timed, calls, empty) =>
      [TickTo(newStep)]
      + (FiresMoves(First(timed, |t.fired| - |s.fired|))
         + (ServesMoves(First(calls, |t.served| - |s.served|))
            + if |t.emptied| > |s.emptied| then EmptyMoves(empty) else []))
    case Client(cmd) => [Calls(cmd)]
  }

  function RunMoves(s: DState, actions: seq<Action>): seq<Move>
    decreases |actions|
  {
    if actions == [] then []
    else ActMoves(s, Act(s, actions[0]), actions[0]) + RunMoves(Act(s, actions[0]), actions[1..])
  }

  lemma FirePlays(s: DState, r: Reaction, ok: (int, Cmd) -> bool)
    requires Due(s)
    ensures var t := FireOne(s, r);
            Play(s, FireMoves(r)) == t && t.now == s.now && t.served == s.served && t.emptied == s.emptied
            && |t.fired| == |s.fired| + 1
    ensures CmdsWhere(s.now, r.cmds, ok) ==> PlayWhere(s, FireMoves(r), ok)
  {
    hide ApplyAll, Play, PlayWhere, CmdsWhere;
    CallsPlay(Pop(s), r.cmds, ok);
    PlayFirst(s, PopTimed, CallMoves(r.cmds), ok);
    var moves := [PopTimed] + CallMoves(r.cmds);
    if r.fatal {
      PlayConcat(s, moves, [Halt], ok);
      PlayOne(ApplyAll(Pop(s), r.cmds), Halt, ok);
    } else {
      assert moves + [] == moves;
    }
  }

  lemma ServePlays(s: DState, r: Reaction, ok: (int, Cmd) -> bool)
    requires s.calls != []
    ensures var t := ServeOne(s, r);
            Play(s, ServeMoves(r)) == t && t.now == s.now && t.fired == s.fired && t.emptied == s.emptied
            && |t.served| == |s.served| + 1
    ensures CmdsWhere(s.now, r.cmds, ok) ==> PlayWhere(s, ServeMoves(r), ok)
  {
    hide ApplyAll, Play, PlayWhere, CmdsWhere;
    CallsPlay(PopCall(s), r.cmds, ok);
    PlayFirst(s, PopQueued, CallMoves(r.cmds), ok);
  }

  /** The timed phase executes reactions in order, until nothing is due or none is left. */
  lemma {:induction false} TimedPhasePlays(s: DState, rs: seq<Reaction>, ok: (int, Cmd) -> bool)
    ensures var t := TimedPhase(s, rs);
            var n := |t.fired| - |s.fired|;
            && 0 <= n <= |rs| && Play(s, FiresMoves(rs[..n])) == t && (n == |rs| || !Due(t))
            && t.now == s.now && t.served == s.served && t.emptied == s.emptied
            && (ReactionsWhere(s.now, rs, ok) ==> PlayWhere(s, FiresMoves(rs[..n]), ok))
    decreases |rs|
  {
    hide FireOne, CmdsWhere, FireMoves;
    if rs == [] || !Due(s) {
      assert rs[..0] == [];
      NoMoves(s, ok);
    } else {
      var t := TimedPhase(s, rs);
      FirePlays(s, rs[0], ok);
      TimedPhasePlays(FireOne(s, rs[0]), rs[1..], ok);
      var n := |t.fired| - |s.fired|;
      assert rs[..n][0] == rs[0] && rs[..n][1..] == rs[1..][..n - 1];
      PlayConcat(s, FireMoves(rs[0]), FiresMoves(rs[1..][..n - 1]), ok);
    }
  }

  /** The call phase executes reactions in order, until no call is queued or none is left. */
  lemma {:induction false} CallPhasePlays(s: DState, rs: seq<Reaction>, ok: (int, Cmd) -> bool)
    ensures var t := CallPhase(s, rs);
            var n := |t.served| - |s.served|;
            && 0 <= n <= |rs| && Play(s, ServesMoves(rs[..n])) == t && (n == |rs| || t.calls == [])
            && t.now == s.now && t.fired == s.fired && t.emptied == s.emptied
            && (ReactionsWhere(s.now, rs, ok) ==> PlayWhere(s, ServesMoves(rs[..n]), ok))
    decreases |rs|
  {
    hide ServeOne, CmdsWhere, ServeMoves;
    if rs == [] || s.calls == [] {
      assert rs[..0] == [];
      NoMoves(s, ok);
    } else {
      var t := CallPhase(s, rs);
      ServePlays(s, rs[0], ok);
      CallPhasePlays(ServeOne(s, rs[0]), rs[1..], ok);
      var n := |t.served| - |s.served|;
      assert rs[..n][0] == rs[0] && rs[..n][1..] == rs[1..][..n - 1];
      PlayConcat(s, ServeMoves(rs[0]), ServesMoves(rs[1..][..n - 1]), ok);
    }
  }

  /** The on-empty handler runs exactly if no timed event is pending and it is set, and then it is disposed of. */
  lemma EmptyPhasePlays(s: DState, r: Reaction, ok: (int, Cmd) -> bool)
    ensures var t := EmptyPhase(s, r);
            var runs := s.pending == [] && s.onEmpty.Set?;
            && Play(s, if runs then EmptyMoves(r) else []) == t
            && t.emptied == s.emptied + (if runs then [s.onEmpty.handler] else [])
            && (if runs then t.onEmpty == Unset else t == s)
            && t.now == s.now && t.fired == s.fired && t.served == s.served
            && (CmdsWhere(s.now, r.cmds, ok) ==> PlayWhere(s, if runs then EmptyMoves(r) else [], ok))
  {
    hide CmdsWhere, ApplyAll, Play, PlayWhere;
    NoMoves(s, ok);
    if s.pending == [] && s.onEmpty.Set? {
      var t := Make(s, TakeEmpty);
      CallsPlay(t, r.cmds, ok);
      PlayFirst(s, TakeEmpty, CallMoves(r.cmds), ok);
      PlayConcat(s, [TakeEmpty] + CallMoves(r.cmds), [DropEmpty], ok);
      PlayOne(ApplyAll(t, r.cmds), DropEmpty, ok);
    }
  }

  lemma NoMoves(s: DState, ok: (int, Cmd) -> bool)
    ensures Play(s, []) == s && PlayWhere(s, [], ok)
  {
  }

  lemma StepPlays(s: DState, newStep: int, timed: seq<Reaction>, calls: seq<Reaction>, empty: Reaction,
                  ok: (int, Cmd) -> bool)
    ensures var t, moves := Step(s, newStep, timed, calls, empty),
                            ActMoves(s, Step(s, newStep, timed, calls, empty), StepTo(newStep, timed, calls, empty));
            && Play(s, moves) == t && t.now == newStep
            && ((s.now <= newStep && ReactionsWhere(newStep, timed, ok) && ReactionsWhere(newStep, calls, ok)
                 && CmdsWhere(newStep, empty.cmds, ok)) ==> PlayWhere(s, moves, ok))
  {
    hide Play, PlayWhere, TimedPhase, CallPhase, EmptyPhase, ReactionsWhere, CmdsWhere;
    hide FiresMoves, ServesMoves, EmptyMoves;
    var s0 := s.(now := newStep);
    TimedPhasePlays(s0, timed, ok);
    var s1 := TimedPhase(s0, timed);
    CallPhasePlays(s1, calls, ok);
    var s2 := CallPhase(s1, calls);
    EmptyPhasePlays(s2, empty, ok);
    var t := EmptyPhase(s2, empty);
    var a := FiresMoves(First(timed, |t.fired| - |s.fired|));
    var b := ServesMoves(First(calls, |t.served| - |s.served|));
    var c := if |t.emptied| > |s.emptied| then EmptyMoves(empty) else [];
    PlayConcat(s1, b, c, ok);
    PlayConcat(s0, a, b + c, ok);
    PlayFirst(s, TickTo(newStep), a + (b + c), ok);
  }

  /** Every run of steps and clients' calls is exactly this run of moves, and keeps the same timing. */
  lemma {:induction false} RunPlays(s: DState, actions: seq<Action>, ok: (int, Cmd) -> bool)
    ensures Play(s, RunMoves(s, actions)) == Run(s, actions)
    ensures RunWhere(s.now, actions, ok) ==> PlayWhere(s, RunMoves(s, actions), ok)
    decreases |actions|
  {
    hide Step, Apply, ReactionsWhere, CmdsWhere, ActMoves;
    if actions != [] {
      var t := Act(s, actions[0]);
      var first := ActMoves(s, t, actions[0]);
      match actions[0] {
        case StepTo(newStep, timed, calls, empty) =>
          StepPlays(s, newStep, timed, calls, empty, ok);
        case Client(cmd) =>
          ClientPlays(s, cmd, ok);
      }
      RunPlays(t, actions[1..], ok);
      PlayConcat(s, first, RunMoves(t, actions[1..]), ok);
    }
  }

  lemma ClientPlays(s: DState, cmd: Cmd, ok: (int, Cmd) -> bool)
    ensures var moves := ActMoves(s, Act(s, Client(cmd)), Client(cmd));
            && Play(s, moves) == Apply(s, cmd) && Apply(s, cmd).now == s.now
            && (ok(s.now, cmd) ==> PlayWhere(s, moves, ok))
  {
    hide Apply;
    PlayOne(s, Calls(cmd), ok);
    CallKeepsNow(s, cmd);
  }

  lemma CallKeepsNow(s: DState, c: Cmd)
    ensures Apply(s, c).now == s.now && Apply(s, c).fired == s.fired
  {
  }

  lemma RunOrdered(s: DState, actions: seq<Action>)
    requires Ordered(s) && RunWhere(s.now, actions, NotPast)
    ensures Ordered(Run(s, actions))
  {
    hide Ordered, Run, RunWhere, Play, PlayWhere;
    RunPlays(s, actions, NotPast);
    PlayOrdered(s, RunMoves(s, actions));
  }

  /** Over every run with steps that do not go back and nothing scheduled or restarted into the past, timed
      handlers fire in order, across all steps. */
  lemma FiresInOrder(actions: seq<Action>)
    requires RunWhere(0, actions, NotPast)
    ensures InOrder(Run(Initial(), actions).fired)
  {
    hide Run, RunWhere;
    RunOrdered(Initial(), actions);
  }

  // ---------- conservation ----------

  function Ids(v: seq<Entry>): (r: seq<nat>)
    ensures |r| == |v| && forall i :: 0 <= i < |v| ==> r[i] == v[i].id
  {
    seq(|v|, i requires 0 <= i < |v| => v[i].id)
  }

  function FiredIds(f: seq<Firing>): (r: seq<nat>)
    ensures |r| == |f| && forall i :: 0 <= i < |f| ==> r[i] == f[i].entry.id
  {
    seq(|f|, i requires 0 <= i < |f| => f[i].entry.id)
  }

  /** Every event the dispatcher can account for, as often as it accounts for it. */
  function Inventory(s: DState): multiset<nat>
  {
    multiset(Ids(s.pending)) + multiset(FiredIds(s.fired)) + multiset(s.cancelled)
  }

  /** Each of the n events scheduled so far, once. */
  function Issued(n: nat): (m: multiset<nat>)
    ensures forall id: nat :: m[id] == if id < n then 1 else 0
  {
    if n == 0 then multiset{} else Issued(n - 1) + multiset{n - 1}
  }

  /** What holds of the dispatcher whatever the handlers do. */
  ghost predicate Sound(s: DState)
  {
    && Sorted(s.pending) && DistinctHandles(s.pending)
    && Inventory(s) == Issued(s.nextId)
    && s.accepted == s.served + s.calls
    && |s.pending| <= s.capacity && s.capacity in {2, 4, 8, 16, 32, 64}
  }

  lemma InsertedIds(v: seq<Entry>, k: nat, x: Entry)
    requires k <= |v|
    ensures multiset(Ids(InsertAt(v, k, x))) == multiset(Ids(v)) + multiset{x.id}
  {
    IdsConcat(v[..k], v[k..]);
    IdsConcat(v[..k] + [x], v[k..]);
    IdsConcat(v[..k], [x]);
    assert v == v[..k] + v[k..] && Ids([x]) == [x.id];
  }

  lemma IdsConcat(a: seq<Entry>, b: seq<Entry>)
    ensures Ids(a + b) == Ids(a) + Ids(b)
  {
  }

  lemma InsertIds(v: seq<Entry>, x: Entry)
    ensures multiset(Ids(Insert(v, x))) == multiset(Ids(v)) + multiset{x.id}
  {
    InsertedIds(v, Upper(v, x.time), x);
  }

  lemma RemovedIds(v: seq<Entry>, i: nat)
    requires i < |v|
    ensures multiset(Ids(v)) == multiset(Ids(RemoveAt(v, i))) + multiset{v[i].id}
  {
    assert Ids(v) == Ids(v)[..i] + [v[i].id] + Ids(v)[i + 1..];
    assert Ids(RemoveAt(v, i)) == Ids(v)[..i] + Ids(v)[i + 1..];
  }

  lemma RetimedIds(v: seq<Entry>, i: nat, t: int)
    requires i < |v|
    ensures multiset(Ids(Retimed(v, i, t))) == multiset(Ids(v))
  {
    var rest, x := RemoveAt(v, i), v[i].(time := t);
    RemovedIds(v, i);
    InsertedIds(rest, Upper(rest, t), x);
    InsertedIds(rest, Lower(rest, t), x);
  }

  lemma InsertedHandles(v: seq<Entry>, k: nat, x: Entry)
    requires k <= |v| && DistinctHandles(v)
    requires x.handle != null ==> forall j :: 0 <= j < |v| ==> v[j].handle != x.handle
    ensures DistinctHandles(InsertAt(v, k, x))
  {
  }

  lemma RemovedHandles(v: seq<Entry>, i: nat)
    requires i < |v| && DistinctHandles(v)
    ensures DistinctHandles(RemoveAt(v, i))
    ensures v[i].handle != null ==> forall j :: 0 <= j < |v| - 1 ==> RemoveAt(v, i)[j].handle != v[i].handle
  {
  }

  lemma RetimedHandles(v: seq<Entry>, i: nat, t: int)
    requires i < |v| && DistinctHandles(v)
    ensures DistinctHandles(Retimed(v, i, t))
  {
    var rest, x := RemoveAt(v, i), v[i].(time := t);
    RemovedHandles(v, i);
    InsertedHandles(rest, Upper(rest, t), x);
    InsertedHandles(rest, Lower(rest, t), x);
  }

  lemma ScheduledInventory(s: DState, x: Entry)
    requires Inventory(s) == Issued(s.nextId) && x.id == s.nextId
    ensures Inventory(s.(pending := Insert(s.pending, x))) == Issued(s.nextId + 1)
  {
    hide Insert, Ids, FiredIds;
    InsertIds(s.pending, x);
  }

  lemma CancelledInventory(s: DState, i: nat)
    requires i < |s.pending|
    ensures Inventory(s.(pending := RemoveAt(s.pending, i), cancelled := s.cancelled + [s.pending[i].id]))
            == Inventory(s)
  {
    hide RemoveAt, Ids, FiredIds;
    RemovedIds(s.pending, i);
  }

  lemma ApplyInventory(s: DState, c: Cmd)
    requires Inventory(s) == Issued(s.nextId)
    ensures Inventory(Apply(s, c)) == Issued(Apply(s, c).nextId)
  {
    hide Insert, Retimed, RemoveAt, IndexOf, Issued, Ids, FiredIds;
    match c
    case Schedule(handler, delay, h, _, _) =>
      ScheduledInventory(s, Entry(s.nextId, AddTime(s.now, delay), handler, h));
    case Cancel(h) =>
      if Armed(s.pending, h) {
        CancelledInventory(s, IndexOf(s.pending, h));
      }
    case Restart(h, delay) =>
      if Armed(s.pending, h) {
        RetimedIds(s.pending, IndexOf(s.pending, h), AddTime(s.now, delay));
      }
    case _ =>
  }

  lemma ApplyHandles(s: DState, c: Cmd)
    requires DistinctHandles(s.pending)
    ensures DistinctHandles(Apply(s, c).pending)
  {
    match c
    case Schedule(handler, delay, h, _, _) =>
      var x := Entry(s.nextId, AddTime(s.now, delay), handler, h);
      if h == null || !Armed(s.pending, h) {
        InsertedHandles(s.pending, Upper(s.pending, x.time), x);
      }
    case Cancel(h) =>
      if Armed(s.pending, h) {
        RemovedHandles(s.pending, IndexOf(s.pending, h));
      }
    case Restart(h, delay) =>
      if Armed(s.pending, h) {
        RetimedHandles(s.pending, IndexOf(s.pending, h), AddTime(s.now, delay));
      }
    case _ =>
  }

  lemma ApplySound(s: DState, c: Cmd)
    requires Sound(s)
    ensures Sound(Apply(s, c))
  {
    hide Apply, Sorted, DistinctHandles, Inventory, Issued;
    ApplySorted(s, c);
    ApplyInventory(s, c);
    ApplyHandles(s, c);
    ApplyRoom(s, c);
  }

  lemma ApplyRoom(s: DState, c: Cmd)
    requires |s.pending| <= s.capacity && s.capacity in {2, 4, 8, 16, 32, 64} && s.accepted == s.served + s.calls
    ensures var t := Apply(s, c); |t.pending| <= t.capacity && t.capacity in {2, 4, 8, 16, 32, 64}
    ensures var t := Apply(s, c); t.accepted == t.served + t.calls
  {
    hide Insert, Retimed, RemoveAt, IndexOf;
    match c
    case Schedule(handler, delay, h, _, _) =>
      InsertLength(s.pending, Entry(s.nextId, AddTime(s.now, delay), handler, h));
    case Cancel(h) =>
      if Armed(s.pending, h) {
        RemoveLength(s.pending, IndexOf(s.pending, h));
      }
    case Restart(h, delay) =>
      if Armed(s.pending, h) {
        RetimedLength(s.pending, IndexOf(s.pending, h), AddTime(s.now, delay));
      }
    case _ =>
  }

  lemma {:induction false} ApplyAllSound(s: DState, cmds: seq<Cmd>)
    requires Sound(s)
    ensures Sound(ApplyAll(s, cmds))
    decreases |cmds|
  {
    hide Sound, Apply;
    if cmds != [] {
      ApplySound(s, cmds[0]);
      ApplyAllSound(Apply(s, cmds[0]), cmds[1..]);
    }
  }

  lemma PopInventory(s: DState)
    requires s.pending != []
    ensures Inventory(Pop(s)) == Inventory(s)
  {
    assert Ids(s.pending) == [s.pending[0].id] + Ids(s.pending[1..]);
    assert FiredIds(s.fired + [Firing(s.pending[0], s.now)]) == FiredIds(s.fired) + [s.pending[0].id];
  }

  lemma PopSound(s: DState)
    requires Sound(s) && s.pending != []
    ensures Sound(Pop(s))
    ensures s.pending[0].handle != null ==> !Armed(Pop(s).pending, s.pending[0].handle)
  {
    hide Inventory;
    PopInventory(s);
    assert forall j :: 0 <= j < |s.pending| - 1 ==> s.pending[1..][j] == s.pending[j + 1];
  }

  lemma FireOneSound(s: DState, r: Reaction)
    requires Sound(s) && s.pending != []
    ensures Sound(FireOne(s, r))
  {
    PopSound(s);
    ApplyAllSound(Pop(s), r.cmds);
  }

  lemma {:induction false} TimedPhaseSound(s: DState, rs: seq<Reaction>)
    requires Sound(s)
    ensures Sound(TimedPhase(s, rs))
    decreases |rs|
  {
    hide Sound, FireOne;
    if rs != [] && Due(s) {
      FireOneSound(s, rs[0]);
      TimedPhaseSound(FireOne(s, rs[0]), rs[1..]);
    }
  }

  lemma MakeSound(s: DState, m: Move)
    requires Sound(s)
    ensures Sound(Make(s, m))
  {
    hide Inventory;
    match m
    case PopTimed =>
      if Due(s) {
        PopSound(s);
      }
    case PopQueued =>
      if s.calls != [] {
        assert PopCall(s).served + PopCall(s).calls == s.served + s.calls;
        SameInventory(s, PopCall(s));
      }
    case Calls(cmd) => ApplySound(s, cmd);
    case _ => SameInventory(s, Make(s, m));
  }

  lemma SameInventory(s: DState, t: DState)
    requires t.pending == s.pending && t.fired == s.fired && t.cancelled == s.cancelled
    ensures Inventory(t) == Inventory(s)
  {
  }

  lemma {:induction false} PlaySound(s: DState, moves: seq<Move>)
    requires Sound(s)
    ensures Sound(Play(s, moves))
    decreases |moves|
  {
    hide Sound, Make;
    if moves != [] {
      MakeSound(s, moves[0]);
      PlaySound(Make(s, moves[0]), moves[1..]);
    }
  }

  lemma RunSound(s: DState, actions: seq<Action>)
    requires Sound(s)
    ensures Sound(Run(s, actions))
  {
    hide Sound, Run, Play, PlayWhere, RunWhere;
    RunPlays(s, actions, NotPast);
    PlaySound(s, RunMoves(s, actions));
  }

  /** In every run, whatever the handlers do: each event ever scheduled is exactly one of pending, fired
      once, cancelled once; calls are served first in, first out; the queue is sorted; and no two
      pending events answer to one handle; at most 64 events are pending. */
  lemma Conservation(actions: seq<Action>)
    ensures var s := Run(Initial(), actions);
            && (forall id: nat ::
                  multiset(Ids(s.pending))[id] + multiset(FiredIds(s.fired))[id] + multiset(s.cancelled)[id]
                  == if id < s.nextId then 1 else 0)
            && s.accepted == s.served + s.calls
            && Sorted(s.pending) && DistinctHandles(s.pending) && |s.pending| <= 64
  {
    RunSound(Initial(), actions);
    var s := Run(Initial(), actions);
    forall id: nat
      ensures multiset(Ids(s.pending))[id] + multiset(FiredIds(s.fired))[id] + multiset(s.cancelled)[id]
              == if id < s.nextId then 1 else 0
    {
      assert Inventory(s)[id] == Issued(s.nextId)[id];
    }
  }

  /** In every reachable state a handler that fires may re-arm the handle it was scheduled with. */
  lemma MayRearm(actions: seq<Action>, handler: EventHandle, delay: int)
    requires Run(Initial(), actions).pending != [] && Run(Initial(), actions).pending[0].handle != null
    ensures var s := Run(Initial(), actions);
            var h := s.pending[0].handle;
            !Armed(Pop(s).pending, h) && Armed(Apply(Pop(s), Schedule(handler, delay, h, true, true)).pending, h)
  {
    hide Sound, Insert, IndexOf;
    InitialSound();
    var s := Run(Initial(), actions);
    RunSound(Initial(), actions);
    PopSound(s);
    RoomAfterPop(s);
    ScheduleArms(Pop(s), handler, delay, s.pending[0].handle, true, true);
  }

  // ---------- what a transition does to the event of one handle ----------

  /** The call is on the handle h. */
  predicate Uses(c: Cmd, h: Handle)
  {
    match c
    case Schedule(_, _, handle, _, _) => handle == h
    case Cancel(which) => which == h
    case Restart(which, _) => which == h
    case _ => false
  }

  /** Calls on other handles leave the event of h alone. */
  lemma OthersKeep(s: DState, c: Cmd, h: Handle)
    requires !Uses(c, h)
    ensures SameFor(s.pending, Apply(s, c).pending, h)
  {
    hide Insert, Retimed, RemoveAt, IndexOf;
    match c
    case Schedule(handler, delay, handle, eventOk, growOk) =>
      InsertKeepsOther(s.pending, Entry(s.nextId, AddTime(s.now, delay), handler, handle), h);
    case Cancel(which) =>
      if Armed(s.pending, which) {
        RemoveKeepsOther(s.pending, IndexOf(s.pending, which), h);
      }
    case Restart(which, delay) =>
      if Armed(s.pending, which) {
        RetimedKeepsOther(s.pending, IndexOf(s.pending, which), AddTime(s.now, delay), h);
      }
    case _ =>
  }

  /** Popping the earliest event touches no other. */
  lemma PopKeeps(s: DState, h: Handle)
    requires DistinctHandles(s.pending) && s.pending != []
    ensures if s.pending[0].handle == h then !Armed(Pop(s).pending, h) else SameFor(s.pending, Pop(s).pending, h)
  {
    assert RemoveAt(s.pending, 0) == s.pending[1..];
    if s.pending[0].handle == h {
      RemovedOwn(s.pending, 0, h);
    } else {
      RemoveKeepsOther(s.pending, 0, h);
    }
  }

  /** Only scheduling makes the queue longer. */
  lemma ApplyLength(s: DState, c: Cmd)
    ensures |Apply(s, c).pending| <= |s.pending| + (if c.Schedule? then 1 else 0)
    ensures c.Cancel? && Armed(s.pending, c.which) ==> |Apply(s, c).pending| == |s.pending| - 1
    ensures !c.Schedule? ==> Apply(s, c).capacity == s.capacity
  {
    hide Insert, Retimed, RemoveAt, IndexOf;
    match c
    case Schedule(handler, delay, h, _, _) =>
      InsertLength(s.pending, Entry(s.nextId, AddTime(s.now, delay), handler, h));
    case Cancel(h) =>
      if Armed(s.pending, h) {
        RemoveLength(s.pending, IndexOf(s.pending, h));
      }
    case Restart(h, delay) =>
      if Armed(s.pending, h) {
        RetimedLength(s.pending, IndexOf(s.pending, h), AddTime(s.now, delay));
      }
    case _ =>
  }

  /** Below 64 pending events there is room for one more, if memory is granted. */
  lemma RoomBelow64(s: DState)
    requires Sound(s) && |s.pending| < 64
    ensures Accepts(|s.pending|, s.capacity, true)
  {
  }

  lemma CancelEmpties(s: DState, h: Handle)
    requires DistinctHandles(s.pending)
    ensures !Armed(Apply(s, Cancel(h)).pending, h)
  {
    if Armed(s.pending, h) {
      RemovedOwn(s.pending, IndexOf(s.pending, h), h);
    }
  }

  /** A restarted event is still there, at its new time. */
  lemma RestartMoves(s: DState, h: Handle, delay: int)
    requires DistinctHandles(s.pending) && Armed(s.pending, h)
    ensures var v, w := s.pending, Apply(s, Restart(h, delay)).pending;
            Armed(w, h) && w[IndexOf(w, h)] == v[IndexOf(v, h)].(time := AddTime(s.now, delay))
  {
    RetimedKeepsOwn(s.pending, IndexOf(s.pending, h), AddTime(s.now, delay), h);
  }

  /** A scheduled event is there, at its time; a refused one is not, and nothing has changed. */
  lemma ScheduleArms(s: DState, e: EventHandle, delay: int, h: Handle, eventOk: bool, growOk: bool)
    requires !Armed(s.pending, h)
    ensures var t := Apply(s, Schedule(e, delay, h, eventOk, growOk));
            if eventOk && Accepts(|s.pending|, s.capacity, growOk)
            then Armed(t.pending, h) && t.pending[IndexOf(t.pending, h)] == Entry(s.nextId, AddTime(s.now, delay), e, h)
            else t == s
  {
    hide Upper, InsertAt;
    var x := Entry(s.nextId, AddTime(s.now, delay), e, h);
    PutOwn(s.pending, Upper(s.pending, x.time), x, h);
  }

  lemma RoomAfterPop(s: DState)
    requires Sound(s) && s.pending != []
    ensures Accepts(|Pop(s).pending|, s.capacity, true) && Sorted(Pop(s).pending)
  {
    PopSound(s);
  }

  lemma SoundHandles(s: DState)
    requires Sound(s)
    ensures DistinctHandles(s.pending)
  {
  }

  lemma InitialSound()
    ensures Sound(Initial())
  {
    RunSound(Initial(), []);
  }
}

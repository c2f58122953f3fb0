/** When the timed loop ends, and when timed handlers fire in order: for which delays, and for which due times,
    given that additions of 64-bit times wrap around. */
module DispatcherTiming {
  import opened Sequences
  import opened TimerSpec
  import opened DispatcherSpec
  import opened DispatcherRuns

  /** In 64 bits an event is due `slack` (0 or 1) or more after now exactly if its delay is that long and the
      due time is representable, or if the delay is so far negative that the due time wraps around. */
  lemma AheadIff(now: int, c: Cmd, slack: int)
    requires c.Schedule? || c.Restart?
    requires -TIME_MAX - 1 <= now <= TIME_MAX && -TIME_MAX - 1 <= c.delay <= TIME_MAX && 0 <= slack <= 1
    ensures Ahead(now, c, slack) <==>
              (slack <= c.delay && now + c.delay <= TIME_MAX) || now + c.delay < -TIME_MAX - 1
  {
  }

  lemma BoundedAhead(now: int, c: Cmd, slack: int)
    requires -TIME_MAX - 1 <= now && Bounded(now, c, slack, TIME_MAX)
    ensures Ahead(now, c, slack)
  {
  }

  // ---------- the timed loop ends, and what is left then ----------

  /** When the timed loop has ended by itself, nothing due is left. */
  lemma TimedPhaseDrains(s: DState, rs: seq<Reaction>)
    requires Sound(s) && !Due(TimedPhase(s, rs))
    ensures forall i :: 0 <= i < |TimedPhase(s, rs).pending| ==> s.now < TimedPhase(s, rs).pending[i].time
  {
    TimedPhaseSound(s, rs);
    TimedPhasePlays(s, rs, NotPast);
  }

  /** How many pending events are due. */
  function DueCount(s: DState): nat
  {
    Upper(s.pending, s.now)
  }

  lemma InsertLater(v: seq<Entry>, k: nat, x: Entry, t: int)
    requires Sorted(v) && k <= |v| && t < x.time && Sorted(InsertAt(v, k, x))
    ensures Upper(InsertAt(v, k, x), t) == Upper(v, t)
  {
    var w := InsertAt(v, k, x);
    UpperSplits(w, t);
    assert w[k] == x;
    assert forall j :: 0 <= j < k ==> w[j] == v[j];
    assert forall j :: k <= j < |v| ==> w[j + 1] == v[j];
    UpperUnique(v, t, Upper(w, t));
  }

  lemma RemoveDue(v: seq<Entry>, i: nat, t: int)
    requires Sorted(v) && i < |v|
    ensures Upper(RemoveAt(v, i), t) == Upper(v, t) - if v[i].time <= t then 1 else 0
  {
    UpperSplits(v, t);
    var r := RemoveAt(v, i);
    assert forall j :: 0 <= j < |r| ==> r[j] == if j < i then v[j] else v[j + 1];
    UpperUnique(r, t, Upper(v, t) - if v[i].time <= t then 1 else 0);
  }

  lemma RetimeLater(v: seq<Entry>, i: nat, time: int, t: int)
    requires Sorted(v) && i < |v| && t < time
    ensures Upper(Retimed(v, i, time), t) <= Upper(v, t)
  {
    var rest, x := RemoveAt(v, i), v[i].(time := time);
    RetimedSorted(v, i, time);
    RemoveSorted(v, i);
    RemoveDue(v, i, t);
    if time < v[i].time {
      InsertLater(rest, Upper(rest, time), x, t);
    } else if time > v[i].time {
      InsertLater(rest, Lower(rest, time), x, t);
    }
  }

  lemma ApplyLater(s: DState, c: Cmd)
    requires Sorted(s.pending) && Later(s.now, c)
    ensures DueCount(Apply(s, c)) <= DueCount(s)
  {
    hide AddTime, Upper, Sorted;
    match c
    case Schedule(handler, delay, h, _, _) =>
      var x := Entry(s.nextId, AddTime(s.now, delay), handler, h);
      InsertSorted(s.pending, x);
      InsertLater(s.pending, Upper(s.pending, x.time), x, s.now);
    case Cancel(h) =>
      if Armed(s.pending, h) {
        RemoveDue(s.pending, IndexOf(s.pending, h), s.now);
      }
    case Restart(h, delay) =>
      if Armed(s.pending, h) {
        RetimeLater(s.pending, IndexOf(s.pending, h), AddTime(s.now, delay), s.now);
      }
    case _ =>
  }

  lemma {:induction false} ApplyAllLater(s: DState, cmds: seq<Cmd>)
    requires Sorted(s.pending) && CmdsWhere(s.now, cmds, Later)
    ensures DueCount(ApplyAll(s, cmds)) <= DueCount(s) && Sorted(ApplyAll(s, cmds).pending)
    decreases |cmds|
  {
    hide DueCount, Sorted;
    if cmds != [] {
      ApplyLater(s, cmds[0]);
      ApplySorted(s, cmds[0]);
      ApplyAllLater(Apply(s, cmds[0]), cmds[1..]);
    }
  }

  /** One iteration of the timed loop, with a handler that only schedules and restarts into the future,
      leaves strictly fewer due events. */
  lemma FireOneDecreases(s: DState, r: Reaction)
    requires Sorted(s.pending) && Due(s) && CmdsWhere(s.now, r.cmds, Later)
    ensures DueCount(FireOne(s, r)) < DueCount(s) && Sorted(FireOne(s, r).pending) && FireOne(s, r).now == s.now
    ensures |FireOne(s, r).fired| == |s.fired| + 1
  {
    assert RemoveAt(s.pending, 0) == s.pending[1..];
    RemoveDue(s.pending, 0, s.now);
    RemoveSorted(s.pending, 0);
    ApplyAllLater(Pop(s), r.cmds);
    CallsPlay(Pop(s), r.cmds, Later);
  }

  /** So the loop ends: as many iterations as events were due at first are enough, whatever else the handlers do. */
  lemma {:induction false} TimedPhaseTerminates(s: DState, rs: seq<Reaction>)
    requires Sorted(s.pending) && DueCount(s) <= |rs| && ReactionsWhere(s.now, rs, Later)
    ensures !Due(TimedPhase(s, rs))
    ensures |TimedPhase(s, rs).fired| <= |s.fired| + DueCount(s)
    decreases |rs|
  {
    hide CmdsWhere, FireOne;
    if rs != [] && Due(s) {
      FireOneDecreases(s, rs[0]);
      TimedPhaseTerminates(FireOne(s, rs[0]), rs[1..]);
    }
  }

  function Again(handler: EventHandle, delay: int): Reaction
  {
    Reaction([Schedule(handler, delay, null, true, true)], false)
  }

  /** A handler that schedules itself to a time that is due at once. */
  lemma RescheduleNow(s: DState, handler: EventHandle, delay: int)
    requires Sound(s) && Due(s) && AddTime(s.now, delay) <= s.now
    ensures var t := FireOne(s, Again(handler, delay));
            Sound(t) && Due(t) && t.now == s.now && |t.fired| == |s.fired| + 1
  {
    hide Sound, Upper, Accepts, AddTime, InsertAt;
    var r, p := Again(handler, delay), Pop(s);
    FireOneSound(s, r);
    PopSound(s);
    RoomAfterPop(s);
    assert r.cmds[1..] == [];
    assert ApplyAll(p, r.cmds) == ApplyAll(Apply(p, r.cmds[0]), []) == Apply(p, r.cmds[0]);
    HeadAfterInsert(p.pending, Entry(p.nextId, AddTime(p.now, delay), handler, null), s.now);
  }

  /** What is inserted at or before time t leaves the head at or before t. */
  lemma HeadAfterInsert(v: seq<Entry>, x: Entry, t: int)
    requires Sorted(v) && x.time <= t
    ensures Insert(v, x) != [] && Insert(v, x)[0].time <= t
  {
    UpperSplits(v, x.time);
  }

  /** It keeps the loop going, for any number of iterations: with delay 0, with a negative delay, and with a
      delay so long that the due time wraps around. */
  lemma {:induction false} AgainNeverEnds(s: DState, handler: EventHandle, delay: int, rs: seq<Reaction>)
    requires Sound(s) && Due(s) && AddTime(s.now, delay) <= s.now
    requires forall i :: 0 <= i < |rs| ==> rs[i] == Again(handler, delay)
    ensures Due(TimedPhase(s, rs)) && |TimedPhase(s, rs).fired| == |s.fired| + |rs|
    decreases |rs|
  {
    hide Sound, FireOne, AddTime;
    if rs != [] {
      RescheduleNow(s, handler, delay);
      AgainNeverEnds(FireOne(s, rs[0]), handler, delay, rs[1..]);
    }
  }

  /** The first n handlers of an endless sequence of them. */
  function Prefix(handlers: nat -> Reaction, n: nat): (rs: seq<Reaction>)
    ensures |rs| == n && forall i :: 0 <= i < n ==> rs[i] == handlers(i)
  {
    seq(n, i requires 0 <= i => handlers(i))
  }

  /** The timed loop ends if the handlers it runs do what `handlers` says. */
  ghost predicate Ends(s: DState, handlers: nat -> Reaction)
  {
    exists n :: !Due(TimedPhase(s, Prefix(handlers, n)))
  }

  ghost predicate AllWhere(now: int, handlers: nat -> Reaction, ok: (int, Cmd) -> bool)
  {
    forall n: nat :: CmdsWhere(now, handlers(n).cmds, ok)
  }

  lemma LaterEnds(s: DState, handlers: nat -> Reaction)
    requires Sound(s) && AllWhere(s.now, handlers, Later)
    ensures Ends(s, handlers)
  {
    hide CmdsWhere;
    TimedPhaseTerminates(s, Prefix(handlers, DueCount(s)));
  }

  lemma AgainDoesNotEnd(s: DState, handler: EventHandle, delay: int)
    requires Sound(s) && Due(s) && AddTime(s.now, delay) <= s.now
    ensures !Ends(s, n => Again(handler, delay))
  {
    hide Sound, AddTime, TimedPhase;
    var handlers := n => Again(handler, delay);
    forall n: nat
      ensures Due(TimedPhase(s, Prefix(handlers, n)))
    {
      AgainNeverEnds(s, handler, delay, Prefix(handlers, n));
    }
  }

  /** For one handler that re-schedules itself the loop ends exactly if its due times lie after the step. */
  lemma AgainEndsIff(s: DState, handler: EventHandle, delay: int)
    requires Sound(s) && Due(s)
    ensures Ends(s, n => Again(handler, delay)) <==> s.now < AddTime(s.now, delay)
  {
    hide Sound, AddTime, Ends;
    if s.now < AddTime(s.now, delay) {
      LaterEnds(s, n => Again(handler, delay));
    } else {
      AgainDoesNotEnd(s, handler, delay);
    }
  }

  ghost predicate Stepped(s: DState)
  {
    Sound(s) && -TIME_MAX - 1 <= s.now <= TIME_MAX
  }

  /** A state in which an event is due. */
  lemma DueState(e: EventHandle, now: int) returns (s: DState)
    requires 0 <= now <= TIME_MAX
    ensures Stepped(s) && Due(s) && s.now == now
  {
    hide Sound;
    InitialSound();
    ApplySound(Initial(), Schedule(e, 0, null, true, true));
    s := Apply(Initial(), Schedule(e, 0, null, true, true));
    assert s.pending == [Entry(0, 0, e, null)];
    MakeSound(s, TickTo(now));
    s := s.(now := now);
  }

  lemma BoundedEnds(s: DState, handlers: nat -> Reaction, least: int, most: int)
    requires Stepped(s) && AllWhere(s.now, handlers, Within(least, most)) && least >= 1 && most <= TIME_MAX
    ensures Ends(s, handlers)
  {
    hide Sound, Ends, AddTime;
    forall n: nat
      ensures CmdsWhere(s.now, handlers(n).cmds, Later)
    {
      assert CmdsWhere(s.now, handlers(n).cmds, Within(least, most));
      forall i | 0 <= i < |handlers(n).cmds|
        ensures Later(s.now, handlers(n).cmds[i])
      {
        assert Within(least, most)(s.now, handlers(n).cmds[i]);
        BoundedAhead(s.now, handlers(n).cmds[i], 1);
      }
    }
    LaterEnds(s, handlers);
  }

  /** A handler within the bounds with which the loop does not end. */
  lemma EndlessWithin(least: int, most: int, now: int, delay: int) returns (s: DState, handlers: nat -> Reaction)
    requires 0 <= now <= TIME_MAX && AddTime(now, delay) <= now
    requires least <= delay && -TIME_MAX - 1 <= now + delay <= most
    ensures Stepped(s) && AllWhere(s.now, handlers, Within(least, most)) && !Ends(s, handlers)
  {
    hide Stepped, Ends, AddTime;
    var e := EventHandle(0, null);
    s := DueState(e, now);
    handlers := n => Again(e, delay);
    StepIsSound(s);
    AgainDoesNotEnd(s, e, delay);
  }

  lemma StepIsSound(s: DState)
    requires Stepped(s)
    ensures Sound(s)
  {
  }

  /** With due times that 64 bits can represent, the timed loop ends for all handlers with delays of at least
      `least` exactly when that is positive. */
  lemma LoopEndsIff(least: int)
    ensures (forall s: DState, handlers: nat -> Reaction ::
               Stepped(s) && AllWhere(s.now, handlers, Within(least, TIME_MAX)) ==> Ends(s, handlers))
            <==> least > 0
  {
    hide Stepped, AllWhere, Ends;
    if least > 0 {
      forall s: DState, handlers: nat -> Reaction
        | Stepped(s) && AllWhere(s.now, handlers, Within(least, TIME_MAX))
        ensures Ends(s, handlers)
      {
        BoundedEnds(s, handlers, least, TIME_MAX);
      }
    } else {
      var s, handlers := EndlessWithin(least, TIME_MAX, 0, 0);
    }
  }

  /** With positive delays, the timed loop ends for all handlers with due times up to `most`, before any
      wrap-around, exactly when 64 bits can represent that. */
  lemma LoopEndsUpToIff(most: int)
    ensures (forall s: DState, handlers: nat -> Reaction ::
               Stepped(s) && AllWhere(s.now, handlers, Within(1, most)) ==> Ends(s, handlers))
            <==> most <= TIME_MAX
  {
    hide Stepped, AllWhere, Ends;
    if most <= TIME_MAX {
      forall s: DState, handlers: nat -> Reaction
        | Stepped(s) && AllWhere(s.now, handlers, Within(1, most))
        ensures Ends(s, handlers)
      {
        BoundedEnds(s, handlers, 1, most);
      }
    } else {
      var s, handlers := EndlessWithin(1, most, 5, TIME_MAX - 4);
    }
  }

  // ---------- the order of firing ----------

  /** A handler fires at 5 and schedules an event that is due at once: it fires second, whatever its time. */
  lemma SecondFiring(e: EventHandle, delay: int)
    requires AddTime(5, delay) <= 5
    ensures var fired := Run(Initial(), TwoFirings(e, delay)).fired;
            |fired| == 2 && fired[0].entry.time == 5 && fired[1].entry.time == AddTime(5, delay)
  {
    var again, idle := Reaction([Schedule(e, delay, null, true, true)], false), Reaction([], false);
    var s1 := Apply(Initial(), Schedule(e, 5, null, true, true));
    assert s1.pending == [Entry(0, 5, e, null)];
    var s2 := s1.(now := 5);
    var s3 := Apply(Pop(s2), Schedule(e, delay, null, true, true));
    assert s3.pending == [Entry(1, AddTime(5, delay), e, null)];
    assert FireOne(s2, again) == s3 by {
      assert again.cmds[1..] == [];
      assert ApplyAll(Pop(s2), again.cmds) == ApplyAll(s3, []) == s3;
    }
    var s4 := FireOne(s3, idle);
    assert [again, idle][1..] == [idle] && [idle][1..] == [];
    assert TimedPhase(s2, [again, idle]) == TimedPhase(s3, [idle]) == TimedPhase(s4, []) == s4;
    var step := StepTo(5, [again, idle], [], idle);
    assert Act(s1, step) == s4;
    var client := Client(Schedule(e, 5, null, true, true));
    assert [client, step][1..] == [step] && [step][1..] == [];
    assert Run(Initial(), [client, step]) == Run(s1, [step]) == Run(s4, []) == s4;
  }

  function TwoFirings(e: EventHandle, delay: int): seq<Action>
  {
    var idle := Reaction([], false);
    [Client(Schedule(e, 5, null, true, true)),
     StepTo(5, [Reaction([Schedule(e, delay, null, true, true)], false), idle], [], idle)]
  }

  lemma {:induction false} BoundedNotPast(now: int, actions: seq<Action>, least: int, most: int)
    requires RunWhere(now, actions, Within(least, most)) && least >= 0 && most <= TIME_MAX && -TIME_MAX - 1 <= now
    ensures RunWhere(now, actions, NotPast)
    decreases |actions|
  {
    hide AddTime;
    if actions != [] {
      match actions[0] {
        case StepTo(newStep, timed, calls, empty) =>
          CmdsNotPast(newStep, empty.cmds, least, most);
          ReactionsNotPast(newStep, timed, least, most);
          ReactionsNotPast(newStep, calls, least, most);
          BoundedNotPast(newStep, actions[1..], least, most);
        case Client(cmd) =>
          BoundedAhead(now, cmd, 0);
          BoundedNotPast(now, actions[1..], least, most);
      }
    }
  }

  lemma ReactionsNotPast(now: int, rs: seq<Reaction>, least: int, most: int)
    requires ReactionsWhere(now, rs, Within(least, most)) && least >= 0 && most <= TIME_MAX && -TIME_MAX - 1 <= now
    ensures ReactionsWhere(now, rs, NotPast)
  {
    hide NotPast;
    forall i | 0 <= i < |rs|
      ensures CmdsWhere(now, rs[i].cmds, NotPast)
    {
      CmdsNotPast(now, rs[i].cmds, least, most);
    }
  }

  lemma CmdsNotPast(now: int, cmds: seq<Cmd>, least: int, most: int)
    requires CmdsWhere(now, cmds, Within(least, most)) && least >= 0 && most <= TIME_MAX && -TIME_MAX - 1 <= now
    ensures CmdsWhere(now, cmds, NotPast)
  {
    hide AddTime;
    forall i | 0 <= i < |cmds|
      ensures NotPast(now, cmds[i])
    {
      assert Within(least, most)(now, cmds[i]);
      BoundedAhead(now, cmds[i], 0);
    }
  }

  lemma BoundedInOrder(actions: seq<Action>, least: int, most: int)
    requires RunWhere(0, actions, Within(least, most)) && least >= 0 && most <= TIME_MAX
    ensures InOrder(Run(Initial(), actions).fired)
  {
    hide RunWhere, Run, InOrder;
    BoundedNotPast(0, actions, least, most);
    FiresInOrder(actions);
  }

  /** A run within the bounds that fires out of order. */
  lemma DisorderWithin(least: int, most: int, delay: int) returns (actions: seq<Action>)
    requires AddTime(5, delay) < 5 && least <= 5 <= most && least <= delay && -TIME_MAX - 1 <= 5 + delay <= most
    ensures RunWhere(0, actions, Within(least, most)) && !InOrder(Run(Initial(), actions).fired)
  {
    hide AddTime, Run;
    var e := EventHandle(0, null);
    actions := TwoFirings(e, delay);
    SecondFiring(e, delay);
    assert actions[1..][1..] == [];
    assert RunWhere(5, actions[1..][1..], Within(least, most));
    assert RunWhere(0, actions[1..], Within(least, most));
  }

  /** With due times that 64 bits can represent, all runs with steps that do not go back and delays of at least
      `least` fire in order exactly when that is not negative. */
  lemma FiresInOrderIff(least: int)
    ensures (forall actions :: RunWhere(0, actions, Within(least, TIME_MAX)) ==> InOrder(Run(Initial(), actions).fired))
            <==> least >= 0
  {
    hide RunWhere, Run, InOrder;
    if least >= 0 {
      forall actions | RunWhere(0, actions, Within(least, TIME_MAX))
        ensures InOrder(Run(Initial(), actions).fired)
      {
        BoundedInOrder(actions, least, TIME_MAX);
      }
    } else {
      var actions := DisorderWithin(least, TIME_MAX, -1);
    }
  }

  /** With delays that are not negative, all runs with steps that do not go back and due times up to `most`,
      before any wrap-around, fire in order exactly when 64 bits can represent that. */
  lemma FiresInOrderUpToIff(most: int)
    ensures (forall actions :: RunWhere(0, actions, Within(0, most)) ==> InOrder(Run(Initial(), actions).fired))
            <==> most <= TIME_MAX
  {
    hide RunWhere, Run, InOrder;
    if most <= TIME_MAX {
      forall actions | RunWhere(0, actions, Within(0, most))
        ensures InOrder(Run(Initial(), actions).fired)
      {
        BoundedInOrder(actions, 0, most);
      }
    } else {
      var actions := DisorderWithin(0, most, TIME_MAX - 4);
    }
  }

  /** A newly scheduled event is due at once exactly if its delay is not positive and its due time does not wrap
      around below, or if its due time wraps around above. */
  lemma DueAtOnceIff(s: DState, handler: EventHandle, delay: int)
    requires Sorted(s.pending) && !Due(s) && Accepts(|s.pending|, s.capacity, true)
    requires -TIME_MAX - 1 <= delay <= TIME_MAX && -TIME_MAX - 1 <= s.now <= TIME_MAX
    ensures Due(Apply(s, Schedule(handler, delay, null, true, true)))
            <==> (delay <= 0 && -TIME_MAX - 1 <= s.now + delay) || s.now + delay > TIME_MAX
  {
    hide Upper;
    var x := Entry(s.nextId, AddTime(s.now, delay), handler, null);
    UpperSplits(s.pending, x.time);
    if s.pending != [] {
      assert s.now < s.pending[0].time;
    }
  }
}

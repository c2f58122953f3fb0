/** The io timeouts of iotc_io_timeouts.c: a vector of armed handles, restarted all at once. */
module IoTimeouts {
  import opened Sequences
  import opened Vectors
  import opened TimerSpec
  import opened TimerQueues
  import opened DispatcherSpec
  import opened Dispatchers
  import DispatcherRuns

  // ---------- what a bulk restart does to the plain queue ----------

  function Touch(x: Entry, hs: set<Handle>, t: int): Entry
  {
    if x.handle != null && x.handle in hs then x.(time := t) else x
  }

  function TouchAll(v: seq<Entry>, hs: set<Handle>, t: int): (r: seq<Entry>)
    ensures |r| == |v| && forall i :: 0 <= i < |v| ==> r[i] == Touch(v[i], hs, t)
  {
    seq(|v|, i requires 0 <= i < |v| => Touch(v[i], hs, t))
  }

  function Restarts(hs: seq<Handle>, newTime: int): (r: seq<Cmd>)
    ensures |r| == |hs| && forall i :: 0 <= i < |hs| ==> r[i] == Cmd.Restart(hs[i], newTime)
  {
    seq(|hs|, i requires 0 <= i < |hs| => Cmd.Restart(hs[i], newTime))
  }

  function SetOf(hs: seq<Handle>): set<Handle>
  {
    set h | h in hs
  }

  lemma RemoveMultiset(v: seq<Entry>, k: nat)
    requires k < |v|
    ensures multiset(v) == multiset(RemoveAt(v, k)) + multiset{v[k]}
    ensures multiset(RemoveAt(v, k)) == multiset(v) - multiset{v[k]}
  {
    assert v == v[..k] + ([v[k]] + v[k + 1..]);
  }

  lemma TouchRemove(v: seq<Entry>, k: nat, hs: set<Handle>, t: int)
    requires k < |v|
    ensures multiset(TouchAll(v, hs, t)) == multiset(TouchAll(RemoveAt(v, k), hs, t)) + multiset{Touch(v[k], hs, t)}
  {
    RemoveMultiset(TouchAll(v, hs, t), k);
    assert TouchAll(RemoveAt(v, k), hs, t) == RemoveAt(TouchAll(v, hs, t), k);
  }

  lemma {:induction false} TouchPermuted(a: seq<Entry>, b: seq<Entry>, hs: set<Handle>, t: int)
    requires multiset(a) == multiset(b)
    ensures multiset(TouchAll(a, hs, t)) == multiset(TouchAll(b, hs, t))
    decreases |a|
  {
    hide TouchAll, Touch, RemoveAt;
    if a == [] {
      assert |b| == |multiset(b)| == 0;
      assert a == b;
    } else {
      assert a[0] in multiset(b);
      var k :| 0 <= k < |b| && b[k] == a[0];
      RemoveMultiset(a, 0);
      RemoveMultiset(b, k);
      assert RemoveAt(a, 0) == a[1..] by { RemoveFirst(a); }
      TouchRemove(a, 0, hs, t);
      TouchRemove(b, k, hs, t);
      TouchPermuted(a[1..], RemoveAt(b, k), hs, t);
    }
  }

  lemma RemoveFirst(v: seq<Entry>)
    requires v != []
    ensures RemoveAt(v, 0) == v[1..]
  {
  }

  lemma RetimedMultiset(v: seq<Entry>, i: nat, t: int)
    requires i < |v|
    ensures multiset(Retimed(v, i, t)) == multiset(v[i := v[i].(time := t)])
  {
    hide Upper, Lower;
    var rest, x := RemoveAt(v, i), v[i].(time := t);
    InsertMultiset(rest, Upper(rest, t), x);
    InsertMultiset(rest, Lower(rest, t), x);
    assert v[i := x] == v[..i] + ([x] + v[i + 1..]);
    if t == v[i].time {
      assert v[i := x] == v;
    }
  }

  lemma InsertMultiset(v: seq<Entry>, k: nat, x: Entry)
    requires k <= |v|
    ensures multiset(InsertAt(v, k, x)) == multiset(v) + multiset{x}
  {
    assert v == v[..k] + v[k..];
  }

  lemma ArmedMember(v: seq<Entry>, h: Handle)
    ensures Armed(v, h) <==> exists x :: x in v && x.handle == h
  {
    if Armed(v, h) {
      assert v[IndexOf(v, h)] in v;
    }
  }

  /** One restart of an armed handle, up to the order of the queue. */
  lemma RestartTouches(s: DState, h: Handle, newTime: int)
    requires DistinctHandles(s.pending) && Armed(s.pending, h)
    ensures multiset(Apply(s, Cmd.Restart(h, newTime)).pending)
            == multiset(TouchAll(s.pending, {h}, AddTime(s.now, newTime)))
  {
    hide Retimed, TouchAll, IndexOf;
    var i, t := IndexOf(s.pending, h), AddTime(s.now, newTime);
    RetimedMultiset(s.pending, i, t);
    TouchOne(s.pending, h, t);
  }

  lemma TouchOne(v: seq<Entry>, h: Handle, t: int)
    requires DistinctHandles(v) && Armed(v, h)
    ensures var i := IndexOf(v, h); TouchAll(v, {h}, t) == v[i := v[i].(time := t)]
  {
  }

  lemma TouchedArmed(v: seq<Entry>, w: seq<Entry>, hs: set<Handle>, t: int, h: Handle)
    requires multiset(w) == multiset(TouchAll(v, hs, t))
    ensures Armed(v, h) <==> Armed(w, h)
  {
    var u := TouchAll(v, hs, t);
    assert forall x :: x in w <==> x in multiset(w);
    assert forall x :: x in u <==> x in multiset(u);
    ArmedMember(w, h);
    ArmedMember(u, h);
    if Armed(v, h) {
      assert u[IndexOf(v, h)] in u;
    }
    if Armed(u, h) {
      assert v[IndexOf(u, h)].handle == h;
    }
  }

  lemma TouchTwice(v: seq<Entry>, h: Handle, hs: set<Handle>, t: int)
    ensures TouchAll(TouchAll(v, {h}, t), hs, t) == TouchAll(v, {h} + hs, t)
  {
  }

  lemma {:induction false} RestartsTouch(s: DState, hs: seq<Handle>, newTime: int)
    requires DispatcherRuns.Sound(s) && forall i :: 0 <= i < |hs| ==> Armed(s.pending, hs[i])
    ensures multiset(ApplyAll(s, Restarts(hs, newTime)).pending)
            == multiset(TouchAll(s.pending, SetOf(hs), AddTime(s.now, newTime)))
    decreases |hs|
  {
    hide DispatcherRuns.Sound, Apply, AddTime, TouchAll, Armed, Restarts;
    if hs == [] {
      assert Restarts(hs, newTime) == [] && SetOf(hs) == {};
      TouchNone(s.pending, AddTime(s.now, newTime));
    } else {
      RestartFirst(s, hs, newTime);
      var s1 := Apply(s, Cmd.Restart(hs[0], newTime));
      RestartsTouch(s1, hs[1..], newTime);
      TouchPermuted(s1.pending, TouchAll(s.pending, {hs[0]}, AddTime(s.now, newTime)), SetOf(hs[1..]),
                    AddTime(s.now, newTime));
      TouchTwice(s.pending, hs[0], SetOf(hs[1..]), AddTime(s.now, newTime));
      assert SetOf(hs) == {hs[0]} + SetOf(hs[1..]);
    }
  }

  lemma TouchNone(v: seq<Entry>, t: int)
    ensures TouchAll(v, {}, t) == v
  {
  }

  lemma RestartFirst(s: DState, hs: seq<Handle>, newTime: int)
    requires DispatcherRuns.Sound(s) && hs != [] && forall i :: 0 <= i < |hs| ==> Armed(s.pending, hs[i])
    ensures var s1 := Apply(s, Cmd.Restart(hs[0], newTime));
            && s1.now == s.now && DispatcherRuns.Sound(s1)
            && multiset(s1.pending) == multiset(TouchAll(s.pending, {hs[0]}, AddTime(s.now, newTime)))
            && (forall i :: 0 <= i < |hs| ==> Armed(s1.pending, hs[i]))
            && ApplyAll(s, Restarts(hs, newTime)) == ApplyAll(s1, Restarts(hs[1..], newTime))
  {
    hide TouchAll;
    var s1 := Apply(s, Cmd.Restart(hs[0], newTime));
    RestartTouches(s, hs[0], newTime);
    DispatcherRuns.ApplySound(s, Cmd.Restart(hs[0], newTime));
    forall i | 0 <= i < |hs|
      ensures Armed(s1.pending, hs[i])
    {
      TouchedArmed(s.pending, s1.pending, {hs[0]}, AddTime(s.now, newTime), hs[i]);
    }
    assert Restarts(hs, newTime)[1..] == Restarts(hs[1..], newTime);
  }

  /** Restarting every handle of a list, each of them armed: exactly their events move to the new time,
      every other event keeps its entry, the queue stays sorted and the same handles stay armed,
      although every restart permutes the queue the next one works on. */
  lemma BulkRestart(s: DState, hs: seq<Handle>, newTime: int)
    requires DispatcherRuns.Sound(s) && forall i :: 0 <= i < |hs| ==> Armed(s.pending, hs[i])
    ensures var t := ApplyAll(s, Restarts(hs, newTime));
            && multiset(t.pending) == multiset(TouchAll(s.pending, SetOf(hs), AddTime(s.now, newTime)))
            && Sorted(t.pending) && DispatcherRuns.Sound(t)
            && (forall h :: h in hs ==>
                  Armed(t.pending, h) && t.pending[IndexOf(t.pending, h)].time == AddTime(s.now, newTime))
  {
    hide TouchAll;
    var t := ApplyAll(s, Restarts(hs, newTime));
    RestartsTouch(s, hs, newTime);
    DispatcherRuns.ApplyAllSound(s, Restarts(hs, newTime));
    forall h | h in hs
      ensures Armed(t.pending, h) && t.pending[IndexOf(t.pending, h)].time == AddTime(s.now, newTime)
    {
      TouchedTime(s.pending, t.pending, hs, AddTime(s.now, newTime), h);
    }
  }

  lemma TouchedTime(v: seq<Entry>, w: seq<Entry>, hs: seq<Handle>, t: int, h: Handle)
    requires multiset(w) == multiset(TouchAll(v, SetOf(hs), t)) && h in hs && Armed(v, h)
    ensures Armed(w, h) && w[IndexOf(w, h)].time == t
  {
    TouchedArmed(v, w, SetOf(hs), t, h);
    var x := w[IndexOf(w, h)];
    assert x in multiset(w) && x in multiset(TouchAll(v, SetOf(hs), t));
  }

  // ---------- the operations ----------

  ghost function Handles(v: seq<Handle?>): (r: seq<Handle>)
    requires forall i :: 0 <= i < |v| ==> v[i] != null
    ensures |r| == |v| && forall i :: 0 <= i < |v| ==> r[i] == v[i]
  {
    seq(|v|, i requires 0 <= i < |v| => v[i])
  }

  /** A timeout vector of its own, filled with handles known to the dispatcher. */
  ghost predicate Timeouts(d: Dispatcher, timeouts: Vector<Handle?>)
    reads d, d.timers, timeouts, timeouts.elems
  {
    && timeouts.Valid() && timeouts !in d.Repr && timeouts.elems !in d.Repr
    && (forall i :: 0 <= i < timeouts.elemNo ==> timeouts.elems[i] != null && timeouts.elems[i] in d.timers.clients)
  }

  /** If the push fails the event is scheduled all the same, and the caller is told there is no memory. */
  method Create(d: Dispatcher, handler: EventHandle, diff: int, timeouts: Vector<Handle?>, h: Handle,
                eventOk: bool, growOk: bool, pushOk: bool) returns (ret: State)
    requires d.Valid() && Timeouts(d, timeouts) && h.event == null && (h in d.timers.clients || h !in d.Repr)
    modifies d.Repr, h, timeouts, timeouts.elems
    ensures d.Valid() && Timeouts(d, timeouts)
    ensures d.state == Apply(old(d.state), Schedule(handler, diff, h, eventOk, growOk))
    ensures var scheduled := eventOk && Accepts(|old(d.state).pending|, old(d.state).capacity, growOk);
            var pushed := scheduled
                          && Accepts(old(timeouts.elemNo), old(timeouts.capacity), pushOk && timeouts.managed);
            && ret == (if pushed then OK else OUT_OF_MEMORY)
            && timeouts.Contents() == if pushed then old(timeouts.Contents()) + [h] else old(timeouts.Contents())
  {
    hide TimerQueue.Wf, LinkedLists.List.Valid, Insert, Apply, IndexOf;
    ret := d.ExecuteIn(handler, diff, h, eventOk, growOk);
    if ret != OK {
      return;
    }
    var ok := timeouts.Push(h, pushOk);
    if !ok {
      ret := OUT_OF_MEMORY;
    }
  }

  /** `now` is `was` without one occurrence of h, up to order; without any, it is `was`. */
  ghost predicate Forgotten(was: seq<Handle?>, now: seq<Handle?>, h: Handle)
  {
    if h in was then multiset(now) == multiset(was) - multiset{h} else now == was
  }

  lemma ForgottenAt(was: seq<Handle?>, index: nat, h: Handle)
    requires index < |was| && was[index] == h
    ensures Forgotten(was, Swapped(was, index, |was| - 1)[..|was| - 1], h)
  {
    SwapOutMultiset(was, index);
  }

  /** Forgets the handle: its first occurrence is deleted, the last element takes its place. */
  method Remove(h: Handle, timeouts: Vector<Handle?>)
    requires timeouts.Valid()
    modifies timeouts`elemNo, timeouts.elems
    ensures timeouts.Valid() && Forgotten(old(timeouts.Contents()), timeouts.Contents(), h)
  {
    hide Swapped, Forgotten;
    ghost var was := timeouts.Contents();
    var index := timeouts.Find(e => e == h);
    if index > -1 {
      ForgottenAt(was, index, h);
      timeouts.Del(index);
    } else {
      assert h !in was;
      NothingForgotten(was, h);
    }
  }

  lemma NothingForgotten(was: seq<Handle?>, h: Handle)
    requires h !in was
    ensures Forgotten(was, was, h)
  {
  }

  lemma ForgottenMembers(was: seq<Handle?>, now: seq<Handle?>, h: Handle)
    requires Forgotten(was, now, h)
    ensures forall i :: 0 <= i < |now| ==> now[i] in was
  {
    SubMultiset(now, was);
  }

  lemma SubMultiset<T>(s: seq<T>, t: seq<T>)
    requires multiset(s) <= multiset(t)
    ensures forall i :: 0 <= i < |s| ==> s[i] in t
  {
    forall i | 0 <= i < |s|
      ensures s[i] in t
    {
      assert s[i] in multiset(s) && s[i] in multiset(t);
    }
  }

  method Cancel(d: Dispatcher, h: Handle, timeouts: Vector<Handle?>)
    requires d.Valid() && Timeouts(d, timeouts) && h in d.timers.clients && h.event != null
    modifies d.Repr, timeouts`elemNo, timeouts.elems
    ensures d.Valid() && Timeouts(d, timeouts) && d.state == Apply(old(d.state), Cmd.Cancel(h))
    ensures Armed(old(d.state).pending, h)
    ensures Forgotten(old(timeouts.Contents()), timeouts.Contents(), h)
  {
    hide TimerQueue.Wf, LinkedLists.List.Valid, Apply, Armed, Forgotten;
    ghost var was := timeouts.Contents();
    Remove(h, timeouts);
    ForgottenMembers(was, timeouts.Contents(), h);
    assert forall j :: 0 <= j < timeouts.elemNo ==> timeouts.elems[j] == timeouts.Contents()[j];
    var ret := d.Cancel(h);
  }

  /** Restarts every timeout of the vector. */
  method RestartAll(d: Dispatcher, newTime: int, timeouts: Vector<Handle?>)
    requires d.Valid() && Timeouts(d, timeouts) && DispatcherRuns.Sound(d.state)
    requires forall i :: 0 <= i < timeouts.elemNo ==> timeouts.elems[i] != null && timeouts.elems[i].event != null
    modifies d.Repr
    ensures d.Valid() && Timeouts(d, timeouts) && DispatcherRuns.Sound(d.state)
    ensures d.state == ApplyAll(old(d.state), Restarts(Handles(timeouts.Contents()), newTime))
    ensures forall i :: 0 <= i < timeouts.elemNo ==> timeouts.elems[i].event != null
  {
    hide TimerQueue.Wf, LinkedLists.List.Valid, Apply, Armed, Restarts, DispatcherRuns.Sound;
    ghost var hs := Handles(timeouts.Contents());
    ghost var s0 := d.state;
    forall i | 0 <= i < |hs|
      ensures Armed(s0.pending, hs[i])
    {
      d.Liveness(hs[i]);
    }
    var index := 0;
    assert Restarts(hs, newTime)[0..] == Restarts(hs, newTime);
    while index < timeouts.elemNo
      invariant 0 <= index <= timeouts.elemNo == |hs|
      invariant d.Valid() && Timeouts(d, timeouts) && d.Repr == old(d.Repr) && DispatcherRuns.Sound(d.state)
      invariant forall i :: 0 <= i < |hs| ==> timeouts.elems[i] == hs[i] && Armed(d.state.pending, hs[i])
      invariant ApplyAll(d.state, Restarts(hs, newTime)[index..]) == ApplyAll(s0, Restarts(hs, newTime))
    {
      var h := timeouts.elems[index];
      RestartKeepsArmed(d.state, h, newTime, hs);
      d.Liveness(h);
      assert Restarts(hs, newTime)[index..][1..] == Restarts(hs, newTime)[index + 1..];
      var ret := d.Restart(h, newTime);
      index := index + 1;
    }
    forall i | 0 <= i < timeouts.elemNo
      ensures timeouts.elems[i].event != null
    {
      d.Liveness(hs[i]);
    }
  }

  lemma RestartKeepsArmed(s: DState, h: Handle, newTime: int, hs: seq<Handle>)
    requires DispatcherRuns.Sound(s) && Armed(s.pending, h) && forall i :: 0 <= i < |hs| ==> Armed(s.pending, hs[i])
    ensures var t := Apply(s, Cmd.Restart(h, newTime));
            DispatcherRuns.Sound(t) && t.now == s.now && forall i :: 0 <= i < |hs| ==> Armed(t.pending, hs[i])
  {
    DispatcherRuns.ApplySound(s, Cmd.Restart(h, newTime));
    RestartTouches(s, h, newTime);
    forall i | 0 <= i < |hs|
      ensures Armed(Apply(s, Cmd.Restart(h, newTime)).pending, hs[i])
    {
      TouchedArmed(s.pending, Apply(s, Cmd.Restart(h, newTime)).pending, {h}, AddTime(s.now, newTime), hs[i]);
    }
  }
}

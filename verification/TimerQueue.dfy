/** The timer queue of iotc_time_event.c: a time-sorted vector of events, each storing its own index,
    with client handles that reach an event through that index. */
module TimerQueues {
  import opened Sequences
  import opened Vectors
  import opened TimerSpec

  datatype State = OK | OUT_OF_MEMORY | ELEMENT_NOT_FOUND

  class TimerQueue {
    const vector: Vector<Event?>
    /** The events in queue order, and what each of them means. */
    ghost var items: seq<Event>
    ghost var view: seq<Entry>
    /** The handles that may be armed on this queue. */
    ghost var clients: set<Handle>
    /** The events in the queue. */
    ghost var events: set<Event>
    ghost var Repr: set<object>

    /** Slot, stored index and meaning agree. */
    ghost predicate Indexed()
      reads this, Repr
    {
      && this in Repr && vector in Repr && vector.elems in Repr
      && vector.Valid() && vector.managed
      && |items| == |view| == vector.elemNo
      && (forall e :: e in events ==> e in Repr)
      && (forall i :: 0 <= i < |items| ==>
            && items[i] in events && vector.elems[i] == items[i]
            && items[i].position == i && view[i] == EntryOf(items[i]))
      && (forall e :: e in events ==> 0 <= e.position < |items| && items[e.position] == e)
    }

    /** Queued events and armed handles point at each other, and at nothing else. */
    ghost predicate Linked()
      reads this, Repr
    {
      && (forall e :: e in events ==> e in Repr)
      && (forall h :: h in clients ==> h in Repr)
      && (forall e :: e in events && e.handle != null ==> e.handle in clients && e.handle.event == e)
      && (forall h :: h in clients && h.event != null ==> h.event in events && h.event.handle == h)
    }

    /** Everything but the order. */
    ghost predicate Wf()
      reads this, Repr
    {
      Indexed() && Linked()
    }

    ghost predicate Valid()
      reads this, Repr
    {
      Wf() && Sorted(view)
    }

    constructor ()
      ensures Valid() && fresh(Repr) && view == [] && clients == {} && vector.capacity == DEFAULT_CAPACITY
    {
      vector := new Vector<Event?>(null);
      items, view, clients, events := [], [], {}, {};
      new;
      Repr := {this, vector, vector.elems};
    }

    lemma Footprint()
      requires Wf()
      ensures |view| == |items| == vector.elemNo
      ensures this in Repr && vector in Repr && vector.elems in Repr
      ensures (forall e :: e in events ==> e in Repr) && (forall h :: h in clients ==> h in Repr)
    {
    }

    /** Lets a handle that was never used be armed on this queue later. */
    ghost method Admit(h: Handle)
      requires Valid() && h !in Repr && h.event == null
      modifies this`clients, this`Repr
      ensures Valid() && clients == old(clients) + {h} && Repr == old(Repr) + {h}
    {
      clients, Repr := clients + {h}, Repr + {h};
    }

    /** A client handle is armed exactly when some entry of the queue carries it, and no two entries share one. */
    lemma HandleLiveness(h: Handle)
      requires Wf() && h in clients
      ensures h.event != null <==> Armed(view, h)
      ensures h.event != null ==> 0 <= h.event.position < |view| && IndexOf(view, h) == h.event.position
                                  && items[h.event.position] == h.event
      ensures DistinctHandles(view)
    {
      if h.event != null {
        var i := h.event.position;
        assert view[i].handle == h;
        forall j | 0 <= j < i
          ensures view[j].handle != h
        {
          assert view[j] == EntryOf(items[j]);
        }
      } else {
        forall i | 0 <= i < |view|
          ensures view[i].handle != h
        {
          assert view[i] == EntryOf(items[i]);
        }
      }
      forall i, j | 0 <= i < j < |view| && view[i].handle != null
        ensures view[i].handle != view[j].handle
      {
        assert view[i] == EntryOf(items[i]) && view[j] == EntryOf(items[j]);
        assert items[i].position != items[j].position;
      }
    }

    /** Adding events without a handle, and moving events about, does not disturb the links. */
    twostate lemma LinkedUnchanged(new added: set<Event>)
      requires old(Linked()) && events == old(events) + added && clients == old(clients) && old(Repr) <= Repr
      requires forall e :: e in added ==> e in Repr && e.handle == null
      requires forall e :: e in old(events) ==> old(allocated(e)) && e.handle == old(e.handle)
      requires forall h :: h in clients ==> old(allocated(h)) && h.event == old(h.event)
      ensures Linked()
    {
    }

    method SwapTimeEvents(lhs: nat, rhs: nat)
      requires Wf() && lhs < vector.elemNo && rhs < vector.elemNo
      modifies vector.elems, this`items, this`view, events`position
      ensures Wf()
      ensures view == Swapped(old(view), lhs, rhs) && items == Swapped(old(items), lhs, rhs)
    {
      hide Linked;
      var l, r := vector.elems[lhs], vector.elems[rhs];
      vector.SwapElems(lhs, rhs);
      l.position := rhs;
      r.position := lhs;
      items := Swapped(items, lhs, rhs);
      view := Swapped(view, lhs, rhs);
      LinkedUnchanged({});
      forall i | 0 <= i < |items|
        ensures items[i] in events && vector.elems[i] == items[i] && items[i].position == i
        ensures view[i] == EntryOf(items[i])
      {
        ghost var j := if i == lhs then rhs else if i == rhs then lhs else i;
        assert items[i] == old(items[j]) && view[i] == old(view[j]);
      }
      forall e | e in events
        ensures 0 <= e.position < |items| && items[e.position] == e
      {
        assert old(items[e.position]) == e;
      }
    }

    /** Compares the event at k with its neighbour k + dir and swaps the two if they are out of order. */
    method BubbleStep(k: nat, dir: int) returns (swapped: bool)
      requires Wf() && k < vector.elemNo && (dir == -1 || dir == 1) && 0 <= k + dir < vector.elemNo
      modifies vector.elems, this`items, this`view, events`position
      ensures Wf() && |items| == |view| == |old(view)|
      ensures swapped == OutOfOrder(old(view)[k], old(view)[k + dir], dir)
      ensures view == (if swapped then Swapped(old(view), k + dir, k) else old(view))
      ensures items == (if swapped then Swapped(old(items), k + dir, k) else old(items))
    {
      var toCmp, toBubble := vector.elems[k + dir], vector.elems[k];
      swapped := if dir < 0 then toBubble.time < toCmp.time else toBubble.time > toCmp.time;
      if swapped {
        SwapTimeEvents(toCmp.position, toBubble.position);
      }
    }

    /** Swaps the event at `index` towards the front (dir == -1) or the back (dir == 1) until its
        neighbour on that side is no longer out of order with it. */
    method BubbleCore(index: nat, dir: int) returns (k: nat)
      requires Wf() && index < vector.elemNo && (dir == -1 || dir == 1)
      modifies vector.elems, this`items, this`view, events`position
      ensures Wf() && k < |view| == |items| == |old(view)|
      ensures view == Moved(old(view), index, k) && items == Moved(old(items), index, k)
      ensures Settled(old(view), index, k, dir)
    {
      hide Moved, Swapped, Passed, Settled;
      ghost var v0, s0 := view, items;
      MovedSelf(v0, index);
      MovedSelf(s0, index);
      assert Passed(v0, index, index, dir) by { PassedStart(v0, index, dir); }
      k := index;
      var swapped := true;
      while swapped && if dir < 0 then k != 0 else k != vector.elemNo - 1
        invariant Wf() && k < |v0| == |s0| == |view| == |items| == vector.elemNo
        invariant view == Moved(v0, index, k) && items == Moved(s0, index, k)
        invariant Passed(v0, index, k, dir) && (!swapped ==> Settled(v0, index, k, dir))
        decreases swapped, if dir < 0 then k else vector.elemNo - k
      {
        hide Wf;
        PassedStep(v0, index, k, dir);
        swapped := BubbleStep(k, dir);
        if swapped {
          MovedStep(v0, index, k, k + dir);
          MovedStep(s0, index, k, k + dir);
          k := k + dir;
        }
      }
      if swapped {
        SettledAtEnd(v0, index, k, dir);
      }
      k := vector.elems[k].position;
    }

    method MoveToTheEnd(index: nat)
      requires Wf() && index < vector.elemNo
      modifies vector.elems, this`items, this`view, events`position
      ensures Wf()
      ensures view == Moved(old(view), index, |old(view)| - 1) && items == Moved(old(items), index, |old(items)| - 1)
    {
      hide Moved, Swapped;
      ghost var v0, s0 := view, items;
      MovedSelf(v0, index);
      MovedSelf(s0, index);
      var i, next := index, index + 1;
      while i < vector.elemNo - 1
        invariant Wf() && i < |v0| == |s0| == |view| == |items| == vector.elemNo && next == i + 1
        invariant view == Moved(v0, index, i) && items == Moved(s0, index, i)
      {
        hide Wf;
        SwapTimeEvents(i, next);
        MovedStep(v0, index, i, next);
        MovedStep(s0, index, i, next);
        i, next := i + 1, next + 1;
      }
    }

    /** Pushes an event and gives it its index; the order is restored by the caller. */
    method AppendTimeEvent(e: Event, allocOk: bool) returns (ok: bool)
      requires Wf() && e !in Repr && e.handle == null
      modifies vector, vector.elems, this`items, this`view, this`events, this`Repr, e`position
      ensures Wf()
      ensures ok == Accepts(|old(view)|, old(vector.capacity), allocOk)
      ensures !ok ==> view == old(view) && items == old(items) && events == old(events)
                      && Repr == old(Repr) && vector.capacity == old(vector.capacity)
                      && vector.elems == old(vector.elems)
      ensures ok ==> view == old(view) + [EntryOf(e)] && items == old(items) + [e] && events == old(events) + {e}
                     && Repr == old(Repr) + {e, vector.elems}
                     && (vector.elems == old(vector.elems) || fresh(vector.elems))
                     && vector.capacity == Grown(|old(view)|, old(vector.capacity))
    {
      hide Linked;
      ok := vector.Push(e, allocOk);
      if !ok {
        LinkedUnchanged({});
        return;
      }
      e.position := vector.elemNo - 1;
      items, view, events := items + [e], view + [EntryOf(e)], events + {e};
      Repr := Repr + {e, vector.elems};
      LinkedUnchanged({e});
    }

    method InsertTimeEvent(e: Event, allocOk: bool) returns (ok: bool, index: nat)
      requires Valid() && e !in Repr && e.handle == null
      modifies vector, vector.elems, this`items, this`view, this`events, this`Repr, events`position, e`position
      ensures Valid()
      ensures ok == Accepts(|old(view)|, old(vector.capacity), allocOk)
      ensures !ok ==> view == old(view) && Repr == old(Repr) && vector.capacity == old(vector.capacity)
      ensures ok ==> view == Insert(old(view), EntryOf(e)) && events == old(events) + {e}
                     && Repr == old(Repr) + {e, vector.elems}
                     && (vector.elems == old(vector.elems) || fresh(vector.elems))
                     && vector.capacity == Grown(|old(view)|, old(vector.capacity))
      ensures ok ==> index == Upper(old(view), e.time) && index < |items| && items[index] == e
    {
      hide Indexed, Linked, Insert, Settled, Sorted, Moved;
      Footprint();
      ghost var v0, s0 := view, items;
      ok := AppendTimeEvent(e, allocOk);
      index := 0;
      if ok {
        assert view[..|v0|] == v0;
        Footprint();
        index := BubbleCore(vector.elemNo - 1, -1);
        MovedLands(s0 + [e], |s0|, index);
        SettledLast(v0 + [EntryOf(e)], index);
        InsertSorted(v0, EntryOf(e));
      }
    }

    /** Schedules an event and, on success, arms the caller's empty handle with it. */
    method Add(e: Event, h: Handle?, allocOk: bool) returns (state: State)
      requires Valid() && e !in Repr && e.handle == null
      requires h != null ==> h.event == null
      modifies Repr, e, h
      ensures Valid() && fresh(Repr - old(Repr) - {e} - clients) && (e in Repr || Repr == old(Repr))
      ensures state == if Accepts(|old(view)|, old(vector.capacity), allocOk) then OK else OUT_OF_MEMORY
      ensures state != OK ==> view == old(view) && clients == old(clients) && vector.capacity == old(vector.capacity)
      ensures state == OK ==>
                && view == Insert(old(view), Entry(e.id, old(e.time), e.handler, h))
                && clients == old(clients) + (if h == null then {} else {h})
                && vector.capacity == Grown(|old(view)|, old(vector.capacity))
    {
      hide Insert, Upper, Accepts, Grown, Indexed, Linked;
      Footprint();
      ghost var v0 := view;
      var ok, index := InsertTimeEvent(e, allocOk);
      if !ok {
        return OUT_OF_MEMORY;
      }
      if h != null {
        InsertThenArm(v0, EntryOf(e), h);
        Arm(e, h, index);
      }
      state := OK;
    }

    method Arm(e: Event, h: Handle, index: nat)
      requires Wf() && index < |items| && items[index] == e && e.handle == null && h.event == null
      modifies this`view, this`clients, this`Repr, e`handle, h`event
      ensures Wf() && |view| == |old(view)| && index < |view|
      ensures view == old(view)[index := old(view)[index].(handle := h)]
      ensures clients == old(clients) + {h} && Repr == old(Repr) + {h}
    {
      h.event := e;
      e.handle := h;
      view := view[index := EntryOf(e)];
      clients, Repr := clients + {h}, Repr + {h};
    }

    /** Deletes the last event from the vector and disposes of it: its handle becomes empty. */
    method DropLast() returns (e: Event)
      requires Wf() && |items| > 0
      modifies vector`elemNo, vector.elems, this`items, this`view, this`events, clients`event
      ensures Wf() && e == old(items)[|old(items)| - 1] && EntryOf(e) == old(view)[|old(view)| - 1]
      ensures events == old(events) - {e}
      ensures view == old(view)[..|old(view)| - 1] && items == old(items)[..|old(items)| - 1]
    {
      e := vector.elems[vector.elemNo - 1];
      vector.Del(vector.elemNo - 1);
      items, view, events := items[..|items| - 1], view[..|view| - 1], events - {e};
      if e.handle != null {
        e.handle.event := null;
      }
      assert Linked();
    }

    lemma EntryAt(i: nat)
      requires Wf() && i < |items|
      ensures items[i] in events && view[i] == EntryOf(items[i])
    {
    }

    method PeekTop() returns (e: Event?)
      requires Valid()
      ensures e == if view == [] then null else items[0]
      ensures e != null ==> EntryOf(e) == view[0] && forall i :: 0 <= i < |view| ==> e.time <= view[i].time
    {
      if vector.elemNo == 0 {
        return null;
      }
      e := vector.elems[0];
    }

    /** Takes out the earliest event; its handle is empty afterwards. */
    method GetTop() returns (e: Event?)
      requires Valid()
      modifies Repr
      ensures Valid() && Repr == old(Repr) && clients == old(clients) && vector.capacity == old(vector.capacity)
      ensures old(view) == [] ==> e == null && view == []
      ensures old(view) != [] ==> e != null && EntryOf(e) == old(view)[0] && view == old(view)[1..]
    {
      hide Moved, Indexed, Linked;
      Footprint();
      if |items| > 0 { EntryAt(0); }
      if vector.elemNo == 0 {
        return null;
      }
      ghost var v0, s0 := view, items;
      if vector.elemNo > 1 {
        MoveToTheEnd(0);
      } else {
        MovedSelf(v0, 0);
        MovedSelf(s0, 0);
      }
      MovedToEnd(v0, 0);
      MovedToEnd(s0, 0);
      Footprint();
      e := DropLast();
    }

    method Restart(h: Handle, newTime: int) returns (state: State)
      requires Valid() && h in clients && h.event != null
      modifies Repr
      ensures Valid() && Repr == old(Repr) && clients == old(clients) && vector.capacity == old(vector.capacity)
      ensures state == OK && IndexOf(old(view), h) < |old(view)|
      ensures view == Retimed(old(view), IndexOf(old(view), h), newTime)
    {
      hide Moved, Retimed, Settled, Armed, DistinctHandles, Indexed, Linked;
      HandleLiveness(h);
      Footprint();
      var index := h.event.position;
      if index >= vector.elemNo || index < 0 {
        return ELEMENT_NOT_FOUND;
      }
      var oldTime := SetTime(index, newTime);
      ghost var v0 := old(view);
      var k;
      if newTime < oldTime {
        k := BubbleCore(index, -1);
      } else {
        k := BubbleCore(index, 1);
      }
      SettledRetimed(v0, index, newTime, k);
      RetimedSorted(v0, index, newTime);
      state := OK;
    }

    method SetTime(index: nat, newTime: int) returns (oldTime: int)
      requires Wf() && index < vector.elemNo
      modifies this`view, events`time
      ensures Wf() && |view| == |old(view)| && index < |view|
      ensures oldTime == old(view)[index].time
      ensures view == old(view)[index := old(view)[index].(time := newTime)]
    {
      var e := vector.elems[index];
      oldTime := e.time;
      e.time := newTime;
      view := view[index := EntryOf(e)];
    }

    method Cancel(h: Handle) returns (state: State, e: Event?)
      requires Valid() && h in clients && h.event != null
      modifies Repr
      ensures Valid() && Repr == old(Repr) && clients == old(clients) && vector.capacity == old(vector.capacity)
      ensures state == OK && IndexOf(old(view), h) < |old(view)|
      ensures e != null && EntryOf(e) == old(view)[IndexOf(old(view), h)]
      ensures view == RemoveAt(old(view), IndexOf(old(view), h))
    {
      hide Moved, RemoveAt, Armed, DistinctHandles, Indexed, Linked;
      HandleLiveness(h);
      Footprint();
      var index := h.event.position;
      if index >= vector.elemNo || index < 0 {
        return ELEMENT_NOT_FOUND, null;
      }
      EntryAt(index);
      ghost var v0, s0 := view, items;
      if index < vector.elemNo - 1 {
        MoveToTheEnd(index);
      } else {
        MovedSelf(v0, index);
        MovedSelf(s0, index);
      }
      MovedToEnd(v0, index);
      MovedToEnd(s0, index);
      RemoveSorted(v0, index);
      e := DropLast();
      state := OK;
    }
  }
}

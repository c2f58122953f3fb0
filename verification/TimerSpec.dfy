/** Timed events, their external handles, and the plain-sequence meaning of the timer queue. */
module TimerSpec {
  import opened Sequences

  /** A stored call: which function, with which argument. */
  datatype EventHandle = EventHandle(fn: nat, arg: object?)

  /** A time event handle. The C handle points at the event's `position` field; here it names the event. */
  class Handle {
    var event: Event?

    constructor ()
      ensures event == null
    {
      event := null;
    }
  }

  class Event {
    const id: nat
    const handler: EventHandle
    var time: int
    var position: int
    var handle: Handle?

    constructor (id: nat, handler: EventHandle, time: int)
      ensures this.id == id && this.handler == handler && this.time == time
      ensures handle == null
    {
      this.id := id;
      this.handler := handler;
      this.time := time;
      position := 0;
      handle := null;
    }
  }

  /** What one slot of the queue means. */
  datatype Entry = Entry(id: nat, time: int, handler: EventHandle, handle: Handle?)

  ghost function EntryOf(e: Event): Entry
    reads e
  {
    Entry(e.id, e.time, e.handler, e.handle)
  }

  ghost predicate Sorted(v: seq<Entry>)
  {
    forall i, j :: 0 <= i < j < |v| ==> v[i].time <= v[j].time
  }

  ghost predicate DistinctHandles(v: seq<Entry>)
  {
    forall i, j :: 0 <= i < j < |v| && v[i].handle != null ==> v[i].handle != v[j].handle
  }

  // ---------- positions ----------

  /** How many leading entries of v are due at or before t. */
  function Upper(v: seq<Entry>, t: int): (k: nat)
    ensures k <= |v|
  {
    if v == [] || v[0].time > t then 0 else 1 + Upper(v[1..], t)
  }

  /** How many leading entries of v are due strictly before t. */
  function Lower(v: seq<Entry>, t: int): (k: nat)
    ensures k <= |v|
  {
    if v == [] || v[0].time >= t then 0 else 1 + Lower(v[1..], t)
  }

  function IndexOf(v: seq<Entry>, h: Handle): (k: nat)
    ensures k <= |v|
    ensures forall j :: 0 <= j < k ==> v[j].handle != h
    ensures k < |v| ==> v[k].handle == h
  {
    if v == [] || v[0].handle == h then 0 else 1 + IndexOf(v[1..], h)
  }

  /** Some entry of v is reachable through the handle h. */
  predicate Armed(v: seq<Entry>, h: Handle)
  {
    IndexOf(v, h) < |v|
  }

  // ---------- the operations on a plain sequence ----------

  /** A new entry goes after every entry of the same time. */
  function Insert(v: seq<Entry>, x: Entry): (r: seq<Entry>)
  {
    InsertAt(v, Upper(v, x.time), x)
  }

  /** An earlier time puts the entry after its equals, a later time before its equals,
      the same time leaves it where it is. */
  function Retimed(v: seq<Entry>, i: nat, t: int): (r: seq<Entry>)
    requires i < |v|
  {
    var rest := RemoveAt(v, i);
    var x := v[i].(time := t);
    if t < v[i].time then InsertAt(rest, Upper(rest, t), x)
    else if t == v[i].time then v
    else InsertAt(rest, Lower(rest, t), x)
  }

  /** A vector of n entries and the given capacity accepts one more: there is room, or it can double
      within 8 bits and memory is granted. */
  predicate Accepts(n: nat, capacity: nat, allocOk: bool)
  {
    n < capacity || (allocOk && 2 * capacity <= 127)
  }

  function Grown(n: nat, capacity: nat): nat
  {
    if n == capacity then 2 * capacity else capacity
  }

  // ---------- bubbling one entry to its place ----------

  /** x is on the wrong side of y, its neighbour in direction dir. */
  predicate OutOfOrder(x: Entry, y: Entry, dir: int)
  {
    if dir < 0 then x.time < y.time else x.time > y.time
  }

  /** On its way from i to k, entry i has overtaken only entries it was out of order with. */
  ghost predicate Passed(v: seq<Entry>, i: nat, k: nat, dir: int)
    requires i < |v| && k < |v|
  {
    && (if dir < 0 then k <= i else i <= k)
    && (forall j :: k <= j < i || i < j <= k ==> OutOfOrder(v[i], v[j], dir))
  }

  /** ... and it stops there because it met the end or an entry it is in order with. */
  ghost predicate Settled(v: seq<Entry>, i: nat, k: nat, dir: int)
    requires i < |v| && k < |v|
  {
    && Passed(v, i, k, dir)
    && (0 <= k + dir < |v| ==> !OutOfOrder(v[i], v[k + dir], dir))
  }

  lemma PassedStart(v: seq<Entry>, i: nat, dir: int)
    requires i < |v|
    ensures Passed(v, i, i, dir)
  {
  }

  lemma SettledAtEnd(v: seq<Entry>, i: nat, k: nat, dir: int)
    requires i < |v| && k < |v| && Passed(v, i, k, dir) && !(0 <= k + dir < |v|)
    ensures Settled(v, i, k, dir)
  {
  }

  lemma PassedStep(v: seq<Entry>, i: nat, k: nat, dir: int)
    requires i < |v| && k < |v| && (dir == -1 || dir == 1) && 0 <= k + dir < |v|
    requires Passed(v, i, k, dir)
    ensures var w := Moved(v, i, k);
            && w[k] == v[i] && w[k + dir] == v[k + dir]
            && (OutOfOrder(w[k], w[k + dir], dir) ==> Passed(v, i, k + dir, dir))
            && (!OutOfOrder(w[k], w[k + dir], dir) ==> Settled(v, i, k, dir))
  {
  }

  /** Bubbling the last entry down a sorted sequence is insertion. */
  lemma SettledLast(v: seq<Entry>, k: nat)
    requires v != [] && k < |v| && Sorted(v[..|v| - 1])
    requires Settled(v, |v| - 1, k, -1)
    ensures k == Upper(v[..|v| - 1], v[|v| - 1].time)
    ensures Moved(v, |v| - 1, k) == Insert(v[..|v| - 1], v[|v| - 1])
  {
    var rest, x := v[..|v| - 1], v[|v| - 1];
    assert RemoveAt(v, |v| - 1) == rest;
    assert forall j :: 0 <= j < |rest| ==> rest[j] == v[j];
    UpperUnique(rest, x.time, k);
  }

  /** Bubbling a re-timed entry towards its new time is Retimed. */
  lemma SettledRetimed(v: seq<Entry>, i: nat, t: int, k: nat)
    requires Sorted(v) && i < |v| && k < |v|
    requires Settled(v[i := v[i].(time := t)], i, k, if t < v[i].time then -1 else 1)
    ensures Moved(v[i := v[i].(time := t)], i, k) == Retimed(v, i, t)
  {
    var w := v[i := v[i].(time := t)];
    var rest := RemoveAt(v, i);
    assert RemoveAt(w, i) == rest;
    assert forall j :: 0 <= j < |rest| ==> rest[j] == if j < i then v[j] else v[j + 1];
    if t < v[i].time {
      assert forall j :: k <= j < i ==> OutOfOrder(w[i], w[j], -1);
      UpperUnique(rest, t, k);
    } else if t > v[i].time {
      assert forall j :: i < j <= k ==> OutOfOrder(w[i], w[j], 1);
      LowerUnique(rest, t, k);
    } else {
      assert w == v && w[i].time <= w[k].time;
      MovedSelf(v, i);
    }
  }

  // ---------- lemmas ----------

  /** In a sorted sequence a split point is the upper bound, the lower bound, exactly when it separates. */
  lemma {:induction false} UpperUnique(v: seq<Entry>, t: int, k: nat)
    requires k <= |v|
    requires forall j :: 0 <= j < k ==> v[j].time <= t
    requires forall j :: k <= j < |v| ==> t < v[j].time
    ensures Upper(v, t) == k
  {
    if k > 0 {
      UpperUnique(v[1..], t, k - 1);
    }
  }

  lemma {:induction false} LowerUnique(v: seq<Entry>, t: int, k: nat)
    requires k <= |v|
    requires forall j :: 0 <= j < k ==> v[j].time < t
    requires forall j :: k <= j < |v| ==> t <= v[j].time
    ensures Lower(v, t) == k
  {
    if k > 0 {
      LowerUnique(v[1..], t, k - 1);
    }
  }

  lemma {:induction false} UpperSplits(v: seq<Entry>, t: int)
    requires Sorted(v)
    ensures forall j :: 0 <= j < Upper(v, t) ==> v[j].time <= t
    ensures forall j :: Upper(v, t) <= j < |v| ==> t < v[j].time
  {
    if v != [] && v[0].time <= t {
      UpperSplits(v[1..], t);
      assert forall j :: 0 < j < |v| ==> v[j] == v[1..][j - 1];
    }
  }

  lemma {:induction false} LowerSplits(v: seq<Entry>, t: int)
    requires Sorted(v)
    ensures forall j :: 0 <= j < Lower(v, t) ==> v[j].time < t
    ensures forall j :: Lower(v, t) <= j < |v| ==> t <= v[j].time
  {
    if v != [] && v[0].time < t {
      LowerSplits(v[1..], t);
      assert forall j :: 0 < j < |v| ==> v[j] == v[1..][j - 1];
    }
  }

  lemma RemoveSorted(v: seq<Entry>, i: nat)
    requires Sorted(v) && i < |v|
    ensures Sorted(RemoveAt(v, i))
  {
  }

  lemma InsertAtSorted(v: seq<Entry>, k: nat, x: Entry)
    requires Sorted(v) && k <= |v|
    requires forall j :: 0 <= j < k ==> v[j].time <= x.time
    requires forall j :: k <= j < |v| ==> x.time <= v[j].time
    ensures Sorted(InsertAt(v, k, x))
  {
  }

  lemma InsertSorted(v: seq<Entry>, x: Entry)
    requires Sorted(v)
    ensures Sorted(Insert(v, x))
  {
    UpperSplits(v, x.time);
    InsertAtSorted(v, Upper(v, x.time), x);
  }

  /** Filling in the handle after the entry has found its place. */
  lemma InsertThenArm(v: seq<Entry>, x: Entry, h: Handle?)
    ensures |Insert(v, x)| == |v| + 1 && Insert(v, x)[Upper(v, x.time)] == x
    ensures Insert(v, x)[Upper(v, x.time) := x.(handle := h)] == Insert(v, x.(handle := h))
  {
  }

  lemma RetimedSorted(v: seq<Entry>, i: nat, t: int)
    requires Sorted(v) && i < |v|
    ensures Sorted(Retimed(v, i, t))
  {
    var rest := RemoveAt(v, i);
    RemoveSorted(v, i);
    if t < v[i].time {
      UpperSplits(rest, t);
      InsertAtSorted(rest, Upper(rest, t), v[i].(time := t));
    } else if t > v[i].time {
      LowerSplits(rest, t);
      InsertAtSorted(rest, Lower(rest, t), v[i].(time := t));
    }
  }

  /** Where an inserted entry stands: behind everything due at or before its time, before everything due later. */
  lemma InsertPlace(v: seq<Entry>, x: Entry, k: nat)
    requires Sorted(v) && k <= |v|
    ensures k == Upper(v, x.time) <==> Separates(v, x.time, k)
    ensures k == Upper(v, x.time) ==> RemoveAt(Insert(v, x), k) == v && Insert(v, x)[k] == x
  {
    hide Sorted, Upper, RemoveAt, InsertAt;
    UpperSplits(v, x.time);
    PutBack(v, Upper(v, x.time), x);
    if Separates(v, x.time, k) {
      UpperUnique(v, x.time, k);
    }
  }

  ghost predicate Separates(v: seq<Entry>, t: int, k: nat)
    requires k <= |v|
  {
    (forall j :: 0 <= j < k ==> v[j].time <= t) && (forall j :: k <= j < |v| ==> t < v[j].time)
  }

  lemma PutBack(rest: seq<Entry>, k: nat, x: Entry)
    requires k <= |rest|
    ensures |InsertAt(rest, k, x)| == |rest| + 1 && InsertAt(rest, k, x)[k] == x
    ensures RemoveAt(InsertAt(rest, k, x), k) == rest
  {
  }

  lemma EarlierPlace(v: seq<Entry>, i: nat, t: int, k: nat)
    requires Sorted(v) && i < |v| && t < v[i].time && k == Upper(RemoveAt(v, i), t)
    ensures k <= i && forall j :: 0 <= j < i ==> (v[j].time <= t <==> j < k)
  {
    var rest := RemoveAt(v, i);
    RemoveSorted(v, i);
    UpperSplits(rest, t);
    assert forall j :: 0 <= j < i ==> rest[j] == v[j];
    assert i < |rest| ==> rest[i] == v[i + 1];
  }

  lemma LaterPlace(v: seq<Entry>, i: nat, t: int, k: nat)
    requires Sorted(v) && i < |v| && t > v[i].time && k == Lower(RemoveAt(v, i), t)
    ensures k >= i && forall j :: i < j < |v| ==> (v[j].time < t <==> j <= k)
  {
    var rest := RemoveAt(v, i);
    RemoveSorted(v, i);
    assert k < |rest| ==> rest[k] == if k < i then v[k] else v[k + 1];
    LowerSplits(rest, t);
    forall j | i < j < |v|
      ensures v[j].time < t <==> j <= k
    {
      assert rest[j - 1] == v[j];
    }
  }

  /** Where a re-timed entry ends up, ties included; the others keep their order. */
  lemma RetimedPlace(v: seq<Entry>, i: nat, t: int) returns (k: nat)
    requires Sorted(v) && i < |v|
    ensures k < |v| && |Retimed(v, i, t)| == |v|
    ensures Retimed(v, i, t)[k] == v[i].(time := t) && RemoveAt(Retimed(v, i, t), k) == RemoveAt(v, i)
    ensures t == v[i].time ==> k == i
    ensures t < v[i].time ==> k <= i && forall j :: 0 <= j < i ==> (v[j].time <= t <==> j < k)
    ensures t > v[i].time ==> k >= i && forall j :: i < j < |v| ==> (v[j].time < t <==> j <= k)
  {
    hide Sorted, RemoveAt, InsertAt, Upper, Lower;
    var rest := RemoveAt(v, i);
    k := if t < v[i].time then Upper(rest, t) else if t == v[i].time then i else Lower(rest, t);
    RemoveLength(v, i);
    PutBack(rest, k, v[i].(time := t));
    if t < v[i].time {
      EarlierPlace(v, i, t, k);
    } else if t > v[i].time {
      LaterPlace(v, i, t, k);
    }
  }

  lemma InsertLength(v: seq<Entry>, x: Entry)
    ensures |Insert(v, x)| == |v| + 1
  {
  }

  lemma RetimedLength(v: seq<Entry>, i: nat, t: int)
    requires i < |v|
    ensures |Retimed(v, i, t)| == |v|
  {
    hide InsertAt, RemoveAt, Upper, Lower;
    var rest, x := RemoveAt(v, i), v[i].(time := t);
    RemoveLength(v, i);
    PutBack(rest, Upper(rest, t), x);
    PutBack(rest, Lower(rest, t), x);
  }

  lemma RemoveLength(v: seq<Entry>, i: nat)
    requires i < |v|
    ensures |RemoveAt(v, i)| == |v| - 1
  {
  }

  // ---------- what an operation does to the entry of another handle ----------

  lemma UniqueEntry(v: seq<Entry>, k: nat, h: Handle)
    requires DistinctHandles(v) && k < |v| && v[k].handle == h
    ensures IndexOf(v, h) == k
  {
  }

  lemma IndexIs(v: seq<Entry>, h: Handle, k: nat)
    requires k <= |v| && (forall j :: 0 <= j < k ==> v[j].handle != h) && (k < |v| ==> v[k].handle == h)
    ensures IndexOf(v, h) == k
  {
  }

  lemma InsertAtIndex(v: seq<Entry>, k: nat, x: Entry, h: Handle)
    requires k <= |v| && x.handle != h
    ensures var i, w := IndexOf(v, h), InsertAt(v, k, x);
            && IndexOf(w, h) == (if i < k then i else i + 1) && |w| == |v| + 1
            && (i < |v| ==> w[IndexOf(w, h)] == v[i])
  {
    var i, w := IndexOf(v, h), InsertAt(v, k, x);
    assert forall j :: 0 <= j < |w| ==> w[j] == if j < k then v[j] else if j == k then x else v[j - 1];
    IndexIs(w, h, if i < k then i else i + 1);
  }

  lemma RemoveAtIndex(v: seq<Entry>, k: nat, h: Handle)
    requires k < |v| && v[k].handle != h
    ensures var i, w := IndexOf(v, h), RemoveAt(v, k);
            && IndexOf(w, h) == (if i < k then i else i - 1) && |w| == |v| - 1
            && (i < |v| ==> w[IndexOf(w, h)] == v[i])
  {
    var i, w := IndexOf(v, h), RemoveAt(v, k);
    assert forall j :: 0 <= j < |w| ==> w[j] == if j < k then v[j] else v[j + 1];
    assert i != k;
    IndexIs(w, h, if i < k then i else i - 1);
  }

  /** The entry reached through h, and whether there is one, is the same in both queues. */
  ghost predicate SameFor(v: seq<Entry>, w: seq<Entry>, h: Handle)
  {
    (Armed(w, h) <==> Armed(v, h)) && (Armed(v, h) ==> w[IndexOf(w, h)] == v[IndexOf(v, h)])
  }

  lemma InsertKeepsOther(v: seq<Entry>, x: Entry, h: Handle)
    requires x.handle != h
    ensures SameFor(v, Insert(v, x), h)
  {
    hide Upper, InsertAt, IndexOf;
    InsertAtIndex(v, Upper(v, x.time), x, h);
  }

  lemma RemoveKeepsOther(v: seq<Entry>, k: nat, h: Handle)
    requires k < |v| && v[k].handle != h
    ensures SameFor(v, RemoveAt(v, k), h)
  {
    hide RemoveAt, IndexOf;
    RemoveAtIndex(v, k, h);
  }

  lemma RemoveDistinct(v: seq<Entry>, k: nat)
    requires DistinctHandles(v) && k < |v|
    ensures DistinctHandles(RemoveAt(v, k))
    ensures v[k].handle != null ==> !Armed(RemoveAt(v, k), v[k].handle)
  {
  }

  lemma RetimedKeepsOther(v: seq<Entry>, k: nat, t: int, h: Handle)
    requires k < |v| && v[k].handle != h
    ensures SameFor(v, Retimed(v, k, t), h)
  {
    hide Upper, Lower, InsertAt, RemoveAt, IndexOf;
    var rest, x := RemoveAt(v, k), v[k].(time := t);
    RemoveAtIndex(v, k, h);
    if t < v[k].time {
      InsertAtIndex(rest, Upper(rest, t), x, h);
    } else if t > v[k].time {
      InsertAtIndex(rest, Lower(rest, t), x, h);
    }
  }

  /** A re-timed entry is still reached through its handle. */
  lemma RetimedKeepsOwn(v: seq<Entry>, i: nat, t: int, h: Handle)
    requires IndexOf(v, h) == i < |v| && DistinctHandles(v)
    ensures var w := Retimed(v, i, t); Armed(w, h) && w[IndexOf(w, h)] == v[i].(time := t)
  {
    hide Upper, Lower, InsertAt, RemoveAt;
    var rest, x := RemoveAt(v, i), v[i].(time := t);
    if t != v[i].time {
      RemovedOwn(v, i, h);
      PutOwn(rest, if t < v[i].time then Upper(rest, t) else Lower(rest, t), x, h);
    }
  }

  lemma RemovedOwn(v: seq<Entry>, i: nat, h: Handle)
    requires DistinctHandles(v) && IndexOf(v, h) == i < |v|
    ensures |RemoveAt(v, i)| == |v| - 1 && !Armed(RemoveAt(v, i), h)
  {
    var w := RemoveAt(v, i);
    assert forall j :: 0 <= j < |w| ==> w[j] == if j < i then v[j] else v[j + 1];
    IndexIs(w, h, |w|);
  }

  /** An entry put into a queue is what its handle reaches there. */
  lemma PutOwn(v: seq<Entry>, k: nat, x: Entry, h: Handle)
    requires k <= |v| && x.handle == h && !Armed(v, h)
    ensures var w := InsertAt(v, k, x); IndexOf(w, h) == k < |w| && w[k] == x
  {
    var w := InsertAt(v, k, x);
    assert forall j :: 0 <= j < k ==> w[j] == v[j];
    IndexIs(w, h, k);
  }
}

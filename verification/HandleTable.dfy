/** The slot table of iotc_handle.c: an object's handle is the index of its slot, freed slots hold null. */
module HandleTables {
  import opened Vectors

  datatype TableState = FOUND | NOT_FOUND | NO_MORE_RESOURCE

  const INVALID_HANDLE := -1

  /** The first index at which s holds x, or |s|. */
  function FirstOf<T(==)>(s: seq<T>, x: T): (k: nat)
    ensures k <= |s| && (forall j :: 0 <= j < k ==> s[j] != x) && (k < |s| ==> s[k] == x)
  {
    if s == [] || s[0] == x then 0 else 1 + FirstOf(s[1..], x)
  }

  function ObjectFor<T>(s: seq<T>, nil: T, handle: int): T
  {
    var i := Int8(handle);
    if |s| <= i || i < 0 then nil else s[i]
  }

  /** The first free slot is reused; without one the table grows, up to a limit. A push that fails for
      lack of memory goes unnoticed. */
  function Registered<T(==)>(s: seq<T>, nil: T, max: int, x: T, grows: bool): seq<T>
  {
    var k := FirstOf(s, nil);
    if k < |s| then s[k := x] else if |s| >= max || !grows then s else s + [x]
  }

  function Deleted<T(==)>(s: seq<T>, nil: T, x: T): seq<T>
  {
    var k := FirstOf(s, x);
    if k < |s| then s[k := nil] else s
  }

  // ---------- the operations ----------

  method ObjectForHandle<T(0)>(v: Vector<T>, handle: int) returns (object_: T)
    requires v.Valid()
    ensures object_ == ObjectFor(v.Contents(), v.zero, handle)
  {
    var index := Int8(handle);
    if v.elemNo <= index || index < 0 {
      return v.zero;
    }
    object_ := v.elems[index];
  }

  method FindHandle<T(==, 0)>(v: Vector<T>, x: T) returns (state: TableState, handle: int)
    requires v.Valid()
    ensures var k := FirstOf(v.Contents(), x);
            if k < v.elemNo then state == FOUND && handle == k else state == NOT_FOUND && handle == INVALID_HANDLE
  {
    var index := v.Find(e => e == x);
    FirstOfUnique(v.Contents(), x, if index < 0 then v.elemNo else index);
    if index < 0 {
      return NOT_FOUND, INVALID_HANDLE;
    }
    return FOUND, index;
  }

  method DeleteHandle<T(==, 0)>(v: Vector<T>, x: T) returns (state: TableState)
    requires v.Valid()
    modifies v.elems
    ensures v.Valid() && v.Contents() == Deleted(old(v.Contents()), v.zero, x)
    ensures state == if FirstOf(old(v.Contents()), x) < v.elemNo then FOUND else NOT_FOUND
  {
    var index := v.Find(e => e == x);
    FirstOfUnique(v.Contents(), x, if index < 0 then v.elemNo else index);
    if index < 0 {
      return NOT_FOUND;
    }
    v.elems[index] := v.zero;
    state := FOUND;
  }

  method RegisterHandle<T(==, 0)>(v: Vector<T>, max: int, x: T, pushOk: bool) returns (state: TableState)
    requires v.Valid()
    modifies v`elems, v`capacity, v`elemNo, v.elems
    ensures v.Valid() && (v.elems == old(v.elems) || (fresh(v.elems) && v.elemNo > old(v.elemNo)))
    ensures var s := old(v.Contents());
            var grows := |s| < old(v.capacity) || (v.managed && pushOk && 2 * old(v.capacity) <= INT8_MAX);
            && v.Contents() == Registered(s, v.zero, max, x, grows)
            && state == if FirstOf(s, v.zero) == |s| && |s| >= max then NO_MORE_RESOURCE else FOUND
    ensures v.capacity == if v.elemNo > old(v.elemNo) && old(v.elemNo) == old(v.capacity) then 2 * old(v.capacity)
                          else old(v.capacity)
  {
    ghost var s := v.Contents();
    var index := v.Find(e => e == v.zero);
    FirstOfUnique(s, v.zero, if index < 0 then v.elemNo else index);
    if index < 0 {
      if v.elemNo >= max {
        return NO_MORE_RESOURCE;
      }
      var pushed := v.Push(x, pushOk);
    } else {
      v.elems[index] := x;
    }
    state := FOUND;
  }

  lemma {:induction false} FirstOfUnique<T>(s: seq<T>, x: T, k: nat)
    requires k <= |s| && (k < |s| ==> s[k] == x) && forall j :: 0 <= j < k ==> s[j] != x
    ensures FirstOf(s, x) == k
  {
    if k > 0 {
      FirstOfUnique(s[1..], x, k - 1);
    }
  }

  // ---------- what the table promises ----------

  /** No object has two handles, and the table is small enough for 8-bit indices. */
  ghost predicate Table<T>(s: seq<T>, nil: T)
  {
    |s| <= 127 && forall i, j :: 0 <= i < j < |s| && s[i] != nil ==> s[i] != s[j]
  }

  lemma SmallHandles()
    ensures forall h :: 0 <= h <= 127 ==> Int8(h) == h
  {
  }

  /** Find and lookup are inverse on the objects of the table. */
  lemma LookupFind<T>(s: seq<T>, nil: T, handle: nat)
    requires Table(s, nil) && handle < |s| && s[handle] != nil
    ensures ObjectFor(s, nil, handle) == s[handle] && FirstOf(s, s[handle]) == handle
  {
    FirstOfUnique(s, s[handle], handle);
  }

  /** Registering a new object keeps every handle given out, uses the lowest free slot, and makes the
      object findable exactly when there was a slot to use. */
  lemma RegisterKeeps<T>(s: seq<T>, nil: T, max: int, x: T, grows: bool)
    requires Table(s, nil) && x != nil && x !in s && (grows ==> |s| < 127)
    ensures var r := Registered(s, nil, max, x, grows);
            && Table(r, nil) && |r| <= (if |s| < max then max else |s|)
            && (forall h :: 0 <= h < |s| && s[h] != nil ==> ObjectFor(r, nil, h) == s[h])
            && (FirstOf(r, x) < |r| <==> nil in s || (|s| < max && grows))
            && (FirstOf(r, x) < |r| ==>
                  && FirstOf(r, x) == FirstOf(s, nil) && ObjectFor(r, nil, FirstOf(r, x)) == x
                  && (forall h :: 0 <= h < FirstOf(r, x) ==> s[h] != nil))
  {
    hide Int8;
    SmallHandles();
    var r := Registered(s, nil, max, x, grows);
    var k := FirstOf(s, nil);
    if k < |s| || (|s| < max && grows) {
      FirstOfUnique(r, x, k);
    } else {
      FirstOfUnique(r, x, |r|);
    }
  }

  /** Deleting an object frees its slot and leaves every other handle alone. */
  lemma DeleteKeeps<T>(s: seq<T>, nil: T, x: T)
    requires Table(s, nil) && x != nil
    ensures var r := Deleted(s, nil, x);
            && Table(r, nil) && |r| == |s| && FirstOf(r, x) == |r|
            && (forall h :: 0 <= h < |s| && s[h] != x ==> r[h] == s[h] && ObjectFor(r, nil, h) == s[h])
            && (x in s ==> ObjectFor(r, nil, FirstOf(s, x)) == nil)
  {
    hide Int8;
    SmallHandles();
    FirstOfUnique(Deleted(s, nil, x), x, |s|);
  }

  /** A handle out of the 8-bit range is not rejected: it reaches the slot of its low byte. */
  lemma HandlesAlias<T>(s: seq<T>, nil: T, handle: int, turns: int)
    ensures ObjectFor(s, nil, handle + 256 * turns) == ObjectFor(s, nil, handle)
  {
    assert (handle + 128 + 256 * turns) % 256 == (handle + 128) % 256;
  }

  /** So a lookup is refused exactly when the low byte, read as signed, is no index of a used slot. */
  lemma LookupRefusedIff<T>(s: seq<T>, nil: T, handle: int)
    ensures ObjectFor(s, nil, handle) != nil <==>
              exists i :: 0 <= i < |s| && i <= 127 && (handle - i) % 256 == 0 && s[i] != nil
  {
    var t := Int8(handle);
    if ObjectFor(s, nil, handle) != nil {
      assert 0 <= t < |s| && (handle - t) % 256 == 0 && s[t] != nil;
    }
    forall i | 0 <= i < |s| && i <= 127 && (handle - i) % 256 == 0 && s[i] != nil
      ensures t == i
    {
    }
  }

  // ---------- sequences of operations ----------

  datatype TableOp<T> = Register(x: T, max: int, grows: bool) | Delete(x: T)

  function After<T(==)>(s: seq<T>, nil: T, op: TableOp<T>): seq<T>
  {
    match op
    case Register(x, max, grows) => Registered(s, nil, max, x, grows)
    case Delete(x) => Deleted(s, nil, x)
  }

  function AfterAll<T(==)>(s: seq<T>, nil: T, ops: seq<TableOp<T>>): seq<T>
    decreases |ops|
  {
    if ops == [] then s else AfterAll(After(s, nil, ops[0]), nil, ops[1..])
  }

  /** Nothing is registered twice, and the table stays within 8-bit indices. */
  ghost predicate Orderly<T>(s: seq<T>, nil: T, ops: seq<TableOp<T>>)
    decreases |ops|
  {
    ops == [] ||
    (ops[0].x != nil && (ops[0].Register? ==> ops[0].x !in s && (ops[0].grows ==> |s| < 127))
     && Orderly(After(s, nil, ops[0]), nil, ops[1..]))
  }

  lemma AfterOne<T>(s: seq<T>, nil: T, op: TableOp<T>, handle: nat)
    requires Table(s, nil) && Orderly(s, nil, [op])
    requires handle < |s| && s[handle] != nil && op != Delete(s[handle])
    ensures var r := After(s, nil, op); Table(r, nil) && handle < |r| && r[handle] == s[handle]
  {
    hide Int8;
    match op
    case Register(x, max, grows) => RegisterKeeps(s, nil, max, x, grows);
    case Delete(x) => DeleteKeeps(s, nil, x);
  }

  /** Whatever is registered and deleted, a handle leads to its object, and the object to it, until that object is
      deleted. */
  lemma {:induction false} HandleLives<T>(s: seq<T>, nil: T, ops: seq<TableOp<T>>, handle: nat)
    requires Table(s, nil) && Orderly(s, nil, ops) && handle < |s| && s[handle] != nil && Delete(s[handle]) !in ops
    ensures var r := AfterAll(s, nil, ops);
            Table(r, nil) && ObjectFor(r, nil, handle) == s[handle] && FirstOf(r, s[handle]) == handle < |r|
    decreases |ops|
  {
    hide After, Table, ObjectFor, FirstOf;
    if ops == [] {
      LookupFind(s, nil, handle);
    } else {
      assert Delete(s[handle]) !in ops[1..];
      FirstOrderly(s, nil, ops);
      AfterOne(s, nil, ops[0], handle);
      HandleLives(After(s, nil, ops[0]), nil, ops[1..], handle);
    }
  }

  lemma FirstOrderly<T>(s: seq<T>, nil: T, ops: seq<TableOp<T>>)
    requires Orderly(s, nil, ops) && ops != []
    ensures Orderly(s, nil, [ops[0]])
  {
    assert [ops[0]][1..] == [];
  }
}

/** The growable vector of iotc_vector.c: element count and capacity are 8-bit signed,
    growth doubles the capacity, deletion swaps the last element into the hole. */
module Vectors {
  import opened Sequences

  const DEFAULT_CAPACITY := 2
  const INT8_MAX := 127

  /** What converting an int to int8_t yields. */
  function Int8(x: int): (i: int)
    ensures -128 <= i <= INT8_MAX
  {
    (x + 128) % 256 - 128
  }

  class Vector<T(0)> {
    var elems: array<T>
    var elemNo: int
    var capacity: int
    const managed: bool
    const zero: T

    ghost predicate Valid()
      reads this, elems
    {
      && 1 <= capacity <= INT8_MAX && capacity <= elems.Length
      && 0 <= elemNo <= capacity
    }

    ghost function Contents(): seq<T>
      requires Valid()
      reads this, elems
    {
      elems[..elemNo]
    }

    constructor (zero: T)
      ensures Valid() && fresh(elems) && Contents() == []
      ensures managed && capacity == DEFAULT_CAPACITY && this.zero == zero
    {
      this.zero := zero;
      managed := true;
      elemNo := 0;
      capacity := DEFAULT_CAPACITY;
      elems := new T[DEFAULT_CAPACITY];
    }

    /** Wraps an existing block; an unmanaged block is never reallocated. The length is cut to 8 bits. */
    constructor From(block: array<T>, zero: T, managed: bool)
      requires block.Length > 0
      ensures elems == block && elemNo == capacity == Int8(block.Length)
      ensures this.managed == managed && this.zero == zero
      ensures Valid() <==> Int8(block.Length) > 0
      ensures Valid() ==> Contents() == block[..Int8(block.Length)]
    {
      this.zero := zero;
      this.managed := managed;
      elemNo := Int8(block.Length);
      capacity := Int8(block.Length);
      elems := block;
    }

    /** `iotc_vector_create_from`. */
    static method CreateFrom(block: array<T>, zero: T, managed: bool, vectorOk: bool) returns (v: Vector?<T>)
      requires block.Length > 0
      ensures v != null <==> vectorOk
      ensures v != null ==>
                && fresh(v) && v.elems == block && v.managed == managed && v.zero == zero
                && v.elemNo == v.capacity == Int8(block.Length) && (v.Valid() <==> Int8(block.Length) > 0)
      ensures v != null && block.Length <= INT8_MAX ==> v.Valid() && v.Contents() == block[..]
    {
      if !vectorOk {
        return null;
      }
      v := new Vector<T>.From(block, zero, managed);
    }

    /** `iotc_vector_create`: the vector, and then its first block. */
    static method Create(zero: T, vectorOk: bool, blockOk: bool) returns (v: Vector?<T>)
      ensures v != null <==> vectorOk && blockOk
      ensures v != null ==>
                && fresh(v) && v.Valid() && fresh(v.elems) && v.Contents() == []
                && v.managed && v.capacity == DEFAULT_CAPACITY && v.zero == zero
    {
      if !vectorOk || !blockOk {
        return null;
      }
      v := new Vector(zero);
    }

    /** `newSize` is the argument before its conversion to int8_t. A negative size becomes an
        enormous byte count, which no allocator grants. The new block must hold the elements. */
    method Realloc(newSize: int, allocOk: bool) returns (ok: bool)
      requires Valid() && Int8(newSize) != 0 && Int8(newSize) != capacity
      requires Int8(newSize) < 0 || elemNo <= Int8(newSize)
      modifies this`elems, this`capacity
      ensures Valid() && Contents() == old(Contents())
      ensures forall j :: 0 <= j < elemNo ==> elems[j] == old(elems[j])
      ensures ok == (managed && allocOk && Int8(newSize) > 0)
      ensures capacity == if ok then Int8(newSize) else old(capacity)
      ensures if ok then fresh(elems) else elems == old(elems)
    {
      var size := Int8(newSize);
      if !managed || size < 0 || !allocOk {
        return false;
      }
      var newArray := new T[size];
      var i := 0;
      while i < elemNo
        invariant 0 <= i <= elemNo
        invariant newArray[..i] == elems[..i]
        invariant forall j :: 0 <= j < i ==> newArray[j] == elems[j]
        modifies newArray
      {
        newArray[i] := elems[i];
        i := i + 1;
      }
      elems := newArray;
      capacity := size;
      ok := true;
    }

    /** `iotc_vector_reserve`: elements beyond the new size are dropped, even if the block then cannot be
        replaced. */
    method Reserve(n: int, allocOk: bool) returns (ok: bool)
      requires Valid() && 0 < n <= INT8_MAX
      modifies this`elems, this`capacity, this`elemNo
      ensures Valid() && ok == (n == old(capacity) || (managed && allocOk))
      ensures capacity == if ok then n else old(capacity)
      ensures Contents() == if n < old(elemNo) then old(Contents())[..n] else old(Contents())
    {
      if n == capacity {
        return true;
      }
      if elemNo > n {
        elemNo := n;
      }
      ok := Realloc(n, allocOk);
    }

    /** A failed push changes nothing; it fails exactly when the block is full and cannot grow,
        in particular once the capacity has reached 64. */
    method Push(value: T, allocOk: bool) returns (ok: bool)
      requires Valid()
      modifies this`elems, this`capacity, this`elemNo, elems
      ensures Valid()
      ensures ok == (old(elemNo) < old(capacity) || (managed && allocOk && 2 * old(capacity) <= INT8_MAX))
      ensures Contents() == if ok then old(Contents()) + [value] else old(Contents())
      ensures forall j :: 0 <= j < old(elemNo) ==> elems[j] == old(elems[j])
      ensures ok ==> elems[old(elemNo)] == value
      ensures capacity == if ok && old(elemNo) == old(capacity) then 2 * old(capacity) else old(capacity)
      ensures elems == old(elems) || (ok && fresh(elems))
    {
      if elemNo + 1 > capacity {
        ok := Realloc(capacity * 2, allocOk);
        if !ok {
          return false;
        }
      }
      elems[elemNo] := value;
      elemNo := elemNo + 1;
      ok := true;
    }

    method SwapElems(i0: nat, i1: nat)
      requires Valid() && i0 < elemNo && i1 < elemNo
      modifies elems
      ensures Contents() == Swapped(old(Contents()), i0, i1)
      ensures elems[i0] == old(elems[i1]) && elems[i1] == old(elems[i0])
      ensures forall j :: 0 <= j < elems.Length && j != i0 && j != i1 ==> elems[j] == old(elems[j])
    {
      var tmp := elems[i0];
      elems[i0] := elems[i1];
      elems[i1] := tmp;
    }

    method Del(index: nat)
      requires Valid() && index < elemNo
      modifies this`elemNo, elems
      ensures Valid() && elemNo == old(elemNo) - 1
      ensures Contents() == Swapped(old(Contents()), index, old(elemNo) - 1)[..old(elemNo) - 1]
      ensures forall j :: 0 <= j < elemNo && j != index ==> elems[j] == old(elems[j])
    {
      if index != elemNo - 1 {
        SwapElems(index, elemNo - 1);
      }
      elemNo := elemNo - 1;
      elems[elemNo] := zero;
    }

    /** The first index whose element matches, or -1. */
    method Find(matches: T -> bool) returns (index: int)
      requires Valid()
      ensures -1 <= index < elemNo
      ensures index >= 0 ==> matches(elems[index]) && forall j :: 0 <= j < index ==> !matches(elems[j])
      ensures index == -1 ==> forall j :: 0 <= j < elemNo ==> !matches(elems[j])
    {
      var i := 0;
      while i < elemNo
        invariant 0 <= i <= elemNo
        invariant forall j :: 0 <= j < i ==> !matches(elems[j])
      {
        if matches(elems[i]) {
          return i;
        }
        i := i + 1;
      }
      return -1;
    }

    /** The predicate is applied to every original element once, last to first, and exactly the
        elements it rejects remain (in an order that deletion may have disturbed). */
    method RemoveIf(pred: T -> bool) returns (ghost tested: seq<T>)
      requires Valid()
      modifies this`elemNo, elems
      ensures Valid()
      ensures tested == Reversed(old(Contents()))
      ensures multiset(Contents()) == multiset(Rejected(old(Contents()), pred))
    {
      hide Rejected, Reversed, Scanned, Swapped, Valid;
      ghost var was := Contents();
      ghost var all := was;
      CountIs();
      var i := elemNo - 1;
      tested := [];
      ScanStart(was, pred);
      while i >= 0
        invariant Valid() && elems == old(elems) && all == Contents() && |all| == elemNo
        invariant -1 <= i < |all| <= |was|
        invariant Scanned(all, was, i + 1, pred) && tested == Reversed(was[i + 1..])
      {
        ScanStep(all, was, i, pred);
        ghost var x := TestOne(i, pred);
        tested := tested + [x];
        all := Contents();
        i := i - 1;
      }
      ScanEnd(all, was, pred);
    }

    /** Deletes the element if the predicate selects it. */
    method TestOne(i: int, pred: T -> bool) returns (ghost x: T)
      requires Valid() && 0 <= i < elemNo
      modifies this`elemNo, elems
      ensures Valid() && x == old(Contents())[i]
      ensures |Contents()| == elemNo == old(elemNo) - if pred(x) then 1 else 0
      ensures Contents() == if pred(x) then Swapped(old(Contents()), i, |old(Contents())| - 1)[..|old(Contents())| - 1]
                            else old(Contents())
    {
      x := elems[i];
      if pred(elems[i]) {
        Del(i);
      }
    }

    lemma CountIs()
      requires Valid()
      ensures |Contents()| == elemNo >= 0
    {
    }
  }

  /** The backward scan has dealt with the elements from k on. */
  ghost predicate Scanned<T>(all: seq<T>, was: seq<T>, k: nat, pred: T -> bool)
    requires k <= |all| <= |was|
  {
    all[..k] == was[..k] && multiset(all[k..]) == multiset(Rejected(was[k..], pred))
  }

  lemma ScanStart<T>(was: seq<T>, pred: T -> bool)
    ensures Scanned(was, was, |was|, pred) && Reversed(was[|was|..]) == []
  {
  }

  lemma ScanEnd<T>(all: seq<T>, was: seq<T>, pred: T -> bool)
    requires |all| <= |was| && Scanned(all, was, 0, pred)
    ensures multiset(all) == multiset(Rejected(was, pred)) && was[0..] == was
  {
    assert all[0..] == all && was[0..] == was;
  }

  /** One step of the backward scan, for either verdict of the predicate. */
  lemma ScanStep<T>(all: seq<T>, was: seq<T>, i: nat, pred: T -> bool)
    requires i < |all| <= |was| && Scanned(all, was, i + 1, pred)
    ensures all[i] == was[i]
    ensures Reversed(was[i..]) == Reversed(was[i + 1..]) + [was[i]]
    ensures !pred(all[i]) ==> Scanned(all, was, i, pred)
    ensures pred(all[i]) ==> Scanned(Swapped(all, i, |all| - 1)[..|all| - 1], was, i, pred)
  {
    assert all[..i + 1][i] == was[..i + 1][i];
    assert all[..i] == all[..i + 1][..i] == was[..i + 1][..i] == was[..i];
    assert was[i..][1..] == was[i + 1..];
    assert all[i..] == [all[i]] + all[i + 1..];
    DropOne(all, i, all[i + 1..]);
  }

  /** Swapping the last element into position i and dropping the end keeps the tail's multiset. */
  lemma DropOne<T>(all: seq<T>, i: nat, tail: seq<T>)
    requires i < |all| && tail == all[i + 1..]
    ensures multiset(Swapped(all, i, |all| - 1)[..|all| - 1][i..]) == multiset(tail)
    ensures Swapped(all, i, |all| - 1)[..|all| - 1][..i] == all[..i]
  {
    var n := |all|;
    var r := Swapped(all, i, n - 1)[..n - 1][i..];
    if i == n - 1 {
      assert r == [] && tail == [];
    } else {
      assert r == [all[n - 1]] + all[i + 1..n - 1];
      assert tail == all[i + 1..n - 1] + [all[n - 1]];
    }
  }
}

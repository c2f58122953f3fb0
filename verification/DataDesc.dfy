/** The growable descriptor of iotc_data_desc.c, with the highest-bit filter of iotc_helpers.c that
    decides by how much it grows. */
module DataDescs {

  newtype byte = x: int | 0 <= x < 256

  const WORD := 0x1_0000_0000
  const HALF_WORD := 0x8000_0000

  // ---------- 32-bit words, most significant bit first ----------

  function Shr(v: seq<bool>, k: nat): (r: seq<bool>)
    ensures |r| == |v| && forall i :: 0 <= i < |v| ==> r[i] == (i >= k && v[i - k])
  {
    seq(|v|, i requires 0 <= i < |v| => i >= k && v[i - k])
  }

  function Or(a: seq<bool>, b: seq<bool>): (r: seq<bool>)
    requires |a| == |b|
    ensures |r| == |a| && forall i :: 0 <= i < |a| ==> r[i] == (a[i] || b[i])
  {
    seq(|a|, i requires 0 <= i < |a| => a[i] || b[i])
  }

  function AndNot(a: seq<bool>, b: seq<bool>): (r: seq<bool>)
    requires |a| == |b|
    ensures |r| == |a| && forall i :: 0 <= i < |a| ==> r[i] == (a[i] && !b[i])
  {
    seq(|a|, i requires 0 <= i < |a| => a[i] && !b[i])
  }

  function Value(v: seq<bool>): nat
  {
    if v == [] then 0 else 2 * Value(v[..|v| - 1]) + if v[|v| - 1] then 1 else 0
  }

  function Bits(n: nat, width: nat): (v: seq<bool>)
    ensures |v| == width
  {
    if width == 0 then [] else Bits(n / 2, width - 1) + [n % 2 == 1]
  }

  function Pow2(k: nat): (p: nat)
    ensures p > 0
  {
    if k == 0 then 1 else 2 * Pow2(k - 1)
  }

  /** Every bit spread to all the places on its right. */
  function SpreadRight(v: seq<bool>): (e: seq<bool>)
    ensures |e| == |v|
  {
    var a := Or(v, Shr(v, 1));
    var b := Or(a, Shr(a, 2));
    var c := Or(b, Shr(b, 4));
    var d := Or(c, Shr(c, 8));
    Or(d, Shr(d, 16))
  }

  /** Spread, then keep a bit where its left neighbour is not set. */
  function Filter(v: seq<bool>): (r: seq<bool>)
    ensures |r| == |v|
  {
    var e := SpreadRight(v);
    AndNot(e, Shr(e, 1))
  }

  function HighestBitFilter(value: nat): nat
    requires value < WORD
  {
    Value(Filter(Bits(value, 32)))
  }

  lemma {:induction false} ValueBits(n: nat, width: nat)
    requires n < Pow2(width)
    ensures Value(Bits(n, width)) == n
  {
    if width > 0 {
      ValueBits(n / 2, width - 1);
      var v := Bits(n, width);
      assert v[..width - 1] == Bits(n / 2, width - 1);
    }
  }

  /** Bit i is set in e as soon as one of the n bits of v ending there is. */
  ghost predicate Spread(e: seq<bool>, v: seq<bool>, n: nat)
  {
    && |e| == |v|
    && (forall i, j :: 0 <= j <= i < |v| && i - j < n && v[j] ==> e[i])
    && (forall i :: 0 <= i < |v| && e[i] ==> exists j :: 0 <= j <= i && i - j < n && v[j])
  }

  lemma SpreadDoubles(e: seq<bool>, v: seq<bool>, n: nat)
    requires Spread(e, v, n) && n > 0
    ensures Spread(Or(e, Shr(e, n)), v, 2 * n)
  {
    var f := Or(e, Shr(e, n));
    forall i, j | 0 <= j <= i < |v| && i - j < 2 * n && v[j]
      ensures f[i]
    {
      if i - j >= n {
        assert e[i - n];
      }
    }
    forall i | 0 <= i < |v| && f[i]
      ensures exists j :: 0 <= j <= i && i - j < 2 * n && v[j]
    {
      if e[i] {
        var j :| 0 <= j <= i && i - j < n && v[j];
      } else {
        var j :| 0 <= j <= i - n && i - n - j < n && v[j];
      }
    }
  }

  lemma SpreadStart(v: seq<bool>)
    ensures Spread(v, v, 1)
  {
  }

  lemma SpreadsAll(v: seq<bool>)
    ensures Spread(SpreadRight(v), v, 32)
  {
    hide Spread, Or, Shr;
    var a := Or(v, Shr(v, 1));
    var b := Or(a, Shr(a, 2));
    var c := Or(b, Shr(b, 4));
    var d := Or(c, Shr(c, 8));
    SpreadStart(v);
    SpreadDoubles(v, v, 1);
    SpreadDoubles(a, v, 2);
    SpreadDoubles(b, v, 4);
    SpreadDoubles(c, v, 8);
    SpreadDoubles(d, v, 16);
  }

  /** The filter keeps the first set bit and clears the others. */
  lemma FilterFirst(v: seq<bool>, p: nat)
    requires |v| <= 32 && p < |v| && v[p] && forall j :: 0 <= j < p ==> !v[j]
    ensures forall i :: 0 <= i < |v| ==> Filter(v)[i] == (i == p)
  {
    hide SpreadRight;
    SpreadsAll(v);
    var e := SpreadRight(v);
    forall i | 0 <= i < |v|
      ensures e[i] == (i >= p)
    {
      if e[i] {
        var j :| 0 <= j <= i && i - j < 32 && v[j];
      }
    }
  }

  lemma {:induction false} ValueLeading(v: seq<bool>, p: nat)
    requires p < |v| && v[p] && forall j :: 0 <= j < p ==> !v[j]
    ensures Pow2(|v| - 1 - p) <= Value(v) < 2 * Pow2(|v| - 1 - p)
    ensures (forall j :: p < j < |v| ==> !v[j]) ==> Value(v) == Pow2(|v| - 1 - p)
    decreases |v|
  {
    if p == |v| - 1 {
      ValueZero(v[..p]);
    } else {
      ValueLeading(v[..|v| - 1], p);
    }
  }

  lemma {:induction false} ValueZero(v: seq<bool>)
    requires forall j :: 0 <= j < |v| ==> !v[j]
    ensures Value(v) == 0
  {
    if v != [] {
      ValueZero(v[..|v| - 1]);
    }
  }

  lemma Pow2Of32()
    ensures Pow2(31) == HALF_WORD && Pow2(32) == WORD
  {
    assert Pow2(8) == 0x100;
    assert Pow2(16) == 0x1_0000;
    assert Pow2(24) == 0x100_0000;
  }

  lemma {:induction false} FirstSet(v: seq<bool>) returns (p: nat)
    requires Value(v) > 0
    ensures p < |v| && v[p] && forall j :: 0 <= j < p ==> !v[j]
  {
    if exists j :: 0 <= j < |v| - 1 && v[j] {
      var j :| 0 <= j < |v| - 1 && v[j];
      if Value(v[..|v| - 1]) == 0 {
        ValueSet(v[..|v| - 1], j);
      }
      p := FirstSet(v[..|v| - 1]);
    } else {
      p := |v| - 1;
      ValueZero(v[..p]);
    }
  }

  lemma {:induction false} ValueSet(v: seq<bool>, j: nat)
    requires j < |v| && v[j]
    ensures Value(v) > 0
  {
    if j < |v| - 1 {
      ValueSet(v[..|v| - 1], j);
    }
  }

  /** The filter yields the greatest power of two that is not above the value. */
  lemma HighestBit(value: nat) returns (k: nat)
    requires 0 < value < WORD
    ensures k < 32 && HighestBitFilter(value) == Pow2(k) && Pow2(k) <= value < 2 * Pow2(k)
  {
    hide Bits, Value, Filter;
    Pow2Of32();
    var v := Bits(value, 32);
    ValueBits(value, 32);
    var p := FirstSet(v);
    FilterFirst(v, p);
    ValueLeading(v, p);
    ValueLeading(Filter(v), p);
    k := 31 - p;
  }

  // ---------- the growth rule ----------

  /** `tmp <<= 1` on a 32-bit word. */
  function Doubled(x: nat): nat
  {
    2 * x % WORD
  }

  function FindPow2Capacity(original: nat, desire: nat): nat
    requires original < WORD && desire < WORD
  {
    if desire <= original then original
    else
      var tmp := HighestBitFilter(desire);
      if tmp < desire then Doubled(tmp) else tmp
  }

  ghost predicate IsPow2(n: nat)
  {
    exists k: nat :: n == Pow2(k)
  }

  lemma {:induction false} Pow2Monotone(k: nat, j: nat)
    requires k < j
    ensures 2 * Pow2(k) <= Pow2(j)
  {
    if k < j - 1 {
      Pow2Monotone(k, j - 1);
    }
  }

  /** Growth picks the smallest power of two that meets the need. */
  lemma GrowsToSmallest(original: nat, desire: nat)
    requires original < desire <= HALF_WORD
    ensures var r := FindPow2Capacity(original, desire);
            && desire <= r <= HALF_WORD && r < 2 * desire && IsPow2(r)
            && forall j: nat :: desire <= Pow2(j) ==> r <= Pow2(j)
  {
    hide HighestBitFilter;
    var k := HighestBit(desire);
    var r := FindPow2Capacity(original, desire);
    Pow2Of32();
    var m := if Pow2(k) == desire then k else k + 1;
    if k == 31 {
      assert Pow2(k) == desire;
    }
    assert r == Pow2(m);
    forall j: nat | desire <= Pow2(j)
      ensures r <= Pow2(j)
    {
      if j < m {
        Pow2Monotone(j, m);
      } else if m < j {
        Pow2Monotone(m, j);
      }
    }
    if m < 31 {
      Pow2Monotone(m, 31);
    }
  }

  /** A need above 2^31 is not met: the doubled word wraps around to 0. So the rule meets a need it has
      to grow for exactly when the need is at most 2^31. */
  lemma GrowthMeetsNeedIff(original: nat, desire: nat)
    requires original < desire < WORD
    ensures desire <= FindPow2Capacity(original, desire) <==> desire <= HALF_WORD
    ensures desire > HALF_WORD ==> FindPow2Capacity(original, desire) == 0
  {
    if desire <= HALF_WORD {
      GrowsToSmallest(original, desire);
    } else {
      Pow2Of32();
      var k := HighestBit(desire);
      if k < 31 {
        Pow2Monotone(k, 31);
      }
    }
  }

  // ---------- the descriptor ----------

  datatype DescState = DONE | NO_MEMORY | OVERRUN

  class DataDesc {
    var data: array<byte>
    var length: nat
    var capacity: nat
    var currPos: nat
    /** Whether the descriptor owns its buffer (managed memory) or borrows the caller's. */
    var managed: bool
    /** Capacity at creation, and bytes copied by growth since. */
    ghost const capacity0: nat
    ghost var copied: nat

    ghost predicate Valid()
      reads this
    {
      && data.Length == capacity && length <= capacity < WORD && currPos <= length
      && (!managed ==> capacity == length)
    }

    /** Growing has copied fewer bytes than the first and the present capacity together. */
    ghost predicate Frugal()
      reads this
    {
      if capacity == capacity0 && copied == 0 then true else copied < capacity0 + capacity && IsPow2(capacity)
    }

    ghost function Content(): seq<byte>
      requires Valid()
      reads this, data
    {
      data[..length]
    }

    constructor (data: array<byte>, length: nat, managed: bool)
      requires length <= data.Length < WORD && (!managed ==> length == data.Length)
      ensures Valid() && this.data == data && this.length == length && this.managed == managed
      ensures capacity0 == data.Length && copied == 0 && currPos == 0
    {
      this.data, this.length, this.managed := data, length, managed;
      capacity, capacity0, currPos, copied := data.Length, data.Length, 0, 0;
    }

    /** `iotc_make_empty_desc_alloc`. */
    static method MakeEmpty(capacity: nat, descOk: bool, bufferOk: bool) returns (d: DataDesc?)
      requires 0 < capacity < WORD
      ensures d != null <==> descOk && bufferOk
      ensures d != null ==>
                && fresh(d) && d.Valid() && d.Frugal() && fresh(d.data)
                && d.Content() == [] && d.currPos == 0 && d.capacity == d.capacity0 == capacity && d.managed
    {
      if !descOk || !bufferOk {
        return null;
      }
      var buffer := new byte[capacity];
      d := new DataDesc(buffer, 0, true);
    }

    /** `iotc_make_desc_from_buffer_copy`. */
    static method MakeCopy(buffer: array<byte>, descOk: bool, bufferOk: bool) returns (d: DataDesc?)
      requires buffer.Length < WORD
      ensures d != null <==> descOk && bufferOk
      ensures d != null ==>
                && fresh(d) && d.Valid() && d.Frugal() && fresh(d.data)
                && d.Content() == buffer[..] && d.currPos == 0 && d.managed
                && d.capacity == d.capacity0 == buffer.Length
    {
      if !descOk || !bufferOk {
        return null;
      }
      var copy := new byte[buffer.Length];
      forall i | 0 <= i < buffer.Length {
        copy[i] := buffer[i];
      }
      assert copy[..] == buffer[..];
      d := new DataDesc(copy, copy.Length, true);
    }

    /** `iotc_make_desc_from_buffer_share`: the caller's buffer itself, read only. */
    static method MakeShare(buffer: array<byte>, descOk: bool) returns (d: DataDesc?)
      requires buffer.Length < WORD
      ensures d != null <==> descOk
      ensures d != null ==>
                && fresh(d) && d.Valid() && d.Frugal() && d.data == buffer
                && d.Content() == buffer[..] && d.currPos == 0 && !d.managed
                && d.capacity == d.capacity0 == buffer.Length
    {
      if !descOk {
        return null;
      }
      d := new DataDesc(buffer, buffer.Length, false);
    }

    predicate WillItFit(len: nat)
      reads this
    {
      capacity >= length + len
    }

    /** Moves the content to a new, owned buffer of the capacity the rule gives. A rule that gives less than
        there is would make the copy overrun the new buffer. */
    method Realloc(newCapacity: nat, allocOk: bool) returns (ret: DescState)
      requires Valid() && newCapacity < WORD
      modifies this
      ensures ret == if !allocOk then NO_MEMORY
                     else if newCapacity > HALF_WORD && newCapacity > old(capacity) > 0 then OVERRUN else DONE
      ensures ret != OVERRUN ==>
                Valid() && length == old(length) && currPos == old(currPos) && Content() == old(Content())
      ensures ret == NO_MEMORY ==>
                data == old(data) && capacity == old(capacity) && managed == old(managed) && copied == old(copied)
      ensures ret == DONE ==>
                && fresh(data) && managed && copied == old(copied) + old(capacity)
                && capacity == FindPow2Capacity(old(capacity), newCapacity)
                && (newCapacity <= HALF_WORD || newCapacity <= old(capacity) ==> capacity >= newCapacity)
      ensures ret == DONE && old(Frugal()) && old(capacity) < newCapacity <= HALF_WORD ==> Frugal()
    {
      hide FindPow2Capacity, IsPow2;
      GrowthRange(capacity, newCapacity);
      var calculated := FindPow2Capacity(capacity, newCapacity);
      if !allocOk {
        return NO_MEMORY;
      }
      if calculated < capacity {
        return OVERRUN;
      }
      var newBuf := new byte[calculated];
      var was, n := data, capacity;
      forall i | 0 <= i < n {
        newBuf[i] := was[i];
      }
      if n < newCapacity <= HALF_WORD {
        DoublesPow2(n, calculated);
      }
      assert newBuf[..length] == was[..length];
      data, capacity, managed := newBuf, calculated, true;
      copied := copied + n;
      ret := DONE;
    }

    /** Appends the bytes, growing if need be; only a buffer of the descriptor's own is written. A need the
        growth does not meet would make the write overrun the buffer. */
    method AppendDataResize(bytes: seq<byte>, allocOk: bool) returns (ret: DescState)
      requires Valid()
      modifies this, if managed then {data} else {}
      ensures ret == if old(WillItFit(|bytes|)) then DONE
                     else if !allocOk then NO_MEMORY
                     else if old(length) + |bytes| <= HALF_WORD then DONE else OVERRUN
      ensures ret != OVERRUN ==>
                && Valid() && currPos == old(currPos) && (old(Frugal()) ==> Frugal())
                && Content() == (if ret == DONE then old(Content()) + bytes else old(Content()))
                && ((data == old(data) && managed == old(managed)) || (managed && fresh(data)))
                && (if old(WillItFit(|bytes|)) || ret == NO_MEMORY then
                      capacity == old(capacity) && copied == old(copied)
                    else
                      && capacity == FindPow2Capacity(old(capacity), old(length) + |bytes|)
                      && copied == old(copied) + old(capacity))
    {
      hide FindPow2Capacity, IsPow2;
      if !WillItFit(|bytes|) {
        var need := length + |bytes|;
        NeedMet(capacity, need);
        ret := Realloc(need % WORD, allocOk);
        if ret != DONE {
          return;
        }
        if capacity < need {
          return OVERRUN;
        }
      }
      Write(bytes);
      ret := DONE;
    }

    /** `memcpy` behind the content; a borrowed buffer is full, so nothing is written to it. */
    method Write(bytes: seq<byte>)
      requires Valid() && WillItFit(|bytes|)
      modifies this`length, if managed then {data} else {}
      ensures Valid() && length == old(length) + |bytes| && Content() == old(Content()) + bytes
    {
      if managed {
        forall i | 0 <= i < |bytes| {
          data[length + i] := bytes[i];
        }
      }
      length := length + |bytes|;
    }

    /** `iotc_data_desc_append_bytes`: appends what fits, or nothing. */
    method AppendBytes(bytes: seq<byte>) returns (ok: bool)
      requires Valid()
      modifies this`length, if managed then {data} else {}
      ensures Valid() && ok == old(WillItFit(|bytes|))
      ensures Content() == if ok then old(Content()) + bytes else old(Content())
    {
      ok := WillItFit(|bytes|);
      if ok {
        Write(bytes);
      }
    }

    /** A run of appends with memory granted keeps the old content in front of all that was appended, and
        growing has copied fewer bytes than the first and the last capacity together. It gets that far
        exactly when all the bytes together are at most 2^31, or fit in without growing. */
    method AppendAll(chunks: seq<seq<byte>>) returns (ok: bool)
      requires Valid() && Frugal()
      modifies this, if managed then {data} else {}
      ensures var total := old(length) + |Flatten(chunks)|; ok <==> total <= HALF_WORD || total <= old(capacity)
      ensures ok ==> Valid() && Frugal() && Content() == old(Content()) + Flatten(chunks)
    {
      hide FindPow2Capacity, IsPow2, Flatten, Frugal;
      var i := 0;
      FlattenNone(chunks);
      while i < |chunks|
        invariant 0 <= i <= |chunks| && Valid() && Frugal()
        invariant (data == old(data) && managed == old(managed)) || (managed && fresh(data))
        invariant Content() == old(Content()) + Flatten(chunks[..i])
        invariant capacity >= old(capacity) && (capacity == old(capacity) || capacity <= HALF_WORD)
      {
        FlattenStep(chunks, i);
        if length + |chunks[i]| <= HALF_WORD {
          GrowthRange(capacity, length + |chunks[i]|);
        }
        var ret := AppendDataResize(chunks[i], true);
        if ret != DONE {
          return false;
        }
        i := i + 1;
      }
      assert chunks[..i] == chunks;
      ok := true;
    }
  }

  /** The rule gives less than there is exactly for a need above 2^31. */
  lemma GrowthRange(capacity: nat, need: nat)
    requires capacity < WORD && need < WORD
    ensures var r := FindPow2Capacity(capacity, need);
            && r < WORD && (r < capacity <==> need > HALF_WORD && need > capacity > 0)
            && (need <= HALF_WORD || need <= capacity ==> need <= r)
            && (capacity < need <= HALF_WORD ==> IsPow2(r) && r <= HALF_WORD)
            && (need > HALF_WORD && need > capacity ==> r == 0)
  {
    hide HighestBitFilter;
    if capacity < need <= HALF_WORD {
      GrowsToSmallest(capacity, need);
    } else if need > HALF_WORD && need > capacity {
      GrowthMeetsNeedIff(capacity, need);
    }
  }

  /** The need is passed on as a 32-bit word; the rule meets it exactly when it is at most 2^31. */
  lemma NeedMet(capacity: nat, need: nat)
    requires capacity < need && capacity < WORD
    ensures need <= FindPow2Capacity(capacity, need % WORD) <==> need <= HALF_WORD
    ensures need <= HALF_WORD ==> need % WORD == need
  {
    hide FindPow2Capacity;
    GrowthRange(capacity, need % WORD);
  }

  function Flatten(chunks: seq<seq<byte>>): seq<byte>
  {
    if chunks == [] then [] else Flatten(chunks[..|chunks| - 1]) + chunks[|chunks| - 1]
  }

  lemma FlattenNone(chunks: seq<seq<byte>>)
    ensures Flatten(chunks[..0]) == []
  {
  }

  lemma FlattenStep(chunks: seq<seq<byte>>, i: nat)
    requires i < |chunks|
    ensures Flatten(chunks[..i + 1]) == Flatten(chunks[..i]) + chunks[i]
    ensures |Flatten(chunks[..i])| + |chunks[i]| <= |Flatten(chunks)|
    decreases |chunks| - i
  {
    assert chunks[..i + 1][..i] == chunks[..i];
    if i + 1 == |chunks| {
      assert chunks[..i + 1] == chunks;
    } else {
      FlattenStep(chunks, i + 1);
    }
  }

  /** A power of two that grows to another at least doubles. */
  lemma DoublesPow2(capacity: nat, grown: nat)
    requires capacity < grown && IsPow2(grown)
    ensures IsPow2(capacity) ==> 2 * capacity <= grown
  {
    if IsPow2(capacity) {
      var k: nat :| capacity == Pow2(k);
      var j: nat :| grown == Pow2(j);
      if j < k {
        Pow2Monotone(j, k);
      } else if k < j {
        Pow2Monotone(k, j);
      }
    }
  }
}

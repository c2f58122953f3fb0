/** Rearrangements of plain sequences that the containers are specified with. */
module Sequences {

  /** The elements of s that p does not select, in order. */
  function Rejected<T>(s: seq<T>, p: T -> bool): seq<T>
  {
    if s == [] then [] else (if p(s[0]) then [] else [s[0]]) + Rejected(s[1..], p)
  }

  function Reversed<T>(s: seq<T>): seq<T>
  {
    if s == [] then [] else Reversed(s[1..]) + [s[0]]
  }

  function Swapped<T>(s: seq<T>, i: nat, j: nat): seq<T>
    requires i < |s| && j < |s|
  {
    s[i := s[j]][j := s[i]]
  }

  function RemoveAt<T>(s: seq<T>, i: nat): (r: seq<T>)
    requires i < |s|
  {
    s[..i] + s[i + 1..]
  }

  function InsertAt<T>(s: seq<T>, k: nat, x: T): (r: seq<T>)
    requires k <= |s|
  {
    s[..k] + [x] + s[k..]
  }

  /** Element i taken out and put back at index k. */
  function Moved<T>(s: seq<T>, i: nat, k: nat): (r: seq<T>)
    requires i < |s| && k < |s|
  {
    InsertAt(RemoveAt(s, i), k, s[i])
  }

  /** Swapping an element to the end and cutting the end off takes out just that element. */
  lemma SwapOutMultiset<T>(s: seq<T>, i: nat)
    requires i < |s|
    ensures multiset(Swapped(s, i, |s| - 1)[..|s| - 1]) == multiset(s) - multiset{s[i]}
  {
    var n, r := |s|, Swapped(s, i, |s| - 1)[..|s| - 1];
    if i == n - 1 {
      assert s == r + [s[i]];
    } else {
      assert r == s[..i] + [s[n - 1]] + s[i + 1..n - 1];
      assert s == s[..i] + [s[i]] + s[i + 1..n - 1] + [s[n - 1]];
      FirstAndLast(s[..i], s[i], s[i + 1..n - 1], s[n - 1]);
    }
  }

  lemma FirstAndLast<T>(a: seq<T>, x: T, b: seq<T>, y: T)
    ensures multiset(a + [y] + b) == multiset(a + [x] + b + [y]) - multiset{x}
  {
  }

  lemma MovedIndex<T>(s: seq<T>, i: nat, k: nat, j: nat)
    requires i < |s| && k < |s| && j < |s|
    ensures |Moved(s, i, k)| == |s|
    ensures Moved(s, i, k)[j] == if j == k then s[i]
                                 else if j < k then (if j < i then s[j] else s[j + 1])
                                 else if j <= i then s[j - 1] else s[j]
  {
    var r := RemoveAt(s, i);
    assert j < |r| ==> r[j] == if j < i then s[j] else s[j + 1];
    assert j > k ==> Moved(s, i, k)[j] == r[j - 1];
  }

  /** Swapping the moved element with a neighbour moves it by one. */
  lemma MovedStep<T>(s: seq<T>, i: nat, k: nat, k': nat)
    requires i < |s| && k < |s| && k' < |s|
    requires k' == k + 1 || k == k' + 1
    ensures Moved(s, i, k') == Swapped(Moved(s, i, k), k', k)
    ensures Moved(s, i, k') == Swapped(Moved(s, i, k), k, k')
  {
    hide Moved;
    var m, m' := Moved(s, i, k), Moved(s, i, k');
    MovedIndex(s, i, k, k');
    MovedIndex(s, i, k, k);
    MovedIndex(s, i, k', k');
    forall j | 0 <= j < |s|
      ensures |m| == |m'| == |s|
      ensures j < |m'| && m'[j] == if j == k' then m[k] else if j == k then m[k'] else m[j]
    {
      MovedIndex(s, i, k, j);
      MovedIndex(s, i, k', j);
    }
  }

  lemma MovedLands<T>(s: seq<T>, i: nat, k: nat)
    requires i < |s| && k < |s|
    ensures |Moved(s, i, k)| == |s| && Moved(s, i, k)[k] == s[i]
  {
  }

  /** Moving an element to the end and cutting the end off removes it. */
  lemma MovedToEnd<T>(s: seq<T>, i: nat)
    requires i < |s|
    ensures |Moved(s, i, |s| - 1)| == |s| && Moved(s, i, |s| - 1)[|s| - 1] == s[i]
    ensures Moved(s, i, |s| - 1)[..|s| - 1] == RemoveAt(s, i)
  {
  }

  lemma MovedSelf<T>(s: seq<T>, i: nat)
    requires i < |s|
    ensures Moved(s, i, i) == s
  {
  }

  lemma {:induction false} RejectedExact<T>(s: seq<T>, p: T -> bool, x: T)
    ensures multiset(Rejected(s, p))[x] == if p(x) then 0 else multiset(s)[x]
  {
    if s != [] {
      RejectedExact(s[1..], p, x);
      assert s == [s[0]] + s[1..];
      assert multiset(s) == multiset{s[0]} + multiset(s[1..]);
    }
  }

  lemma {:induction false} ReversedIs<T>(s: seq<T>, k: nat)
    requires k < |s|
    ensures |Reversed(s)| == |s| && Reversed(s)[k] == s[|s| - 1 - k]
  {
    if |s| > 1 {
      ReversedIs(s[1..], if k < |s| - 1 then k else 0);
    }
  }
}

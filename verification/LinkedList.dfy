/** The intrusive singly linked lists of iotc_list.h. */
module LinkedLists {
  import opened Sequences

  class Node<T> {
    const data: T
    var next: Node?<T>

    constructor (data: T)
      ensures this.data == data && next == null
    {
      this.data := data;
      next := null;
    }
  }

  /** The node at index i, or null behind the end. */
  function NodeAt<T>(s: seq<Node<T>>, i: nat): Node?<T>
  {
    if i < |s| then s[i] else null
  }

  /** Following `next` from h visits exactly the nodes of s, once each, and ends. */
  ghost predicate Chain<T>(h: Node?<T>, s: seq<Node<T>>)
    reads s
  {
    && h == NodeAt(s, 0)
    && (forall i :: 0 <= i < |s| ==> s[i].next == NodeAt(s, i + 1))
    && Unique(s)
  }

  ghost predicate Disjoint<T>(s: seq<Node<T>>, t: seq<Node<T>>)
  {
    forall x :: x in s ==> x !in t
  }

  function Find<T>(s: seq<Node<T>>, x: Node<T>): (k: nat)
    ensures k <= |s| && x !in s[..k] && (k < |s| ==> s[k] == x)
  {
    if s == [] || s[0] == x then 0 else 1 + Find(s[1..], x)
  }

  /** The nodes the predicate selects, offering s[j] with index i + j. */
  function Selected<T>(s: seq<Node<T>>, pred: (T, nat) -> bool, i: nat): (r: seq<Node<T>>)
  {
    if s == [] then [] else (if pred(s[0].data, i) then [s[0]] else []) + Selected(s[1..], pred, i + 1)
  }

  function Kept<T>(s: seq<Node<T>>, pred: (T, nat) -> bool, i: nat): (r: seq<Node<T>>)
  {
    if s == [] then [] else (if pred(s[0].data, i) then [] else [s[0]]) + Kept(s[1..], pred, i + 1)
  }

  ghost predicate Unique<T>(s: seq<Node<T>>)
  {
    forall i, j :: 0 <= i < j < |s| ==> s[i] != s[j]
  }

  lemma LinksOf<T>(h: Node?<T>, s: seq<Node<T>>)
    ensures Chain(h, s) <==>
              h == NodeAt(s, 0) && Unique(s) && forall i :: 0 <= i < |s| ==> s[i].next == NodeAt(s, i + 1)
  {
  }

  /** Once node k is bypassed, the others form a chain. */
  lemma Bypassed<T>(h: Node?<T>, s: seq<Node<T>>, k: nat)
    requires k < |s| && Unique(s)
    requires h == if k == 0 then NodeAt(s, 1) else s[0]
    requires k > 0 ==> s[k - 1].next == NodeAt(s, k + 1)
    requires forall i :: 0 <= i < |s| && i != k && i != k - 1 ==> s[i].next == NodeAt(s, i + 1)
    ensures Chain(h, RemoveAt(s, k))
  {
    var r := RemoveAt(s, k);
    forall i | 0 <= i < |r|
      ensures r[i].next == NodeAt(r, i + 1)
    {
      assert r[i] == if i < k then s[i] else s[i + 1];
    }
    forall i, j | 0 <= i < j < |r|
      ensures r[i] != r[j]
    {
      assert r[i] == if i < k then s[i] else s[i + 1];
      assert r[j] == if j < k then s[j] else s[j + 1];
    }
  }

  /** Once x hangs behind the last node, it belongs to the chain. */
  lemma Extended<T>(h: Node?<T>, s: seq<Node<T>>, x: Node<T>)
    requires Unique(s) && x !in s && x.next == null
    requires h == if s == [] then x else s[0]
    requires s != [] ==> s[|s| - 1].next == x
    requires forall i :: 0 <= i < |s| - 1 ==> s[i].next == NodeAt(s, i + 1)
    ensures Chain(h, s + [x])
  {
  }

  class List<T> {
    var head: Node?<T>
    ghost var nodes: seq<Node<T>>

    ghost predicate Valid()
      reads this, nodes
    {
      Chain(head, nodes)
    }

    constructor ()
      ensures Valid() && nodes == []
    {
      head, nodes := null, [];
    }

    lemma NotEmpty()
      requires Valid()
      ensures head != null <==> nodes != []
    {
    }

    method PushBack(elem: Node<T>)
      requires Valid() && elem.next == null && elem !in nodes
      modifies this, nodes
      ensures Valid() && nodes == old(nodes) + [elem]
    {
      var prev, curr, i := Last();
      if prev == curr {
        head := elem;
      } else {
        prev.next := elem;
      }
      Extended(head, nodes, elem);
      nodes := nodes + [elem];
    }

    /** The walk to the end of the push macro. */
    method Last() returns (prev: Node?<T>, curr: Node?<T>, ghost i: nat)
      requires Valid()
      ensures i == |nodes| && curr == null
      ensures if i == 0 then prev == null else prev == nodes[i - 1]
    {
      prev, curr := head, head;
      i := 0;
      while curr != null
        invariant i <= |nodes| && curr == NodeAt(nodes, i)
        invariant if i == 0 then prev == curr else prev == nodes[i - 1]
        decreases |nodes| - i
      {
        prev := curr;
        curr := curr.next;
        i := i + 1;
      }
    }

    method Pop() returns (out: Node<T>)
      requires Valid() && head != null
      modifies this, nodes
      ensures Valid() && old(nodes) == [out] + nodes && out.next == null
    {
      out := head;
      if out.next == null {
        head := null;
      } else {
        head := out.next;
        out.next := null;
      }
      nodes := nodes[1..];
    }

    /** The search loop of the drop macro. */
    method Seek(elem: Node<T>) returns (prev: Node?<T>, curr: Node?<T>, ghost i: nat)
      requires Valid()
      ensures i == Find(nodes, elem) && i <= |nodes| && curr == NodeAt(nodes, i)
      ensures curr == elem <==> elem in nodes
      ensures if i == 0 then prev == curr else prev == nodes[i - 1]
    {
      prev, curr := head, head;
      i := 0;
      while curr != null && curr != elem
        invariant i <= |nodes| && curr == NodeAt(nodes, i)
        invariant if i == 0 then prev == curr else prev == nodes[i - 1]
        invariant elem !in nodes[..i]
        decreases |nodes| - i
      {
        prev := curr;
        curr := curr.next;
        i := i + 1;
      }
      FindUnique(nodes, elem, i);
    }

    method Drop(elem: Node<T>)
      requires Valid()
      modifies this, nodes
      ensures Valid()
      ensures nodes == if elem in old(nodes) then RemoveAt(old(nodes), Find(old(nodes), elem)) else old(nodes)
      ensures elem in old(nodes) ==> elem.next == null
    {
      hide Find, RemoveAt;
      var prev, curr, i := Seek(elem);
      if curr == elem {
        if prev == curr {
          head := curr.next;
        } else {
          prev.next := curr.next;
        }
        elem.next := null;
        Bypassed(head, nodes, i);
        nodes := RemoveAt(nodes, i);
      }
    }

    /** Takes the current node out of the input list. */
    method Unlink(prev: Node?<T>, curr: Node<T>, ghost kept: seq<Node<T>>, ghost rest: seq<Node<T>>)
      requires Chain(head, kept + rest) && rest != [] && curr == rest[0]
      requires prev == LastKept(kept)
      modifies this`head, kept`next
      ensures Chain(head, kept + rest[1..])
      ensures curr.next == NodeAt(rest, 1)
    {
      assert curr == (kept + rest)[|kept|];
      if prev != null {
        assert prev == (kept + rest)[|kept| - 1];
        prev.next := curr.next;
      } else {
        head := curr.next;
      }
      Bypassed(head, kept + rest, |kept|);
      assert RemoveAt(kept + rest, |kept|) == kept + rest[1..];
    }

    /** Appends the current node to the output list, steps on, and only then clears its link. */
    static method Relink(out: List<T>, outCurr: Node?<T>, curr: Node<T>,
                         ghost out0: seq<Node<T>>, ghost moved: seq<Node<T>>)
      returns (outNext: Node<T>, next: Node?<T>)
      requires Chain(out.head, SplitOutput(out0, moved)) && curr !in SplitOutput(out0, moved)
      requires outCurr == LastOut(out0, moved)
      modifies out`head, SplitOutput(out0, moved)`next, curr`next
      ensures Chain(out.head, SplitOutput(out0, moved + [curr]))
      ensures outNext == curr && next == old(curr.next) && outNext == LastOut(out0, moved + [curr])
    {
      ghost var was := SplitOutput(out0, moved);
      assert outCurr != null ==> outCurr == was[if moved == [] then 0 else |was| - 1];
      if outCurr != null {
        outCurr.next := curr;
        outNext := curr;
      } else {
        outNext := curr;
        out.head := outNext;
      }
      next := curr.next;
      curr.next := null;
      if moved != [] || out0 == [] {
        Extended(out.head, was, curr);
        assert was + [curr] == SplitOutput(out0, moved + [curr]);
      }
    }

    /** One iteration of the split for a selected node. */
    method MoveNode(out: List<T>, prev: Node?<T>, outCurr: Node?<T>, curr: Node<T>,
                    ghost kept: seq<Node<T>>, ghost rest: seq<Node<T>>,
                    ghost out0: seq<Node<T>>, ghost moved: seq<Node<T>>, ghost frame: set<Node<T>>)
      returns (outNext: Node<T>, next: Node?<T>)
      requires out != this && rest != [] && curr == rest[0]
      requires Apart(head, kept + rest, out.head, SplitOutput(out0, moved), frame)
      requires prev == LastKept(kept) && outCurr == LastOut(out0, moved)
      modifies this`head, out`head, frame`next
      ensures Apart(head, kept + rest[1..], out.head, SplitOutput(out0, moved + [curr]), frame)
      ensures outNext == curr && next == NodeAt(rest, 1) && outNext == LastOut(out0, moved + [curr])
    {
      hide SplitOutput, LastKept, LastOut, Chain, NodeAt, Unique;
      DisjointStep(head, kept, rest, out0, moved);
      ghost var o, s := SplitOutput(out0, moved), kept + rest[1..];
      LinksOf(out.head, o);
      Unlink(prev, curr, kept, rest);
      forall i | 0 <= i < |o|
        ensures o[i].next == NodeAt(o, i + 1)
      {
        assert o[i] in o && o[i] !in kept;
      }
      LinksOf(out.head, o);
      LinksOf(head, s);
      outNext, next := Relink(out, outCurr, curr, out0, moved);
      forall i | 0 <= i < |s|
        ensures s[i].next == NodeAt(s, i + 1)
      {
        assert s[i] in s && s[i] !in o && s[i] != curr;
      }
      LinksOf(head, s);
    }

    /** Moves the nodes the predicate selects to `out`. The macro appends behind the first node of
        `out`, so whatever `out` held after its first node is lost once something is selected. */
    method SplitI(out: List<T>, pred: (T, nat) -> bool) returns (ghost asked: seq<(T, nat)>)
      requires Valid() && out.Valid() && out != this && Disjoint(nodes, out.nodes)
      modifies this, nodes, out, out.nodes
      ensures Valid() && out.Valid() && Disjoint(nodes, out.nodes)
      ensures nodes == Kept(old(nodes), pred, 0)
      ensures out.nodes == SplitOutput(old(out.nodes), Selected(old(nodes), pred, 0))
      ensures asked == Questions(old(nodes))
    {
      hide Kept, Selected, Questions, SplitSoFar, SplitOutput, LastOut, Apart, Chain, Disjoint;
      ghost var all, out0 := nodes, out.nodes;
      ghost var frame := set x | x in all + out0;
      ghost var kept: seq<Node<T>>, moved: seq<Node<T>> := [], [];
      var curr, outCurr := head, out.head;
      var prev: Node?<T> := null;
      var i := 0;
      asked := [];
      SplitStart(head, all, out.head, out0, frame, pred);
      while curr != null
        invariant i <= |all| && curr == NodeAt(all, i)
        invariant Apart(head, kept + all[i..], out.head, SplitOutput(out0, moved), frame)
        invariant prev == LastKept(kept) && outCurr == LastOut(out0, moved)
        invariant SplitSoFar(all, i, kept, moved, pred)
        invariant asked == Questions(all[..i])
        decreases |all| - i
      {
        hide LastKept, NodeAt;
        SplitStep(all, i, kept, moved, pred);
        var selected := pred(curr.data, i);
        asked := asked + [(curr.data, i)];
        if selected {
          ghost var node := curr;
          outCurr, curr := MoveNode(out, prev, outCurr, curr, kept, all[i..], out0, moved, frame);
          moved := moved + [node];
        } else {
          StayStep(head, kept, all[i..], out.head, SplitOutput(out0, moved), frame);
          prev := curr;
          curr := curr.next;
          kept := kept + [prev];
        }
        i := i + 1;
      }
      nodes, out.nodes := kept, SplitOutput(out0, moved);
      SplitEnd(head, out.head, SplitOutput(out0, moved), frame, all, kept, moved, pred);
    }
  }

  /** What `out` holds after `moved` was split off into it. */
  function SplitOutput<T>(out: seq<Node<T>>, moved: seq<Node<T>>): (r: seq<Node<T>>)
  {
    if moved == [] then out else if out == [] then moved else [out[0]] + moved
  }

  /** Where the macro's output cursor stands. */
  function LastOut<T>(out: seq<Node<T>>, moved: seq<Node<T>>): Node?<T>
  {
    if moved != [] then moved[|moved| - 1] else if out == [] then null else out[0]
  }

  /** Two chains over different nodes, all of them in frame. */
  ghost predicate Apart<T>(h: Node?<T>, s: seq<Node<T>>, oh: Node?<T>, o: seq<Node<T>>, frame: set<Node<T>>)
    reads s, o
  {
    && Chain(h, s) && Chain(oh, o) && Disjoint(s, o)
    && (forall x :: x in s ==> x in frame) && (forall x :: x in o ==> x in frame)
  }

  function LastKept<T>(kept: seq<Node<T>>): Node?<T>
  {
    if kept == [] then null else kept[|kept| - 1]
  }

  /** Every node's data once, in order, with its index. */
  function Questions<T>(s: seq<Node<T>>): (r: seq<(T, nat)>)
  {
    seq(|s|, i requires 0 <= i < |s| => (s[i].data, i))
  }

  /** The first i nodes have been dealt out to `kept` and `moved`. */
  ghost predicate SplitSoFar<T>(all: seq<Node<T>>, i: nat, kept: seq<Node<T>>, moved: seq<Node<T>>,
                                pred: (T, nat) -> bool)
    requires i <= |all|
  {
    && Kept(all, pred, 0) == kept + Kept(all[i..], pred, i)
    && Selected(all, pred, 0) == moved + Selected(all[i..], pred, i)
  }

  lemma SplitStart<T>(h: Node?<T>, all: seq<Node<T>>, oh: Node?<T>, out0: seq<Node<T>>, frame: set<Node<T>>,
                      pred: (T, nat) -> bool)
    requires Chain(h, all) && Chain(oh, out0) && Disjoint(all, out0) && frame == set x | x in all + out0
    ensures Apart(h, all, oh, out0, frame) && LastOut(out0, []) == oh && h == NodeAt(all, 0)
    ensures [] + all[0..] == all && SplitOutput(out0, []) == out0
    ensures SplitSoFar(all, 0, [], [], pred) && Questions(all[..0]) == []
  {
    assert all[0..] == all;
  }

  lemma SplitStep<T>(all: seq<Node<T>>, i: nat, kept: seq<Node<T>>, moved: seq<Node<T>>, pred: (T, nat) -> bool)
    requires i < |all| && SplitSoFar(all, i, kept, moved, pred)
    ensures all[i..] != [] && all[i..][0] == all[i] && all[i..][1..] == all[i + 1..]
    ensures NodeAt(all, i) == all[i] && NodeAt(all[i..], 1) == NodeAt(all, i + 1)
    ensures kept + all[i..] == kept + [all[i]] + all[i + 1..]
    ensures Questions(all[..i + 1]) == Questions(all[..i]) + [(all[i].data, i)]
    ensures if pred(all[i].data, i) then SplitSoFar(all, i + 1, kept, moved + [all[i]], pred)
            else SplitSoFar(all, i + 1, kept + [all[i]], moved, pred)
  {
  }

  lemma SplitEnd<T>(h: Node?<T>, oh: Node?<T>, o: seq<Node<T>>, frame: set<Node<T>>, all: seq<Node<T>>,
                    kept: seq<Node<T>>, moved: seq<Node<T>>, pred: (T, nat) -> bool)
    requires SplitSoFar(all, |all|, kept, moved, pred) && Apart(h, kept + all[|all|..], oh, o, frame)
    ensures Chain(h, kept) && Chain(oh, o) && Disjoint(kept, o)
    ensures kept == Kept(all, pred, 0) && moved == Selected(all, pred, 0)
    ensures all[..|all|] == all
  {
    assert all[|all|..] == [] && kept + [] == kept;
  }

  lemma StayStep<T>(h: Node?<T>, kept: seq<Node<T>>, rest: seq<Node<T>>, oh: Node?<T>, o: seq<Node<T>>,
                    frame: set<Node<T>>)
    requires rest != [] && Apart(h, kept + rest, oh, o, frame)
    ensures rest[0].next == NodeAt(rest, 1) && LastKept(kept + [rest[0]]) == rest[0]
  {
    assert (kept + rest)[|kept|] == rest[0];
  }

  lemma DisjointStep<T>(h: Node?<T>, kept: seq<Node<T>>, rest: seq<Node<T>>, out0: seq<Node<T>>, moved: seq<Node<T>>)
    requires rest != [] && Disjoint(kept + rest, SplitOutput(out0, moved)) && Chain(h, kept + rest)
    ensures rest[0] !in SplitOutput(out0, moved) && rest[0] !in kept + rest[1..]
    ensures Disjoint(kept, SplitOutput(out0, moved)) && Disjoint(kept + rest[1..], SplitOutput(out0, moved))
    ensures Disjoint(kept + rest[1..], SplitOutput(out0, moved + [rest[0]]))
    ensures rest[0] in kept + rest && (forall y :: y in kept + rest[1..] ==> y in kept + rest)
    ensures forall y :: y in kept ==> y in kept + rest
    ensures forall y :: y in SplitOutput(out0, moved + [rest[0]]) ==> y == rest[0] || y in SplitOutput(out0, moved)
  {
    hide SplitOutput, NodeAt;
    var x := rest[0];
    WithoutNode(kept, rest);
    MovedMembers(out0, moved, x);
    assert (kept + rest)[|kept|] == x;
    assert forall y :: y in kept ==> y in kept + rest;
  }

  /** The nodes but the first of rest. */
  lemma WithoutNode<T>(kept: seq<Node<T>>, rest: seq<Node<T>>)
    requires rest != [] && Unique(kept + rest)
    ensures forall y :: y in kept + rest[1..] ==> y in kept + rest && y != rest[0]
  {
    var s, t := kept + rest, kept + rest[1..];
    forall y | y in t
      ensures y in s && y != rest[0]
    {
      var i :| 0 <= i < |t| && t[i] == y;
      assert s[|kept|] == rest[0];
      assert s[if i < |kept| then i else i + 1] == y;
    }
  }

  lemma MovedMembers<T>(out0: seq<Node<T>>, moved: seq<Node<T>>, x: Node<T>)
    ensures forall y :: y in SplitOutput(out0, moved + [x]) ==> y == x || y in SplitOutput(out0, moved)
  {
  }

  lemma {:induction false} FindUnique<T>(s: seq<Node<T>>, x: Node<T>, k: nat)
    requires k <= |s| && (k < |s| ==> s[k] == x) && x !in s[..k]
    ensures Find(s, x) == k
  {
    if k > 0 {
      assert s[0] in s[..k];
      assert forall y :: y in s[1..][..k - 1] ==> y in s[..k];
      FindUnique(s[1..], x, k - 1);
    }
  }

  // ---------- what the split means ----------

  /** How many of the first j nodes the predicate answers `want` for. */
  function Rank<T>(s: seq<Node<T>>, pred: (T, nat) -> bool, i: nat, want: bool, j: nat): (n: nat)
    requires j <= |s|
    ensures n <= j
  {
    if j == 0 then 0
    else (if pred(s[0].data, i) == want then 1 else 0) + Rank(s[1..], pred, i + 1, want, j - 1)
  }

  lemma {:induction false} RankStep<T>(s: seq<Node<T>>, pred: (T, nat) -> bool, i: nat, want: bool, j: nat)
    requires j < |s|
    ensures Rank(s, pred, i, want, j + 1) == Rank(s, pred, i, want, j) + if pred(s[j].data, i + j) == want then 1 else 0
  {
    if j > 0 {
      RankStep(s[1..], pred, i + 1, want, j - 1);
    }
  }

  lemma {:induction false} SplitLengths<T>(s: seq<Node<T>>, pred: (T, nat) -> bool, i: nat)
    ensures |Selected(s, pred, i)| == Rank(s, pred, i, true, |s|) && |Kept(s, pred, i)| == Rank(s, pred, i, false, |s|)
  {
    if s != [] {
      SplitLengths(s[1..], pred, i + 1);
    }
  }

  /** The split is a stable partition: a node goes to the side the predicate names for it, behind exactly
      those nodes of that side that preceded it; by SplitLengths nothing else gets there. */
  lemma {:induction false} SelectedIsStable<T>(s: seq<Node<T>>, pred: (T, nat) -> bool, i: nat, j: nat)
    requires j < |s| && pred(s[j].data, i + j)
    ensures var n := Rank(s, pred, i, true, j);
            n < |Selected(s, pred, i)| && Selected(s, pred, i)[n] == s[j]
  {
    if j > 0 {
      SelectedIsStable(s[1..], pred, i + 1, j - 1);
    }
  }

  lemma {:induction false} KeptIsStable<T>(s: seq<Node<T>>, pred: (T, nat) -> bool, i: nat, j: nat)
    requires j < |s| && !pred(s[j].data, i + j)
    ensures var n := Rank(s, pred, i, false, j);
            n < |Kept(s, pred, i)| && Kept(s, pred, i)[n] == s[j]
  {
    if j > 0 {
      KeptIsStable(s[1..], pred, i + 1, j - 1);
    }
  }

  /** No node is lost or duplicated. */
  lemma {:induction false} SplitConserves<T>(s: seq<Node<T>>, pred: (T, nat) -> bool, i: nat)
    ensures multiset(Kept(s, pred, i)) + multiset(Selected(s, pred, i)) == multiset(s)
  {
    if s != [] {
      SplitConserves(s[1..], pred, i + 1);
      assert s == [s[0]] + s[1..];
    }
  }

  /** The macro appends to `out` exactly when nothing is selected or `out` has at most one node;
      otherwise it cuts off the tail of `out`. */
  lemma SplitAppendsIff<T>(out: seq<Node<T>>, moved: seq<Node<T>>)
    ensures SplitOutput(out, moved) == out + moved <==> moved == [] || |out| <= 1
    ensures moved != [] && out != [] ==> SplitOutput(out, moved)[0] == out[0] && SplitOutput(out, moved)[1..] == moved
  {
    if moved != [] && |out| > 1 {
      assert |SplitOutput(out, moved)| < |out + moved|;
    }
  }
}

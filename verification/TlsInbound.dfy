/** The inbound byte queue of iotc_tls_layer.c: descriptors arrive in a linked list, the TLS library
    reads from it in pieces of any size. */
module TlsInbounds {
  import opened LinkedLists
  import opened DataDescs

  datatype RecvState = RECV_OK | WANT_READ

  const INT_MAX := 0x7FFF_FFFF

  function Joined(parts: seq<seq<byte>>): seq<byte>
  {
    if parts == [] then [] else parts[0] + Joined(parts[1..])
  }

  lemma {:induction false} JoinedAppend(parts: seq<seq<byte>>, part: seq<byte>)
    ensures Joined(parts + [part]) == Joined(parts) + part
  {
    if parts == [] {
      assert [part][1..] == [];
    } else {
      JoinedAppend(parts[1..], part);
      assert (parts + [part])[1..] == parts[1..] + [part];
    }
  }

  /** Taking n bytes off the first part takes them off the whole. */
  lemma JoinedTake(parts: seq<seq<byte>>, n: nat)
    requires parts != [] && n <= |parts[0]|
    ensures parts[0][..n] + Joined(if n == |parts[0]| then parts[1..] else [parts[0][n..]] + parts[1..])
            == Joined(parts)
  {
    if n < |parts[0]| {
      assert ([parts[0][n..]] + parts[1..])[1..] == parts[1..];
      assert parts[0] == parts[0][..n] + parts[0][n..];
    } else {
      assert parts[0][..n] == parts[0];
    }
  }

  /** The descriptor is not used up, and these are its unread bytes. */
  ghost predicate Unread(d: DataDesc, bytes: seq<byte>)
    reads d, d.data
  {
    && d.Valid() && d.length <= INT_MAX && bytes != []
    && d.currPos < d.length && d.Content()[d.currPos..] == bytes
  }

  /** `memcpy` from the unread part, and the move of the read position. */
  method CopyOut(d: DataDesc, buf: array<byte>, n: nat, ghost bytes: seq<byte>)
    requires Unread(d, bytes) && n <= |bytes| && n <= buf.Length && buf != d.data
    modifies buf, d`currPos
    ensures buf[..n] == bytes[..n] && buf[n..] == old(buf[n..])
    ensures d.Valid() && d.length == old(d.length) && d.currPos == old(d.currPos) + n
    ensures d.length - old(d.currPos) == |bytes|
    ensures n < |bytes| ==> Unread(d, bytes[n..])
  {
    forall i | 0 <= i < n {
      buf[i] := d.data[d.currPos + i];
    }
    assert forall i :: 0 <= i < n ==> buf[i] == d.Content()[d.currPos..][i];
    d.currPos := d.currPos + n;
    assert n < |bytes| ==> d.Content()[d.currPos..] == bytes[n..];
  }

  class TlsInbound {
    const rawBuffer: List<DataDesc>
    /** The queued descriptors, and what is left to read of each. */
    ghost var descs: seq<DataDesc>
    ghost var unread: seq<seq<byte>>
    /** All bytes ever received from below, all bytes ever handed to the TLS library. */
    ghost var pushed: seq<byte>
    ghost var delivered: seq<byte>
    ghost var Repr: set<object>

    ghost predicate Listed()
      reads this, Repr
    {
      && this in Repr && rawBuffer in Repr && (forall i :: 0 <= i < |rawBuffer.nodes| ==> rawBuffer.nodes[i] in Repr)
      && rawBuffer.Valid() && |descs| == |rawBuffer.nodes|
      && (forall i :: 0 <= i < |descs| ==> rawBuffer.nodes[i].data == descs[i])
    }

    ghost predicate Queued()
      reads this, Repr
    {
      && |descs| == |unread|
      && (forall i :: 0 <= i < |descs| ==> descs[i] in Repr && descs[i].data in Repr && Unread(descs[i], unread[i]))
      && (forall i, j :: 0 <= i < j < |descs| ==> descs[i] != descs[j])
    }

    /** Every queued descriptor has something left, and nothing is lost, duplicated or reordered. */
    ghost predicate Valid()
      reads this, Repr
    {
      Listed() && Queued() && pushed == delivered + Joined(unread)
    }

    constructor ()
      ensures Valid() && fresh(Repr) && pushed == [] && delivered == []
    {
      rawBuffer := new List<DataDesc>();
      descs, unread, pushed, delivered := [], [], [], [];
      new;
      Repr := {this, rawBuffer};
    }

    /** Queues a received descriptor. */
    method Pull(d: DataDesc)
      requires Valid() && d.Valid() && d.length - d.currPos > 0 && d.length <= INT_MAX && d !in descs
      modifies this, rawBuffer, rawBuffer.nodes
      ensures Valid() && fresh(Repr - old(Repr) - {d, d.data}) && descs == old(descs) + [d]
      ensures pushed == old(pushed) + d.Content()[d.currPos..] && delivered == old(delivered)
      ensures unread == old(unread) + [d.Content()[d.currPos..]]
    {
      hide List.Valid, Unread, Joined;
      ghost var bytes := d.Content()[d.currPos..];
      UnreadAll(d);
      JoinedAppend(unread, bytes);
      PushDesc(d);
      Repr := Repr + {d, d.data};
      unread, pushed := unread + [bytes], pushed + bytes;
    }

    method PushDesc(d: DataDesc)
      requires Listed()
      modifies this`descs, this`Repr, rawBuffer, rawBuffer.nodes
      ensures Listed() && old(Repr) <= Repr && fresh(Repr - old(Repr)) && descs == old(descs) + [d]
    {
      hide List.Valid;
      var node := new Node(d);
      rawBuffer.PushBack(node);
      Repr := Repr + {node};
      descs := descs + [d];
    }

    static lemma UnreadAll(d: DataDesc)
      requires d.Valid() && d.length - d.currPos > 0 && d.length <= INT_MAX
      ensures Unread(d, d.Content()[d.currPos..])
    {
      assert |d.Content()[d.currPos..]| == d.length - d.currPos;
    }

    /** Copies as much as there is of the first descriptor, up to sz bytes; a used-up descriptor goes. */
    method RecvCallback(buf: array<byte>, sz: nat) returns (state: RecvState, bytesRead: nat)
      requires Valid() && sz <= buf.Length && buf !in Repr
      modifies Repr, buf
      ensures Valid() && Repr == old(Repr) && pushed == old(pushed)
      ensures state == WANT_READ <==> old(unread) == []
      ensures state == WANT_READ ==> unread == old(unread) && delivered == old(delivered) && buf[..] == old(buf[..])
      ensures state == RECV_OK ==>
                && bytesRead == (if sz > |old(unread)[0]| then |old(unread)[0]| else sz)
                && delivered == old(delivered) + buf[..bytesRead] && buf[bytesRead..] == old(buf[bytesRead..])
                && buf[..bytesRead] + Joined(unread) == Joined(old(unread))
    {
      hide List.Valid, Unread, Joined;
      rawBuffer.NotEmpty();
      if rawBuffer.head == null {
        return WANT_READ, 0;
      }
      state := RECV_OK;
      bytesRead := ReadFirst(buf, sz);
    }

    method ReadFirst(buf: array<byte>, sz: nat) returns (n: nat)
      requires Valid() && sz <= buf.Length && buf !in Repr && descs != [] && rawBuffer.head != null
      modifies this`descs, this`unread, this`delivered, rawBuffer, rawBuffer.nodes, descs, buf
      ensures Valid()
      ensures n == if sz > |old(unread)[0]| then |old(unread)[0]| else sz
      ensures delivered == old(delivered) + buf[..n] && buf[n..] == old(buf[n..])
      ensures buf[..n] + Joined(unread) == Joined(old(unread))
    {
      hide List.Valid, Unread, Joined;
      ghost var was := unread;
      var recvd := rawBuffer.head.data;
      HeadIs(recvd);
      UnreadLength(recvd, was[0]);
      var available := recvd.length - recvd.currPos;
      n := if sz > available then available else sz;
      JoinedTake(was, n);
      TakeFirst(recvd, buf, n);
      delivered := delivered + buf[..n];
    }

    /** Moves n bytes from the first descriptor to the buffer. */
    method TakeFirst(recvd: DataDesc, buf: array<byte>, n: nat)
      requires Listed() && Queued() && descs != [] && recvd == descs[0] && n <= |unread[0]| && n <= buf.Length
      requires buf !in Repr
      modifies this`descs, this`unread, rawBuffer, rawBuffer.nodes, descs, buf
      ensures Listed() && Queued()
      ensures unread == if n == |old(unread)[0]| then old(unread)[1..] else [old(unread)[0][n..]] + old(unread)[1..]
      ensures buf[..n] == old(unread)[0][..n] && buf[n..] == old(buf[n..])
    {
      hide List.Valid, Unread;
      ghost var u := unread[0];
      CopyOut(recvd, buf, n, u);
      if recvd.currPos == recvd.length {
        DropFirst();
      } else {
        Shorten(n);
      }
    }

    /** A used-up descriptor leaves the queue. */
    method DropFirst()
      requires Listed() && descs != [] && |descs| == |unread|
      requires forall i :: 1 <= i < |descs| ==> descs[i] in Repr && descs[i].data in Repr && Unread(descs[i], unread[i])
      requires forall i, j :: 0 <= i < j < |descs| ==> descs[i] != descs[j]
      modifies this`descs, this`unread, rawBuffer, rawBuffer.nodes
      ensures Listed() && Queued() && descs == old(descs)[1..] && unread == old(unread)[1..]
    {
      hide List.Valid, Unread;
      rawBuffer.NotEmpty();
      var tmp := rawBuffer.Pop();
      assert forall i :: 0 <= i < |rawBuffer.nodes| ==> rawBuffer.nodes[i] == old(rawBuffer.nodes)[i + 1];
      descs, unread := descs[1..], unread[1..];
    }

    /** The first descriptor keeps what was not taken from it. */
    ghost method Shorten(n: nat)
      requires Listed() && descs != [] && |descs| == |unread| && n <= |unread[0]|
      requires descs[0] in Repr && descs[0].data in Repr && Unread(descs[0], unread[0][n..])
      requires forall i :: 1 <= i < |descs| ==> descs[i] in Repr && descs[i].data in Repr && Unread(descs[i], unread[i])
      requires forall i, j :: 0 <= i < j < |descs| ==> descs[i] != descs[j]
      modifies this`unread
      ensures Listed() && Queued() && unread == [old(unread)[0][n..]] + old(unread)[1..]
    {
      hide List.Valid, Unread;
      unread := unread[0 := unread[0][n..]];
    }

    lemma HeadIs(d: DataDesc)
      requires Valid() && rawBuffer.head != null && d == rawBuffer.head.data
      ensures descs != [] && d == descs[0]
    {
    }

    static lemma UnreadLength(d: DataDesc, bytes: seq<byte>)
      requires Unread(d, bytes)
      ensures d.length - d.currPos == |bytes| > 0
    {
    }
  }

  /** The TLS library is told to wait exactly when no byte is left. */
  lemma WaitsWhenNothingLeft(parts: seq<seq<byte>>)
    requires forall i :: 0 <= i < |parts| ==> parts[i] != []
    ensures parts == [] <==> Joined(parts) == []
  {
  }
}

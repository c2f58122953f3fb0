/** The outbound side of iotc_tls_layer.c: a send callback written as a coroutine that has at most one
    buffer on its way to the layer below. */
module TlsOutbounds {

  datatype WriteState = DATA_NONE | DATA_WRITING | DATA_WRITTEN

  datatype SendState = SEND_OK | WANT_WRITE | WRITE_ERROR

  // ---------- the layer as a state machine ----------

  /** What happens to the layer: the TLS library calls the send callback with so many bytes, or the layer
      below says that it has written its buffer. The flags say whether there was memory for the buffer's
      descriptor, and for the call that hands it to the layer below. */
  datatype Event = Send(size: nat, memoryOk: bool, pushOk: bool) | Written

  /** Whether the coroutine is suspended, the write state, and the history: sizes of the buffers handed to
      the layer below, sizes reported as sent, number of WRITTEN notifications. */
  datatype SendLayer = SendLayer(suspended: bool, write: WriteState,
                                 handed: seq<nat>, reported: seq<nat>, notified: nat)

  function Initial(): SendLayer
  {
    SendLayer(false, DATA_NONE, [], [], 0)
  }

  /** A refused push goes unnoticed. */
  function Apply(s: SendLayer, e: Event): SendLayer
  {
    match e
    case Send(size, memoryOk, pushOk) =>
      if !s.suspended then
        if !memoryOk then s.(write := DATA_WRITING)
        else s.(suspended := true, write := DATA_WRITING, handed := if pushOk then s.handed + [size] else s.handed)
      else if s.write == DATA_WRITTEN then s.(suspended := false, write := DATA_NONE, reported := s.reported + [size])
      else s
    case Written =>
      s.(write := DATA_WRITTEN, notified := s.notified + 1)
  }

  function Run(s: SendLayer, events: seq<Event>): SendLayer
    decreases |events|
  {
    if events == [] then s else Run(Apply(s, events[0]), events[1..])
  }

  /** What the assertions of the source demand: a fresh call finds no write under way, and a notification
      finds one. The layer below notifies only for a buffer it was handed. */
  predicate Admissible(s: SendLayer, e: Event)
  {
    match e
    case Send(_, _, _) => s.suspended || s.write == DATA_NONE
    case Written => s.write == DATA_WRITING && |s.reported| < |s.handed|
  }

  /** The TLS library repeats a pending call with the size it was first made with. */
  predicate Repeats(s: SendLayer, e: Event)
  {
    e.Send? && s.suspended && s.handed != [] ==> e.size == s.handed[|s.handed| - 1]
  }

  /** A fresh call is refused memory. */
  predicate Refused(s: SendLayer, e: Event)
  {
    e.Send? && !s.suspended && !(e.memoryOk && e.pushOk)
  }

  ghost predicate Legal(s: SendLayer, events: seq<Event>)
    decreases |events|
  {
    events == [] || (Admissible(s, events[0]) && Legal(Apply(s, events[0]), events[1..]))
  }

  ghost predicate Faithful(s: SendLayer, events: seq<Event>)
    decreases |events|
  {
    events == [] || (Repeats(s, events[0]) && Faithful(Apply(s, events[0]), events[1..]))
  }

  predicate Granted(s: SendLayer, events: seq<Event>)
    decreases |events|
  {
    events == [] || (!Refused(s, events[0]) && Granted(Apply(s, events[0]), events[1..]))
  }

  /** The coroutine is suspended exactly while a write is under way; one buffer at most is below; every
      notification but the latest has been reported; each buffer is reported in order, with its own size. */
  ghost predicate Single(s: SendLayer)
  {
    && (s.suspended <==> s.write != DATA_NONE)
    && |s.handed| == |s.reported| + (if s.write == DATA_NONE then 0 else 1)
    && s.notified == |s.reported| + (if s.write == DATA_WRITTEN then 1 else 0)
    && s.reported == s.handed[..|s.reported|]
  }

  /** One event keeps that exactly when it is not a fresh call that is refused memory. */
  lemma ApplyKeepsIff(s: SendLayer, e: Event)
    requires Single(s) && Admissible(s, e) && Repeats(s, e)
    ensures Single(Apply(s, e)) <==> !Refused(s, e)
  {
    var t := Apply(s, e);
    if e.Send? && s.suspended && s.write == DATA_WRITTEN {
      assert t.reported == s.handed;
    } else if e.Send? && !s.suspended && !e.memoryOk {
      assert !t.suspended && t.write != DATA_NONE;
    }
  }

  /** In every run of calls and notifications, from every such state: it holds throughout exactly when no
      fresh call is refused memory. */
  lemma {:induction false} RunKeepsIff(s: SendLayer, events: seq<Event>)
    requires Single(s) && Legal(s, events) && Faithful(s, events)
    ensures (forall k :: 0 <= k <= |events| ==> Single(Run(s, events[..k]))) <==> Granted(s, events)
    ensures Granted(s, events) ==> Single(Run(s, events))
    decreases |events|
  {
    hide Single;
    if events != [] {
      ApplyKeepsIff(s, events[0]);
      var t, rest := Apply(s, events[0]), events[1..];
      forall k | 1 <= k <= |events|
        ensures Run(s, events[..k]) == Run(t, rest[..k - 1])
      {
        assert events[..k][1..] == rest[..k - 1];
      }
      if Single(t) {
        RunKeepsIff(t, rest);
        assert rest[..|rest|] == rest && events[..|events|] == events;
        forall k | 0 <= k <= |rest| && (forall j :: 0 <= j <= |events| ==> Single(Run(s, events[..j])))
          ensures Single(Run(t, rest[..k]))
        {
          assert Run(s, events[..k + 1]) == Run(t, rest[..k]);
        }
      } else {
        assert rest[..0] == [] && Run(t, []) == t;
        assert !Single(Run(s, events[..1]));
      }
    }
  }

  /** A run goes on from where it is. */
  lemma {:induction false} RunAppend(s: SendLayer, events: seq<Event>, e: Event)
    ensures Run(s, []) == s && Run(s, events + [e]) == Apply(Run(s, events), e)
    decreases |events|
  {
    if events == [] {
      assert [] + [e] == [e] && [e][1..] == [];
    } else {
      assert (events + [e])[1..] == events[1..] + [e];
      RunAppend(Apply(s, events[0]), events[1..], e);
    }
  }

  /** The refusal is final: no later call or notification changes anything. */
  lemma {:induction false} RefusalIsFinal(s: SendLayer, e: Event, events: seq<Event>)
    requires Single(s) && Admissible(s, e) && Refused(s, e) && Legal(Apply(s, e), events)
    ensures Run(Apply(s, e), events) == Apply(s, e)
    decreases |events|
  {
    if events != [] {
      assert Apply(Apply(s, e), events[0]) == Apply(s, e);
      RefusalIsFinal(s, e, events[1..]);
    }
  }

  /** One call without memory for its descriptor, and one without memory for the call below. */
  lemma RefusedCalls(size: nat)
    ensures Run(Initial(), [Send(size, false, true)]) == Initial().(write := DATA_WRITING)
    ensures Run(Initial(), [Send(size, true, false)]) == Initial().(suspended := true, write := DATA_WRITING)
    ensures !Single(Run(Initial(), [Send(size, false, true)])) && !Single(Run(Initial(), [Send(size, true, false)]))
  {
    assert [Send(size, false, true)][1..] == [] && [Send(size, true, false)][1..] == [];
  }

  // ---------- the layer's code ----------

  /** Coroutine states: 0 fresh, 1 exited, 2 reset, above 2 the line at which it is suspended. */
  const CR_EXITED := 1
  const CR_YIELD_POINT := 118

  class TlsOutbound {
    var sendingCs: nat
    var writeState: WriteState
    ghost var handed: seq<nat>
    ghost var reported: seq<nat>
    ghost var notified: nat

    predicate Suspended()
      reads this
    {
      sendingCs > 2
    }

    /** There is one place to be suspended at. */
    ghost predicate Valid()
      reads this
    {
      Suspended() ==> sendingCs == CR_YIELD_POINT
    }

    ghost function View(): SendLayer
      reads this
    {
      SendLayer(Suspended(), writeState, handed, reported, notified)
    }

    constructor ()
      ensures Valid() && View() == Initial()
    {
      sendingCs, writeState := 0, DATA_NONE;
      handed, reported, notified := [], [], 0;
    }

    /** One call of the send callback. */
    method SendCallback(size: nat, memoryOk: bool, pushOk: bool) returns (ret: SendState, bytesSent: nat)
      requires Valid() && Admissible(View(), Send(size, memoryOk, pushOk))
      modifies this
      ensures Valid() && View() == Apply(old(View()), Send(size, memoryOk, pushOk))
      ensures !old(Suspended()) && memoryOk ==>
                && Suspended() && writeState == DATA_WRITING && reported == old(reported)
                && handed == if pushOk then old(handed) + [size] else old(handed)
      ensures !old(Suspended()) && !memoryOk ==>
                !Suspended() && writeState == DATA_WRITING && handed == old(handed) && reported == old(reported)
      ensures old(Suspended()) && old(writeState) == DATA_WRITTEN ==>
                && !Suspended() && writeState == DATA_NONE
                && handed == old(handed) && reported == old(reported) + [size]
      ensures old(Suspended()) && old(writeState) != DATA_WRITTEN ==> View() == old(View())
      ensures notified == old(notified)
      ensures ret == SEND_OK <==> old(Suspended()) && old(writeState) == DATA_WRITTEN
      ensures ret == WRITE_ERROR <==> !old(Suspended()) && !memoryOk
      ensures bytesSent == if ret == SEND_OK then size else 0
    {
      bytesSent := 0;
      if sendingCs != CR_YIELD_POINT {
        // from the start of the coroutine
        writeState := DATA_WRITING;
        if !memoryOk {
          return WRITE_ERROR, 0;
        }
        if pushOk {
          handed := handed + [size];
        }
      }
      // both passes end here: the loop yields until the data is written
      if writeState != DATA_WRITTEN {
        sendingCs := CR_YIELD_POINT;
        return WANT_WRITE, 0;
      }
      writeState := DATA_NONE;
      bytesSent := size;
      reported := reported + [size];
      sendingCs := CR_EXITED;
      ret := SEND_OK;
    }

    /** The WRITTEN branch of the push function. */
    method NotifyWritten()
      requires Valid() && Admissible(View(), Written)
      modifies this
      ensures Valid() && View() == Apply(old(View()), Written)
      ensures writeState == DATA_WRITTEN && notified == old(notified) + 1 && Suspended() == old(Suspended())
      ensures handed == old(handed) && reported == old(reported)
    {
      writeState := DATA_WRITTEN;
      notified := notified + 1;
    }

    /** Whole runs of calls and notifications. */
    method Drive(events: seq<Event>)
      requires Valid() && Legal(View(), events)
      modifies this
      ensures Valid() && View() == Run(old(View()), events)
    {
      var done := 0;
      assert events[0..] == events;
      while done < |events|
        invariant 0 <= done <= |events| && Valid() && Legal(View(), events[done..])
        invariant Run(View(), events[done..]) == Run(old(View()), events)
      {
        hide Admissible, Apply;
        assert events[done..][1..] == events[done + 1..];
        match events[done] {
          case Send(size, memoryOk, pushOk) =>
            var ret, sent := SendCallback(size, memoryOk, pushOk);
          case Written =>
            NotifyWritten();
        }
        done := done + 1;
      }
    }
  }
}

/** The backoff of iotc_backoff_status_api.c on its dispatcher. Each operation refines the transition of the same
    name in BackoffSpec, and with it says what becomes of everybody else's events. */
module Backoffs {
  import opened TimerSpec
  import opened TimerQueues
  import opened DispatcherSpec
  import opened Dispatchers
  import opened BackoffSpec
  import DispatcherRuns

  datatype ConfigState = CONFIGURED | INVALID_PARAMETER | NO_MEMORY

  class Backoff {
    const dispatcher: Dispatcher
    const nextUpdate: Handle
    const backoffLut: seq<nat>
    const decayLut: seq<nat>
    var backoffClass: Class
    var index: nat

    ghost function View(): BackoffState
      reads this, dispatcher
    {
      BackoffState(dispatcher.state, index, backoffClass)
    }

    /** Tables of one length, the index inside them, and the cooldown event, if pending, armed with nextUpdate. */
    ghost predicate Valid()
      reads this, dispatcher, dispatcher.Repr
    {
      && dispatcher.Valid() && this !in dispatcher.Repr && nextUpdate in dispatcher.timers.clients
      && |backoffLut| == |decayLut| && Coherent(View(), nextUpdate, decayLut)
    }

    /** What `iotc_backoff_configure_using_data` leads to, once both tables have their memory: the index and the
        class are those of earlier, perhaps longer, tables. */
    constructor (dispatcher: Dispatcher, nextUpdate: Handle, backoffLut: seq<nat>, decayLut: seq<nat>,
                 index: nat, cls: Class)
      requires dispatcher.Valid() && DispatcherRuns.Sound(dispatcher.state) && nextUpdate in dispatcher.timers.clients
      requires CooldownOnly(dispatcher.state.pending, nextUpdate)
      requires backoffLut != [] && |backoffLut| == |decayLut|
      ensures View() == BackoffState(dispatcher.state, index, cls)
      ensures this.dispatcher == dispatcher && this.nextUpdate == nextUpdate && this.decayLut == decayLut
      ensures Valid() <==> index < |decayLut|
    {
      hide CooldownOnly, TimerQueue.Wf, TimerQueue.Valid, LinkedLists.List.Valid, DispatcherRuns.Sound;
      this.dispatcher, this.nextUpdate, this.backoffLut, this.decayLut := dispatcher, nextUpdate, backoffLut, decayLut;
      this.index, this.backoffClass := index, cls;
    }

    /** `iotc_backoff_configure_using_data`: both tables get a vector, or the backoff has none. */
    static method Configure(dispatcher: Dispatcher, nextUpdate: Handle, backoffLut: seq<nat>, decayLut: seq<nat>,
                            index: nat, cls: Class, backoffOk: bool, decayOk: bool)
      returns (ret: ConfigState, b: Backoff?)
      requires dispatcher.Valid() && DispatcherRuns.Sound(dispatcher.state) && nextUpdate in dispatcher.timers.clients
      requires CooldownOnly(dispatcher.state.pending, nextUpdate) && |backoffLut| == |decayLut|
      ensures ret == if backoffLut == [] then INVALID_PARAMETER
                     else if backoffOk && decayOk then CONFIGURED else NO_MEMORY
      ensures b != null <==> ret == CONFIGURED
      ensures b != null ==>
                && fresh(b) && b.dispatcher == dispatcher && b.nextUpdate == nextUpdate && b.decayLut == decayLut
                && b.View() == BackoffState(dispatcher.state, index, cls) && (b.Valid() <==> index < |decayLut|)
    {
      if backoffLut == [] {
        return INVALID_PARAMETER, null;
      }
      if !backoffOk || !decayOk {
        return NO_MEMORY, null;
      }
      b := new Backoff(dispatcher, nextUpdate, backoffLut, decayLut, index, cls);
      ret := CONFIGURED;
    }

    /** `iotc_restart_update_time`. It fails only if the event has to be created and memory is refused. */
    method RestartUpdateTime(eventOk: bool, growOk: bool) returns (ret: State)
      requires Valid()
      modifies dispatcher.Repr
      ensures Valid() && View() == Arm(old(View()), nextUpdate, decayLut, eventOk, growOk)
      ensures fresh(dispatcher.Repr - old(dispatcher.Repr))
      ensures dispatcher.timers.clients == old(dispatcher.timers.clients)
      ensures ret == if Armed(View().d.pending, nextUpdate) then OK else OUT_OF_MEMORY
    {
      hide CooldownOnly, IndexOf, Retimed, TimerQueue.Valid, LinkedLists.List.Valid, DispatcherRuns.Sound;
      dispatcher.ClientsInRepr();
      dispatcher.Liveness(nextUpdate);
      ArmArms(View(), nextUpdate, decayLut, eventOk, growOk);
      if nextUpdate.event != null {
        ret := dispatcher.Restart(nextUpdate, decayLut[index]);
      } else {
        ret := dispatcher.ExecuteIn(COOLDOWN, decayLut[index], nextUpdate, eventOk, growOk);
      }
    }

    /** `iotc_update_backoff_penalty` for a state of the given class. What becomes of the cooldown is not
        reported to the caller. */
    method Update(cls: Class, eventOk: bool, growOk: bool)
      requires Valid()
      modifies this, dispatcher.Repr
      ensures Valid() && View() == Report(old(View()), cls, nextUpdate, decayLut, eventOk, growOk)
      ensures fresh(dispatcher.Repr - old(dispatcher.Repr))
      ensures dispatcher.timers.clients == old(dispatcher.timers.clients)
    {
      hide CooldownOnly, IndexOf, Retimed, TimerQueue.Valid, LinkedLists.List.Valid, DispatcherRuns.Sound;
      ReportIs(View(), cls, nextUpdate, decayLut, eventOk, growOk);
      backoffClass := cls;
      if cls == NONE {
        return;
      }
      index := if index + 1 > |backoffLut| - 1 then |backoffLut| - 1 else index + 1;
      var ret := RestartUpdateTime(eventOk, growOk);
    }

    /** `iotc_apply_cooldown`, called once its event has been popped. */
    method ApplyCooldown(eventOk: bool, growOk: bool) returns (ret: State)
      requires Valid() && !Armed(View().d.pending, nextUpdate)
      modifies this, dispatcher.Repr
      ensures Valid() && View() == Cooldown(old(View()), nextUpdate, decayLut, eventOk, growOk)
      ensures fresh(dispatcher.Repr - old(dispatcher.Repr))
      ensures dispatcher.timers.clients == old(dispatcher.timers.clients)
      ensures ret == if index > 0 && !Armed(View().d.pending, nextUpdate) then OUT_OF_MEMORY else OK
    {
      hide CooldownOnly, IndexOf, Retimed, TimerQueue.Valid, LinkedLists.List.Valid, DispatcherRuns.Sound;
      if backoffClass == NONE {
        index := if index > 0 then index - 1 else 0;
      }
      ret := OK;
      if index > 0 {
        ret := RestartUpdateTime(eventOk, growOk);
      }
    }

    /** `iotc_cancel_backoff_event`. */
    method CancelEvent()
      requires Valid()
      modifies dispatcher.Repr
      ensures Valid() && !Armed(View().d.pending, nextUpdate)
      ensures View() == old(View()).(d := Apply(old(View()).d, Cmd.Cancel(nextUpdate)))
      ensures fresh(dispatcher.Repr - old(dispatcher.Repr))
      ensures dispatcher.timers.clients == old(dispatcher.timers.clients)
    {
      hide CooldownOnly, IndexOf, Retimed, TimerQueue.Valid, LinkedLists.List.Valid, DispatcherRuns.Sound;
      DispatcherRuns.ApplySound(dispatcher.state, Cmd.Cancel(nextUpdate));
      ApplyCooldownOnly(dispatcher.state, Cmd.Cancel(nextUpdate), nextUpdate);
      DispatcherRuns.SoundHandles(dispatcher.state);
      DispatcherRuns.CancelEmpties(dispatcher.state, nextUpdate);
      dispatcher.ClientsInRepr();
      dispatcher.Liveness(nextUpdate);
      if nextUpdate.event != null {
        var ret := dispatcher.Cancel(nextUpdate);
      }
    }

    /** `iotc_reset_backoff_penalty`. */
    method Reset()
      requires Valid()
      modifies this, dispatcher.Repr
      ensures Valid() && View() == Do(old(View()), ResetOp, nextUpdate, decayLut)
      ensures index == 0 && !Armed(View().d.pending, nextUpdate)
      ensures fresh(dispatcher.Repr - old(dispatcher.Repr))
      ensures dispatcher.timers.clients == old(dispatcher.timers.clients)
    {
      hide CooldownOnly, IndexOf, Retimed, TimerQueue.Valid, LinkedLists.List.Valid, DispatcherRuns.Sound;
      index := 0;
      CancelEvent();
    }

    /** Somebody else's call on the same dispatcher. */
    method OtherCall(c: Cmd)
      requires Valid() && Known(c, dispatcher.timers.clients) && Permitted(OtherOp(c), nextUpdate)
      modifies dispatcher.Repr
      ensures Valid() && View() == Do(old(View()), OtherOp(c), nextUpdate, decayLut)
      ensures fresh(dispatcher.Repr - old(dispatcher.Repr))
      ensures dispatcher.timers.clients == old(dispatcher.timers.clients)
    {
      hide CooldownOnly, IndexOf, Retimed, TimerQueue.Valid, LinkedLists.List.Valid, DispatcherRuns.Sound;
      DoKeepsIff(View(), OtherOp(c), nextUpdate, decayLut);
      dispatcher.Call(c);
    }

    /** One iteration of the dispatcher's timed loop, whoever the earliest event belongs to. */
    method FireNext(eventOk: bool, growOk: bool)
      requires Valid()
      modifies this, dispatcher.Repr
      ensures Valid() && View() == Fire(old(View()), nextUpdate, decayLut, eventOk, growOk)
      ensures fresh(dispatcher.Repr - old(dispatcher.Repr))
      ensures dispatcher.timers.clients == old(dispatcher.timers.clients)
    {
      hide CooldownOnly, IndexOf, Retimed, TimerQueue.Valid, LinkedLists.List.Valid, DispatcherRuns.Sound;
      ghost var s := dispatcher.state;
      FireIs(View(), nextUpdate, decayLut, eventOk, growOk);
      var due, handle := dispatcher.PopDue();
      if due {
        DispatcherRuns.SoundHandles(s);
        DispatcherRuns.PopSound(s);
        PopCooldownOnly(s, nextUpdate);
        DispatcherRuns.PopKeeps(s, nextUpdate);
        if handle == COOLDOWN {
          var ret := ApplyCooldown(eventOk, growOk);
          if ret != OK {
            StopKeeps(View(), nextUpdate, decayLut);
            dispatcher.Stop();
          }
        }
      }
    }

    /** A silent move of the dispatcher. */
    method OtherMove(move: Move)
      requires Valid() && Silent(move)
      modifies dispatcher.Repr
      ensures Valid() && View() == Do(old(View()), SilentOp(move), nextUpdate, decayLut)
      ensures dispatcher.Repr == old(dispatcher.Repr) && dispatcher.timers.clients == old(dispatcher.timers.clients)
    {
      hide CooldownOnly, TimerQueue.Wf, TimerQueue.Valid, LinkedLists.List.Valid, DispatcherRuns.Sound, Make;
      SilentKeeps(View(), move, nextUpdate, decayLut);
      dispatcher.MakeSilent(move);
    }

    /** One operation. */
    method Perform(op: Op)
      requires Valid() && Permitted(op, nextUpdate) && (op.OtherOp? ==> Known(op.cmd, dispatcher.timers.clients))
      modifies this, dispatcher.Repr
      ensures Valid() && View() == Do(old(View()), op, nextUpdate, decayLut)
      ensures fresh(dispatcher.Repr - old(dispatcher.Repr))
      ensures dispatcher.timers.clients == old(dispatcher.timers.clients)
    {
      hide Valid;
      InRepr();
      match op {
        case ReportOp(cls, eventOk, growOk) =>
          Update(cls, eventOk, growOk);
        case SilentOp(move) =>
          OtherMove(move);
        case OtherOp(cmd) =>
          OtherCall(cmd);
        case FireOp(eventOk, growOk) =>
          FireNext(eventOk, growOk);
        case ResetOp =>
          Reset();
      }
    }

    lemma InRepr()
      requires Valid()
      ensures dispatcher in dispatcher.Repr && this !in dispatcher.Repr && index < |decayLut|
    {
    }

    /** Whole runs. */
    method Drive(ops: seq<Op>)
      requires Valid() && AllPermitted(ops, nextUpdate)
      requires forall i :: 0 <= i < |ops| && ops[i].OtherOp? ==> Known(ops[i].cmd, dispatcher.timers.clients)
      modifies this, dispatcher.Repr
      ensures Valid() && View() == BackoffSpec.Run(old(View()), ops, nextUpdate, decayLut)
      ensures fresh(dispatcher.Repr - old(dispatcher.Repr))
      ensures dispatcher.timers.clients == old(dispatcher.timers.clients)
    {
      hide Valid, Do;
      var i := 0;
      InRepr();
      assert ops[0..] == ops;
      while i < |ops|
        invariant 0 <= i <= |ops| && Valid() && index < |decayLut|
        invariant BackoffSpec.Run(View(), ops[i..], nextUpdate, decayLut)
                  == BackoffSpec.Run(old(View()), ops, nextUpdate, decayLut)
        invariant fresh(dispatcher.Repr - old(dispatcher.Repr))
        invariant dispatcher.timers.clients == old(dispatcher.timers.clients)
      {
        assert ops[i..][1..] == ops[i + 1..];
        Perform(ops[i]);
        InRepr();
        i := i + 1;
      }
    }
  }
}

/** The reconnection backoff of iotc_backoff_status_api.c: a randomised penalty read from a table, and a
    cooldown event that lowers the table index step by step. */
module BackoffSpec {
  import opened Sequences
  import opened TimerSpec
  import opened DispatcherSpec
  import opened DispatcherRuns

  // ---------- the penalty ----------

  const VALUE_LIMIT := 0x4000_0000

  /** The tables the 32-bit arithmetic is exact for. */
  ghost predicate SmallTable(lut: seq<nat>)
  {
    lut != [] && forall i :: 0 <= i < |lut| ==> lut[i] < VALUE_LIMIT
  }

  function Max(a: int, b: int): int
  {
    if a > b then a else b
  }

  /** The width of the random part at a level. */
  function FullRange(lut: seq<nat>, i: nat): nat
    requires i < |lut|
  {
    if i == 0 then 0 else lut[i - 1]
  }

  function HalfRange(lut: seq<nat>, i: nat): nat
    requires i < |lut|
  {
    if FullRange(lut, i) / 2 > 1 then FullRange(lut, i) / 2 else 1
  }

  /** `iotc_get_backoff_penalty` at table index i, for one draw of the random generator. */
  function Penalty(lut: seq<nat>, i: nat, draw: nat): int
    requires i < |lut|
  {
    var fullRange := FullRange(lut, i);
    var halfRange := HalfRange(lut, i);
    var randValue := draw % (fullRange + 1);
    Max(lut[i] + randValue - halfRange, lut[0])
  }

  /** Starts at 0, then at least 2, then at least doubles. */
  ghost predicate Doubling(lut: seq<nat>)
  {
    && SmallTable(lut) && lut[0] == 0 && (|lut| > 1 ==> lut[1] >= 2)
    && forall i :: 1 <= i < |lut| - 1 ==> 2 * lut[i] <= lut[i + 1]
  }

  const BACKOFF_LUT: seq<nat> := [0, 2, 4, 8, 16, 32, 64, 128, 256, 512]
  const DECAY_LUT: seq<nat> := [4, 4, 8, 16, 30, 30, 30, 30, 30, 30]

  lemma ShippedTableDoubles()
    ensures Doubling(BACKOFF_LUT) && |DECAY_LUT| == |BACKOFF_LUT|
  {
  }

  /** In the 32-bit signed arithmetic of the source no step of the penalty overflows. */
  lemma PenaltyFits(lut: seq<nat>, i: nat, draw: nat)
    requires SmallTable(lut) && i < |lut|
    ensures var full, half := FullRange(lut, i), HalfRange(lut, i);
            && full + 1 < 2 * VALUE_LIMIT && lut[i] + draw % (full + 1) < 2 * VALUE_LIMIT
            && -2 * VALUE_LIMIT <= lut[i] + draw % (full + 1) - half
            && lut[0] <= Penalty(lut, i, draw) < 2 * VALUE_LIMIT
  {
  }

  /** The draws reach both ends of the interval at a level, and nothing outside it. */
  lemma PenaltyRange(lut: seq<nat>, i: nat, draw: nat)
    requires i < |lut|
    ensures Penalty(lut, i, 0) <= Penalty(lut, i, draw) <= Penalty(lut, i, FullRange(lut, i))
    ensures Penalty(lut, i, 0) == Max(lut[i] - HalfRange(lut, i), lut[0])
    ensures Penalty(lut, i, FullRange(lut, i)) == Max(lut[i] + FullRange(lut, i) - HalfRange(lut, i), lut[0])
  {
    hide FullRange, HalfRange;
    DrawRange(draw, FullRange(lut, i));
  }

  lemma DrawRange(draw: nat, fullRange: nat)
    ensures 0 <= draw % (fullRange + 1) <= fullRange
    ensures 0 % (fullRange + 1) == 0 && fullRange % (fullRange + 1) == fullRange
  {
  }

  /** Draw r at level i gives a smaller penalty than draw s at the next level. */
  predicate Below(lut: seq<nat>, i: nat, r: nat, s: nat)
    requires i + 1 < |lut|
  {
    Penalty(lut, i, r) < Penalty(lut, i + 1, s)
  }

  /** Two adjacent levels never overlap, whatever is drawn, exactly when the two ends facing each other do not. */
  lemma SeparatedIff(lut: seq<nat>, i: nat)
    requires i + 1 < |lut|
    ensures (forall r, s :: Below(lut, i, r, s)) <==>
              Max(lut[i] + FullRange(lut, i) - HalfRange(lut, i), lut[0])
              < Max(lut[i + 1] - HalfRange(lut, i + 1), lut[0])
  {
    PenaltyRange(lut, i, 0);
    PenaltyRange(lut, i + 1, 0);
    assert Below(lut, i, FullRange(lut, i), 0) <==> Penalty(lut, i, FullRange(lut, i)) < Penalty(lut, i + 1, 0);
    forall r, s
      ensures Below(lut, i, FullRange(lut, i), 0) ==> Below(lut, i, r, s)
    {
      PenaltyRange(lut, i, r);
      PenaltyRange(lut, i + 1, s);
    }
  }

  /** In a doubling table every penalty of a level is below every penalty of the next, and a level's
      penalties stay around its base value. */
  lemma PenaltiesSeparate(lut: seq<nat>, i: nat, r: nat, s: nat)
    requires Doubling(lut) && i + 1 < |lut|
    ensures Penalty(lut, i, r) < Penalty(lut, i + 1, s)
    ensures lut[i + 1] - HalfRange(lut, i + 1) <= Penalty(lut, i + 1, s)
            <= lut[i + 1] + lut[i] - HalfRange(lut, i + 1)
  {
    PenaltyRange(lut, i, r);
    PenaltyRange(lut, i + 1, s);
    if i > 1 {
      assert 2 * lut[i - 1] <= lut[i];
    }
    assert i >= 1 ==> lut[i] >= 2 by {
      AtLeastTwo(lut, i);
    }
    AtLeastTwo(lut, i + 1);
  }

  lemma {:induction false} AtLeastTwo(lut: seq<nat>, i: nat)
    requires Doubling(lut) && i < |lut|
    ensures i >= 1 ==> lut[i] >= 2
  {
    if i > 1 {
      AtLeastTwo(lut, i - 1);
    }
  }

  // ---------- the cooldown, for itself ----------

  datatype Class = NONE | RECOVERABLE | TERMINAL

  datatype Timer = Off | DueAt(time: int)

  datatype Status = Status(index: nat, cls: Class, timer: Timer)

  /** A failure raises the index, up to the last level, and re-arms the cooldown. */
  function Updated(b: Status, cls: Class, now: int, decay: seq<nat>): Status
    requires decay != []
  {
    if cls == NONE then b.(cls := cls)
    else var i := Raised(b.index, |decay|); Status(i, cls, DueAt(AddTime(now, decay[i])))
  }

  function Raised(index: nat, levels: nat): (i: nat)
    requires levels > 0
    ensures i < levels
  {
    if index + 1 > levels - 1 then levels - 1 else index + 1
  }

  function Lowered(index: nat, cls: Class): (i: nat)
    ensures i <= index
  {
    if cls == NONE && index > 0 then index - 1 else index
  }

  /** What the cooldown handler does at time now; its event has been popped. */
  function Cooled(b: Status, now: int, decay: seq<nat>): (r: Status)
    requires b.index < |decay|
    ensures r.index < |decay|
  {
    var i := Lowered(b.index, b.cls);
    b.(index := i, timer := if i > 0 then DueAt(AddTime(now, decay[i])) else b.timer)
  }

  /** The cooldown event fires at these times, as long as there is one. */
  function FiringsAt(b: Status, nows: seq<int>, decay: seq<nat>): Status
    requires b.index < |decay|
    decreases |nows|
  {
    if nows == [] || b.timer == Off then b
    else FiringsAt(Cooled(b.(timer := Off), nows[0], decay), nows[1..], decay)
  }

  /** While no new failure comes in, each cooldown lowers the index by one, whenever it fires; it re-arms
      with the decay of the level it reaches, counted from its own time; the last one, after exactly as
      many firings as the index was high, leaves index 0 and no event. */
  lemma {:induction false} CoolsDown(b: Status, nows: seq<int>, decay: seq<nat>)
    requires b.index < |decay| && b.cls == NONE && b.timer.DueAt? && 0 < |nows| <= b.index
    ensures var i := b.index - |nows|;
            FiringsAt(b, nows, decay)
            == Status(i, NONE, if i > 0 then DueAt(AddTime(nows[|nows| - 1], decay[i])) else Off)
    decreases |nows|
  {
    var c := Cooled(b.(timer := Off), nows[0], decay);
    assert FiringsAt(b, nows, decay) == FiringsAt(c, nows[1..], decay);
    if |nows| > 1 {
      CoolsDown(c, nows[1..], decay);
    } else {
      assert FiringsAt(c, nows[1..], decay) == c;
    }
  }

  // ---------- the cooldown, on a dispatcher ----------

  /** `iotc_apply_cooldown`, as a function of an event handle. */
  const COOLDOWN := EventHandle(2, null)

  /** The dispatcher, and the backoff's own fields. Its event handle h and the table of decays are fixed. */
  datatype BackoffState = BackoffState(d: DState, index: nat, cls: Class)

  /** What happens to a configured backoff: a connection state is reported, time passes or the
      dispatcher makes another silent move, somebody else calls it, the dispatcher fires its earliest event,
      the backoff is reset. */
  datatype Op =
    | ReportOp(cls: Class, eventOk: bool, growOk: bool)
    | SilentOp(move: Move)
    | OtherOp(cmd: Cmd)
    | FireOp(eventOk: bool, growOk: bool)
    | ResetOp

  function StatusOf(b: BackoffState, h: Handle): Status
  {
    var v := b.d.pending;
    Status(b.index, b.cls, if Armed(v, h) then DueAt(v[IndexOf(v, h)].time) else Off)
  }

  /** Restarts the pending cooldown, or schedules a new one. */
  function Arm(b: BackoffState, h: Handle, decay: seq<nat>, eventOk: bool, growOk: bool): BackoffState
    requires b.index < |decay|
  {
    b.(d := Apply(b.d, if Armed(b.d.pending, h) then Cmd.Restart(h, decay[b.index])
                       else Schedule(COOLDOWN, decay[b.index], h, eventOk, growOk)))
  }

  function Report(b: BackoffState, cls: Class, h: Handle, decay: seq<nat>, eventOk: bool, growOk: bool): BackoffState
    requires decay != []
  {
    if cls == NONE then b.(cls := cls)
    else Arm(b.(cls := cls, index := Raised(b.index, |decay|)), h, decay, eventOk, growOk)
  }

  function Cooldown(b: BackoffState, h: Handle, decay: seq<nat>, eventOk: bool, growOk: bool): BackoffState
    requires b.index < |decay|
  {
    var c := b.(index := Lowered(b.index, b.cls));
    if c.index > 0 then Arm(c, h, decay, eventOk, growOk) else c
  }

  /** One iteration of the dispatcher's timed loop. A cooldown that cannot be scheduled again is a fatal
      error of its handler. What other handlers do comes as calls of their own. */
  function Fire(b: BackoffState, h: Handle, decay: seq<nat>, eventOk: bool, growOk: bool): BackoffState
    requires b.index < |decay|
  {
    if !Due(b.d) then b
    else
      var c := b.(d := Pop(b.d));
      if b.d.pending[0].handler != COOLDOWN then c
      else
        var e := Cooldown(c, h, decay, eventOk, growOk);
        if e.index > 0 && !Armed(e.d.pending, h) then e.(d := e.d.(stop := true)) else e
  }

  function Do(b: BackoffState, op: Op, h: Handle, decay: seq<nat>): (r: BackoffState)
    requires b.index < |decay|
    ensures r.index < |decay|
  {
    match op
    case ReportOp(cls, eventOk, growOk) => Report(b, cls, h, decay, eventOk, growOk)
    case SilentOp(move) => b.(d := Make(b.d, move))
    case OtherOp(cmd) => b.(d := Apply(b.d, cmd))
    case FireOp(eventOk, growOk) => Fire(b, h, decay, eventOk, growOk)
    case ResetOp => b.(index := 0, d := Apply(b.d, Cmd.Cancel(h)))
  }

  function Run(b: BackoffState, ops: seq<Op>, h: Handle, decay: seq<nat>): (r: BackoffState)
    requires b.index < |decay|
    ensures r.index < |decay|
    decreases |ops|
  {
    if ops == [] then b else Run(Do(b, ops[0], h, decay), ops[1..], h, decay)
  }

  // ---------- what a run may do ----------

  /** Others leave the cooldown's handle and its handler to it. */
  predicate Permitted(op: Op, h: Handle)
  {
    match op
    case OtherOp(cmd) => !Uses(cmd, h) && (cmd.Schedule? ==> cmd.handler != COOLDOWN)
    case SilentOp(move) => Silent(move)
    case _ => true
  }

  ghost predicate AllPermitted(ops: seq<Op>, h: Handle)
  {
    forall i :: 0 <= i < |ops| ==> Permitted(ops[i], h)
  }

  /** A cooldown has to be scheduled, and there is no memory for it. */
  predicate Refused(b: BackoffState, op: Op, h: Handle, decay: seq<nat>)
  {
    match op
    case ReportOp(cls, eventOk, growOk) =>
      cls != NONE && |decay| > 1 && !Armed(b.d.pending, h)
      && !(eventOk && Accepts(|b.d.pending|, b.d.capacity, growOk))
    case FireOp(eventOk, growOk) =>
      Due(b.d) && b.d.pending[0].handler == COOLDOWN && Lowered(b.index, b.cls) > 0 && !eventOk
    case _ => false
  }

  predicate Granted(b: BackoffState, ops: seq<Op>, h: Handle, decay: seq<nat>)
    requires b.index < |decay|
    decreases |ops|
  {
    ops == [] || (!Refused(b, ops[0], h, decay) && Granted(Do(b, ops[0], h, decay), ops[1..], h, decay))
  }

  // ---------- what every run keeps ----------

  /** The pending call of the cooldown, and no other, is reachable through h. */
  ghost predicate CooldownOnly(v: seq<Entry>, h: Handle)
  {
    forall j :: 0 <= j < |v| ==> (v[j].handler == COOLDOWN <==> v[j].handle == h)
  }

  ghost predicate Coherent(b: BackoffState, h: Handle, decay: seq<nat>)
  {
    b.index < |decay| && Sound(b.d) && CooldownOnly(b.d.pending, h)
  }

  /** Above the lowest level a cooldown is on its way. */
  predicate Cooling(b: BackoffState, h: Handle)
  {
    b.index > 0 ==> Armed(b.d.pending, h)
  }

  lemma InsertedCooldown(v: seq<Entry>, k: nat, x: Entry, h: Handle)
    requires CooldownOnly(v, h) && k <= |v| && (x.handler == COOLDOWN <==> x.handle == h)
    ensures CooldownOnly(InsertAt(v, k, x), h)
  {
  }

  lemma RemovedCooldown(v: seq<Entry>, i: nat, h: Handle)
    requires CooldownOnly(v, h) && i < |v|
    ensures CooldownOnly(RemoveAt(v, i), h)
  {
  }

  lemma ApplyCooldownOnly(s: DState, c: Cmd, h: Handle)
    requires CooldownOnly(s.pending, h)
    requires c.Schedule? ==> (c.handler == COOLDOWN <==> c.handle == h)
    ensures CooldownOnly(Apply(s, c).pending, h)
  {
    hide CooldownOnly;
    match c
    case Schedule(handler, delay, handle, eventOk, growOk) =>
      var x := Entry(s.nextId, AddTime(s.now, delay), handler, handle);
      InsertedCooldown(s.pending, Upper(s.pending, x.time), x, h);
    case Cancel(which) =>
      if Armed(s.pending, which) {
        RemovedCooldown(s.pending, IndexOf(s.pending, which), h);
      }
    case Restart(which, delay) =>
      if Armed(s.pending, which) {
        var i, t := IndexOf(s.pending, which), AddTime(s.now, delay);
        var rest, x := RemoveAt(s.pending, i), s.pending[i].(time := t);
        RemovedCooldown(s.pending, i, h);
        CooldownAt(s.pending, i, h);
        InsertedCooldown(rest, Upper(rest, t), x, h);
        InsertedCooldown(rest, Lower(rest, t), x, h);
      }
    case _ =>
  }

  lemma CooldownAt(v: seq<Entry>, i: nat, h: Handle)
    requires CooldownOnly(v, h) && i < |v|
    ensures v[i].handler == COOLDOWN <==> v[i].handle == h
  {
  }

  lemma PopCooldownOnly(s: DState, h: Handle)
    requires CooldownOnly(s.pending, h) && s.pending != []
    ensures CooldownOnly(Pop(s).pending, h) && (s.pending[0].handler == COOLDOWN <==> s.pending[0].handle == h)
  {
    assert RemoveAt(s.pending, 0) == s.pending[1..];
    RemovedCooldown(s.pending, 0, h);
    CooldownAt(s.pending, 0, h);
  }

  /** Arming leads to the event it should, or is refused memory for a new event and changes nothing. */
  lemma ArmArms(b: BackoffState, h: Handle, decay: seq<nat>, eventOk: bool, growOk: bool)
    requires Coherent(b, h, decay)
    ensures var c, t := Arm(b, h, decay, eventOk, growOk), DueAt(AddTime(b.d.now, decay[b.index]));
            && Coherent(c, h, decay) && c.d.now == b.d.now && c.d.fired == b.d.fired
            && c.index == b.index && c.cls == b.cls
            && if Armed(b.d.pending, h) || (eventOk && Accepts(|b.d.pending|, b.d.capacity, growOk))
               then StatusOf(c, h) == Status(b.index, b.cls, t) && Armed(c.d.pending, h)
               else c == b
  {
    hide Sound, CooldownOnly, IndexOf, Insert, Retimed, Accepts, AddTime;
    SoundHandles(b.d);
    if Armed(b.d.pending, h) {
      ApplySound(b.d, Cmd.Restart(h, decay[b.index]));
      ApplyCooldownOnly(b.d, Cmd.Restart(h, decay[b.index]), h);
      RestartMoves(b.d, h, decay[b.index]);
    } else {
      var c := Schedule(COOLDOWN, decay[b.index], h, eventOk, growOk);
      ApplySound(b.d, c);
      ApplyCooldownOnly(b.d, c, h);
      ScheduleArms(b.d, COOLDOWN, decay[b.index], h, eventOk, growOk);
    }
  }

  lemma RoomAfterPopping(s: DState)
    requires Sound(s) && s.pending != []
    ensures |Pop(s).pending| < Pop(s).capacity
  {
  }

  /** A reported failure, if a cooldown can be armed. */
  lemma ReportIs(b: BackoffState, cls: Class, h: Handle, decay: seq<nat>, eventOk: bool, growOk: bool)
    requires Coherent(b, h, decay)
    ensures var c := Report(b, cls, h, decay, eventOk, growOk);
            && Coherent(c, h, decay) && c.d.fired == b.d.fired
            && (Cooling(b, h) ==> (Cooling(c, h) <==> !Refused(b, ReportOp(cls, eventOk, growOk), h, decay)))
            && (cls == NONE || Armed(b.d.pending, h) || (eventOk && Accepts(|b.d.pending|, b.d.capacity, growOk)) ==>
                  StatusOf(c, h) == Updated(StatusOf(b, h), cls, b.d.now, decay))
  {
    hide Sound, CooldownOnly, IndexOf, Accepts, AddTime;
    if cls != NONE {
      ArmArms(b.(cls := cls, index := Raised(b.index, |decay|)), h, decay, eventOk, growOk);
    }
  }

  /** A popped cooldown: its pop made room, so only the event itself can be refused. */
  lemma CooldownIs(b: BackoffState, h: Handle, decay: seq<nat>, eventOk: bool, growOk: bool)
    requires Coherent(b, h, decay) && !Armed(b.d.pending, h) && |b.d.pending| < b.d.capacity
    ensures var c := Cooldown(b, h, decay, eventOk, growOk);
            && Coherent(c, h, decay) && c.d.fired == b.d.fired && c.index == Lowered(b.index, b.cls)
            && (if c.index > 0 && !eventOk then !Armed(c.d.pending, h)
                else Cooling(c, h) && StatusOf(c, h) == Cooled(StatusOf(b, h), b.d.now, decay))
  {
    hide Sound, CooldownOnly, IndexOf, AddTime;
    var c := b.(index := Lowered(b.index, b.cls));
    if c.index > 0 {
      ArmArms(c, h, decay, eventOk, growOk);
    }
  }

  /** One iteration of the timed loop is a cooldown if the earliest event is that, and it leaves the backoff
      alone otherwise. */
  lemma FireIs(b: BackoffState, h: Handle, decay: seq<nat>, eventOk: bool, growOk: bool)
    requires Coherent(b, h, decay)
    ensures var c := Fire(b, h, decay, eventOk, growOk);
            && Coherent(c, h, decay)
            && (Cooling(b, h) ==> (Cooling(c, h) <==> !Refused(b, FireOp(eventOk, growOk), h, decay)))
            && (if !Due(b.d) then c == b
                else if b.d.pending[0].handler != COOLDOWN then
                  StatusOf(c, h) == StatusOf(b, h) && c.d.fired == b.d.fired + [Firing(b.d.pending[0], b.d.now)]
                else
                  && StatusOf(b, h).timer.DueAt? && c.d.fired == b.d.fired + [Firing(b.d.pending[0], b.d.now)]
                  && (!Refused(b, FireOp(eventOk, growOk), h, decay) ==>
                        StatusOf(c, h) == Cooled(StatusOf(b, h).(timer := Off), b.d.now, decay)))
  {
    hide Sound, CooldownOnly, IndexOf, AddTime, Cooldown, Cooled;
    if Due(b.d) {
      SoundHandles(b.d);
      PopSound(b.d);
      PopCooldownOnly(b.d, h);
      PopKeeps(b.d, h);
      RoomAfterPopping(b.d);
      if b.d.pending[0].handler == COOLDOWN {
        HeadArmed(b.d.pending, h);
        CooldownIs(b.(d := Pop(b.d)), h, decay, eventOk, growOk);
        StopKeeps(Cooldown(b.(d := Pop(b.d)), h, decay, eventOk, growOk), h, decay);
      }
    }
  }

  lemma HeadArmed(v: seq<Entry>, h: Handle)
    requires v != [] && v[0].handle == h
    ensures Armed(v, h)
  {
  }

  lemma StopKeeps(b: BackoffState, h: Handle, decay: seq<nat>)
    requires Coherent(b, h, decay)
    ensures Coherent(b.(d := b.d.(stop := true)), h, decay)
  {
  }

  /** Whatever happens leaves the index in the table and the event the cooldown's own. Above the lowest
      level a cooldown stays on its way exactly when it is not refused. */
  lemma DoKeepsIff(b: BackoffState, op: Op, h: Handle, decay: seq<nat>)
    requires Coherent(b, h, decay) && Permitted(op, h)
    ensures var c := Do(b, op, h, decay);
            && Coherent(c, h, decay)
            && (Cooling(b, h) ==> (Cooling(c, h) <==> !Refused(b, op, h, decay)))
  {
    hide Sound, CooldownOnly, IndexOf, AddTime, Report, Fire;
    match op
    case ReportOp(cls, eventOk, growOk) => ReportIs(b, cls, h, decay, eventOk, growOk);
    case SilentOp(move) => SilentKeeps(b, move, h, decay);
    case OtherOp(cmd) =>
      ApplySound(b.d, cmd);
      ApplyCooldownOnly(b.d, cmd, h);
      OthersKeep(b.d, cmd, h);
    case FireOp(eventOk, growOk) => FireIs(b, h, decay, eventOk, growOk);
    case ResetOp =>
      ApplySound(b.d, Cmd.Cancel(h));
      ApplyCooldownOnly(b.d, Cmd.Cancel(h), h);
  }

  lemma SilentKeeps(b: BackoffState, move: Move, h: Handle, decay: seq<nat>)
    requires Coherent(b, h, decay) && Silent(move)
    ensures Coherent(b.(d := Make(b.d, move)), h, decay)
    ensures Make(b.d, move).pending == b.d.pending && Make(b.d, move).fired == b.d.fired
  {
    hide Sound;
    MakeSound(b.d, move);
  }

  /** In every run, whatever the other users of the dispatcher do: the index is above 0 only with a cooldown
      pending, throughout, exactly when no cooldown is refused. */
  lemma {:induction false} RunKeepsIff(b: BackoffState, ops: seq<Op>, h: Handle, decay: seq<nat>)
    requires Coherent(b, h, decay) && Cooling(b, h) && AllPermitted(ops, h)
    ensures (forall k :: 0 <= k <= |ops| ==> Cooling(Run(b, ops[..k], h, decay), h)) <==> Granted(b, ops, h, decay)
    ensures Coherent(Run(b, ops, h, decay), h, decay)
    ensures Granted(b, ops, h, decay) ==> Cooling(Run(b, ops, h, decay), h)
    decreases |ops|
  {
    hide Sound, CooldownOnly, Cooling, Do, Refused;
    if ops != [] {
      DoKeepsIff(b, ops[0], h, decay);
      var c, rest := Do(b, ops[0], h, decay), ops[1..];
      forall k | 1 <= k <= |ops|
        ensures Run(b, ops[..k], h, decay) == Run(c, rest[..k - 1], h, decay)
      {
        assert ops[..k][1..] == rest[..k - 1];
      }
      RunCoherent(c, rest, h, decay);
      if Cooling(c, h) {
        RunKeepsIff(c, rest, h, decay);
        assert ops[..|ops|] == ops && rest[..|rest|] == rest;
        forall k | 0 <= k <= |rest| && (forall j :: 0 <= j <= |ops| ==> Cooling(Run(b, ops[..j], h, decay), h))
          ensures Cooling(Run(c, rest[..k], h, decay), h)
        {
          assert Run(b, ops[..k + 1], h, decay) == Run(c, rest[..k], h, decay);
        }
      } else {
        assert rest[..0] == [] && !Cooling(Run(b, ops[..1], h, decay), h);
      }
    }
  }

  lemma {:induction false} RunCoherent(b: BackoffState, ops: seq<Op>, h: Handle, decay: seq<nat>)
    requires Coherent(b, h, decay) && AllPermitted(ops, h)
    ensures Coherent(Run(b, ops, h, decay), h, decay)
    decreases |ops|
  {
    hide Sound, CooldownOnly, Do;
    if ops != [] {
      DoKeepsIff(b, ops[0], h, decay);
      RunCoherent(Do(b, ops[0], h, decay), ops[1..], h, decay);
    }
  }

  // ---------- enough memory ----------

  predicate FlagsSet(op: Op)
  {
    match op
    case ReportOp(_, eventOk, growOk) => eventOk && growOk
    case FireOp(eventOk, _) => eventOk
    case _ => true
  }

  /** No cooldown is refused as long as memory is granted and, at any time, fewer than 64 events are pending. */
  lemma {:induction false} GrantedIfRoom(b: BackoffState, ops: seq<Op>, h: Handle, decay: seq<nat>)
    requires Coherent(b, h, decay) && AllPermitted(ops, h) && forall i :: 0 <= i < |ops| ==> FlagsSet(ops[i])
    requires forall k :: 0 <= k < |ops| ==> |Run(b, ops[..k], h, decay).d.pending| < 64
    ensures Granted(b, ops, h, decay)
    decreases |ops|
  {
    hide Sound, CooldownOnly, Do, Armed;
    if ops != [] {
      assert ops[..0] == [] && Run(b, ops[..0], h, decay) == b;
      RoomBelow64(b.d);
      DoKeepsIff(b, ops[0], h, decay);
      forall k | 0 <= k < |ops| - 1
        ensures Run(Do(b, ops[0], h, decay), ops[1..][..k], h, decay) == Run(b, ops[..k + 1], h, decay)
      {
        assert ops[..k + 1][1..] == ops[1..][..k];
      }
      GrantedIfRoom(Do(b, ops[0], h, decay), ops[1..], h, decay);
    }
  }

  // ---------- a run without a new failure ----------

  predicate Quiet(op: Op)
  {
    (op.ReportOp? ==> op.cls == NONE) && !op.ResetOp?
  }

  /** When the cooldown fired. */
  function CooldownTimes(fired: seq<Firing>): seq<int>
  {
    if fired == [] then []
    else (if fired[0].entry.handler == COOLDOWN then [fired[0].at] else []) + CooldownTimes(fired[1..])
  }

  /** One step of a quiet run: a firing, or nothing the backoff notices. */
  lemma QuietStep(b: BackoffState, op: Op, h: Handle, decay: seq<nat>)
    requires Coherent(b, h, decay) && Cooling(b, h) && Permitted(op, h) && Quiet(op) && b.cls == NONE
    requires !Refused(b, op, h, decay)
    ensures var c := Do(b, op, h, decay);
            && c.cls == NONE
            && (if op.FireOp? && Due(b.d) then
                  && c.d.fired == b.d.fired + [Firing(b.d.pending[0], b.d.now)]
                  && (if b.d.pending[0].handler == COOLDOWN then
                        && StatusOf(b, h).timer.DueAt?
                        && StatusOf(c, h) == Cooled(StatusOf(b, h).(timer := Off), b.d.now, decay)
                      else StatusOf(c, h) == StatusOf(b, h))
                else c.d.fired == b.d.fired && StatusOf(c, h) == StatusOf(b, h))
  {
    hide Sound, CooldownOnly, IndexOf, AddTime, Fire;
    match op
    case FireOp(eventOk, growOk) =>
      FireIs(b, h, decay, eventOk, growOk);
    case OtherOp(cmd) =>
      OthersKeep(b.d, cmd, h);
    case SilentOp(move) =>
      SilentKeeps(b, move, h, decay);
    case _ =>
  }

  /** How often it can fire before it is off. */
  function FiringsLeft(s: Status): nat
  {
    if s.timer == Off then 0 else Max(s.index, 1)
  }

  lemma CooledLeft(s: Status, now: int, decay: seq<nat>)
    requires s.index < |decay| && s.cls == NONE && s.timer.DueAt?
    ensures FiringsLeft(Cooled(s.(timer := Off), now, decay)) == FiringsLeft(s) - 1
  {
  }

  /** In a run of the dispatcher in which no failure is reported and no cooldown refused, the backoff does
      what its firings do, at the times the dispatcher fired them. */
  lemma {:induction false} RunIsFirings(b: BackoffState, ops: seq<Op>, h: Handle, decay: seq<nat>)
    requires Coherent(b, h, decay) && Cooling(b, h) && AllPermitted(ops, h) && Granted(b, ops, h, decay)
    requires b.cls == NONE && forall i :: 0 <= i < |ops| ==> Quiet(ops[i])
    ensures var c := Run(b, ops, h, decay);
            && b.d.fired <= c.d.fired
            && StatusOf(c, h) == FiringsAt(StatusOf(b, h), CooldownTimes(c.d.fired[|b.d.fired|..]), decay)
            && |CooldownTimes(c.d.fired[|b.d.fired|..])| <= FiringsLeft(StatusOf(b, h))
    decreases |ops|
  {
    hide Sound, CooldownOnly, Cooling, Do, Refused, Cooled, FiringsLeft, FiringsAt, CooldownTimes, Armed, IndexOf;
    if ops == [] {
      assert b.d.fired[|b.d.fired|..] == [];
      NoFirings(StatusOf(b, h), decay);
    } else {
      var op, c := ops[0], Do(b, ops[0], h, decay);
      DoKeepsIff(b, op, h, decay);
      QuietStep(b, op, h, decay);
      RunIsFirings(c, ops[1..], h, decay);
      var e := Run(c, ops[1..], h, decay);
      if op.FireOp? && Due(b.d) {
        var x := Firing(b.d.pending[0], b.d.now);
        assert e.d.fired[|b.d.fired|] == x;
        assert e.d.fired[|b.d.fired|..] == [x] + e.d.fired[|c.d.fired|..];
        FiringsCons(StatusOf(b, h), StatusOf(c, h), x, e.d.fired[|c.d.fired|..], decay);
      }
    }
  }

  lemma NoFirings(s: Status, decay: seq<nat>)
    requires s.index < |decay|
    ensures CooldownTimes([]) == [] && FiringsAt(s, [], decay) == s
  {
  }

  /** One more firing in front. */
  lemma FiringsCons(s: Status, t: Status, x: Firing, rest: seq<Firing>, decay: seq<nat>)
    requires s.index < |decay| && t.index < |decay| && s.cls == NONE
    requires if x.entry.handler == COOLDOWN then s.timer.DueAt? && t == Cooled(s.(timer := Off), x.at, decay)
             else t == s
    ensures FiringsAt(s, CooldownTimes([x] + rest), decay) == FiringsAt(t, CooldownTimes(rest), decay)
    ensures |CooldownTimes(rest)| <= FiringsLeft(t) ==> |CooldownTimes([x] + rest)| <= FiringsLeft(s)
  {
    hide Cooled, FiringsLeft;
    assert ([x] + rest)[1..] == rest;
    if x.entry.handler == COOLDOWN {
      CooledLeft(s, x.at, decay);
      var nows := CooldownTimes([x] + rest);
      assert nows == [x.at] + CooldownTimes(rest);
      assert nows[1..] == CooldownTimes(rest);
    } else {
      assert CooldownTimes([x] + rest) == CooldownTimes(rest);
    }
  }

  /** So in such a run every firing lowers the index by one and re-arms from the step it happens in, and the
      last of as many as the index was high ends it. */
  lemma RunCoolsDown(b: BackoffState, ops: seq<Op>, h: Handle, decay: seq<nat>)
    requires Coherent(b, h, decay) && Cooling(b, h) && AllPermitted(ops, h) && Granted(b, ops, h, decay)
    requires b.cls == NONE && b.index > 0 && forall i :: 0 <= i < |ops| ==> Quiet(ops[i])
    ensures var c := Run(b, ops, h, decay);
            && b.d.fired <= c.d.fired
            && var nows := CooldownTimes(c.d.fired[|b.d.fired|..]);
            && |nows| <= b.index && c.index == b.index - |nows|
            && (nows != [] ==>
                  StatusOf(c, h).timer
                  == if c.index > 0 then DueAt(AddTime(nows[|nows| - 1], decay[c.index])) else Off)
            && (nows == [] ==> StatusOf(c, h) == StatusOf(b, h))
  {
    hide Sound, CooldownOnly, AddTime, Run, Granted, IndexOf;
    RunIsFirings(b, ops, h, decay);
    var c := Run(b, ops, h, decay);
    var nows := CooldownTimes(c.d.fired[|b.d.fired|..]);
    if nows != [] {
      CoolsDown(StatusOf(b, h), nows, decay);
    }
  }

  // ---------- the dispatcher's side of a run ----------

  /** No decay reaches the end of time, no other user schedules into the past, and steps do not go back. */
  predicate OpTimely(b: BackoffState, op: Op, decay: seq<nat>)
  {
    && -TIME_MAX - 1 <= b.d.now && (forall i :: 0 <= i < |decay| ==> b.d.now + decay[i] <= TIME_MAX)
    && (op.OtherOp? ==> NotPast(b.d.now, op.cmd)) && (op.SilentOp? ==> MoveWhere(b.d.now, op.move, NotPast))
  }

  ghost predicate RunTimely(b: BackoffState, ops: seq<Op>, h: Handle, decay: seq<nat>)
    requires b.index < |decay|
    decreases |ops|
  {
    ops == [] || (OpTimely(b, ops[0], decay) && RunTimely(Do(b, ops[0], h, decay), ops[1..], h, decay))
  }

  function ArmCall(b: BackoffState, h: Handle, decay: seq<nat>, eventOk: bool, growOk: bool): Cmd
    requires b.index < |decay|
  {
    if Armed(b.d.pending, h) then Cmd.Restart(h, decay[b.index])
    else Schedule(COOLDOWN, decay[b.index], h, eventOk, growOk)
  }

  /** What one operation does to the dispatcher. */
  function DoMoves(b: BackoffState, op: Op, h: Handle, decay: seq<nat>): seq<Move>
    requires b.index < |decay|
  {
    match op
    case ReportOp(cls, eventOk, growOk) =>
      if cls == NONE then []
      else [Calls(ArmCall(b.(index := Raised(b.index, |decay|)), h, decay, eventOk, growOk))]
    case SilentOp(move) => [move]
    case OtherOp(cmd) => [Calls(cmd)]
    case FireOp(eventOk, growOk) =>
      if !Due(b.d) then [] else [PopTimed] + CooldownMoves(b, h, decay, eventOk, growOk)
    case ResetOp => [Calls(Cmd.Cancel(h))]
  }

  function CooldownMoves(b: BackoffState, h: Handle, decay: seq<nat>, eventOk: bool, growOk: bool): seq<Move>
    requires b.index < |decay| && Due(b.d)
  {
    var c := b.(d := Pop(b.d), index := Lowered(b.index, b.cls));
    if b.d.pending[0].handler != COOLDOWN || c.index == 0 then []
    else [Calls(ArmCall(c, h, decay, eventOk, growOk))]
         + if Armed(Arm(c, h, decay, eventOk, growOk).d.pending, h) then [] else [Halt]
  }

  lemma ArmPlays(b: BackoffState, h: Handle, decay: seq<nat>, eventOk: bool, growOk: bool)
    requires b.index < |decay|
    ensures var m := Calls(ArmCall(b, h, decay, eventOk, growOk));
            && Make(b.d, m) == Arm(b, h, decay, eventOk, growOk).d
            && (-TIME_MAX - 1 <= b.d.now && b.d.now + decay[b.index] <= TIME_MAX ==> MoveWhere(b.d.now, m, NotPast))
  {
    hide Apply, Armed;
  }

  lemma CooldownPlays(b: BackoffState, h: Handle, decay: seq<nat>, eventOk: bool, growOk: bool)
    requires b.index < |decay| && Due(b.d)
    ensures var moves := CooldownMoves(b, h, decay, eventOk, growOk);
            && Play(Pop(b.d), moves) == Fire(b, h, decay, eventOk, growOk).d
            && (OpTimely(b, FireOp(eventOk, growOk), decay) ==> PlayWhere(Pop(b.d), moves, NotPast))
  {
    hide Apply, ArmCall, Armed, Play, PlayWhere, MoveWhere;
    NoMoves(Pop(b.d), NotPast);
    var c := b.(d := Pop(b.d), index := Lowered(b.index, b.cls));
    if b.d.pending[0].handler == COOLDOWN && c.index > 0 {
      var m := Calls(ArmCall(c, h, decay, eventOk, growOk));
      ArmPlays(c, h, decay, eventOk, growOk);
      PlayOne(c.d, m, NotPast);
      PlayFirst(c.d, m, [Halt], NotPast);
      HaltPlays(Make(c.d, m));
      assert [m] + [] == [m];
    }
  }

  lemma HaltPlays(s: DState)
    ensures Play(s, [Halt]) == s.(stop := true) && PlayWhere(s, [Halt], NotPast)
  {
    PlayOne(s, Halt, NotPast);
  }

  lemma DoPlays(b: BackoffState, op: Op, h: Handle, decay: seq<nat>)
    requires b.index < |decay|
    ensures Play(b.d, DoMoves(b, op, h, decay)) == Do(b, op, h, decay).d
    ensures OpTimely(b, op, decay) ==> PlayWhere(b.d, DoMoves(b, op, h, decay), NotPast)
  {
    hide Arm, ArmCall, Apply, Fire, CooldownMoves, Play, PlayWhere;
    NoMoves(b.d, NotPast);
    match op
    case ReportOp(cls, eventOk, growOk) =>
      var c := b.(cls := cls, index := Raised(b.index, |decay|));
      ArmPlays(c, h, decay, eventOk, growOk);
      SameArm(b, cls, h, decay, eventOk, growOk);
      PlayOne(b.d, Calls(ArmCall(c, h, decay, eventOk, growOk)), NotPast);
    case SilentOp(move) => PlayOne(b.d, move, NotPast);
    case OtherOp(cmd) => PlayOne(b.d, Calls(cmd), NotPast);
    case FireOp(eventOk, growOk) =>
      if Due(b.d) {
        CooldownPlays(b, h, decay, eventOk, growOk);
        PlayFirst(b.d, PopTimed, CooldownMoves(b, h, decay, eventOk, growOk), NotPast);
      } else {
        NotDueFire(b, h, decay, eventOk, growOk);
      }
    case ResetOp => PlayOne(b.d, Calls(Cmd.Cancel(h)), NotPast);
  }

  lemma SameArm(b: BackoffState, cls: Class, h: Handle, decay: seq<nat>, eventOk: bool, growOk: bool)
    requires b.index < |decay|
    ensures var i := Raised(b.index, |decay|);
            ArmCall(b.(cls := cls, index := i), h, decay, eventOk, growOk)
            == ArmCall(b.(index := i), h, decay, eventOk, growOk)
  {
  }

  lemma NotDueFire(b: BackoffState, h: Handle, decay: seq<nat>, eventOk: bool, growOk: bool)
    requires b.index < |decay| && !Due(b.d)
    ensures Fire(b, h, decay, eventOk, growOk) == b
  {
  }

  /** What a run does to the dispatcher is a run of the dispatcher's moves. */
  lemma {:induction false} BackoffPlays(b: BackoffState, ops: seq<Op>, h: Handle, decay: seq<nat>)
    returns (moves: seq<Move>)
    requires b.index < |decay|
    ensures Play(b.d, moves) == Run(b, ops, h, decay).d
    ensures RunTimely(b, ops, h, decay) ==> PlayWhere(b.d, moves, NotPast)
    decreases |ops|
  {
    hide Do, DoMoves, OpTimely;
    moves := [];
    if ops != [] {
      DoPlays(b, ops[0], h, decay);
      var rest := BackoffPlays(Do(b, ops[0], h, decay), ops[1..], h, decay);
      PlayConcat(b.d, DoMoves(b, ops[0], h, decay), rest, NotPast);
      moves := DoMoves(b, ops[0], h, decay) + rest;
    }
  }

  /** So cooldowns, and all other timed events, fire in order. */
  lemma CooldownsFireInOrder(b: BackoffState, ops: seq<Op>, h: Handle, decay: seq<nat>)
    requires b.index < |decay| && Ordered(b.d) && RunTimely(b, ops, h, decay)
    ensures InOrder(Run(b, ops, h, decay).d.fired)
  {
    hide Run, RunTimely, InOrder, NotBefore;
    var moves := BackoffPlays(b, ops, h, decay);
    PlayOrdered(b.d, moves);
  }

  // ---------- a run with a refusal ----------

  /** One failure reported without memory for the cooldown: level 1 with nothing on its way. */
  lemma RefusedReport(d: DState, h: Handle, growOk: bool)
    requires Sound(d) && CooldownOnly(d.pending, h) && !Armed(d.pending, h)
    ensures var b, ops := BackoffState(d, 0, NONE), [ReportOp(RECOVERABLE, false, growOk)];
            && Coherent(b, h, DECAY_LUT) && Cooling(b, h) && AllPermitted(ops, h)
            && Run(b, ops, h, DECAY_LUT) == BackoffState(d, 1, RECOVERABLE)
            && !Cooling(Run(b, ops, h, DECAY_LUT), h)
  {
    hide Sound, CooldownOnly;
    var op := ReportOp(RECOVERABLE, false, growOk);
    assert [op][1..] == [];
  }
}

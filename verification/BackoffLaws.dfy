/** What failures, cooldowns and penalties mean for the table index, in numbers. */
module BackoffLaws {
  import opened TimerSpec
  import opened DispatcherSpec
  import opened DispatcherRuns
  import opened BackoffSpec

  // ---------- the penalty ----------

  /** At the lowest level the penalty is the first entry, whatever is drawn. */
  lemma LowestPenalty(lut: seq<nat>, draw: nat)
    requires lut != []
    ensures Penalty(lut, 0, draw) == lut[0]
  {
    assert draw % 1 == 0;
  }

  /** Above it a draw up to the previous entry shifts the penalty by that much, from the entry less half the
      previous one (at least 1); it never falls below the first entry; and draws count modulo their range. */
  lemma PenaltyIs(lut: seq<nat>, i: nat, draw: nat)
    requires 0 < i < |lut|
    ensures draw <= lut[i - 1] ==>
              var shifted := lut[i] + draw - (if lut[i - 1] >= 2 then lut[i - 1] / 2 else 1);
              Penalty(lut, i, draw) == if shifted > lut[0] then shifted else lut[0]
    ensures Penalty(lut, i, draw + (lut[i - 1] + 1)) == Penalty(lut, i, draw)
  {
    DrawWraps(draw, lut[i - 1]);
  }

  lemma DrawWraps(draw: nat, range: nat)
    ensures draw <= range ==> draw % (range + 1) == draw
    ensures (draw + (range + 1)) % (range + 1) == draw % (range + 1)
  {
    var m := range + 1;
    assert draw == m * (draw / m) + draw % m;
    assert draw + m == m * (draw / m + 1) + draw % m;
    Quotient(draw + m, m, draw / m + 1, draw % m);
  }

  lemma Quotient(x: nat, m: nat, q: nat, r: nat)
    requires m > 0 && x == m * q + r && r < m
    ensures x % m == r
  {
    var d := q - x / m;
    assert m * d == x % m - r;
    AtLeast(m, d);
    AtLeast(m, -d);
    assert m * -d == -(m * d);
  }

  lemma AtLeast(m: nat, d: int)
    ensures d >= 1 ==> m * d >= m
  {
    if d > 1 {
      assert m * d == m + m * (d - 1);
      AtLeast(m, d - 1);
    }
  }

  // ---------- failures ----------

  predicate Failure(op: Op)
  {
    op.ReportOp? && op.cls != NONE
  }

  /** One reported failure goes one level up, but not above the last; the cooldown, if it is pending or memory is
      granted, is due the decay of the new level after now. */
  lemma FailureRaises(b: BackoffState, op: Op, h: Handle, decay: seq<nat>)
    requires Coherent(b, h, decay) && Failure(op)
    ensures var c := Do(b, op, h, decay);
            && c.index == (if b.index + 1 < |decay| then b.index + 1 else |decay| - 1) && b.index <= c.index
            && c.cls == op.cls && c.d.now == b.d.now && Coherent(c, h, decay)
            && (Armed(b.d.pending, h) || (op.eventOk && Accepts(|b.d.pending|, b.d.capacity, op.growOk)) ==>
                  Armed(c.d.pending, h)
                  && c.d.pending[IndexOf(c.d.pending, h)].time == AddTime(b.d.now, decay[c.index]))
  {
    hide Sound, CooldownOnly, AddTime, IndexOf, Accepts;
    ArmArms(b.(cls := op.cls, index := Raised(b.index, |decay|)), h, decay, op.eventOk, op.growOk);
  }

  /** After n failures in a row from index i the index is i + n or the last level, whichever is less; the cooldown,
      once pending, is due the decay of that level after now. */
  lemma {:induction false} RepeatedFailures(b: BackoffState, ops: seq<Op>, h: Handle, decay: seq<nat>)
    requires Coherent(b, h, decay) && forall i :: 0 <= i < |ops| ==> Failure(ops[i])
    ensures var c := BackoffSpec.Run(b, ops, h, decay);
            && c.index == (if b.index + |ops| < |decay| then b.index + |ops| else |decay| - 1)
            && c.d.now == b.d.now && Coherent(c, h, decay)
            && (ops != [] && Armed(b.d.pending, h) ==>
                  Armed(c.d.pending, h)
                  && c.d.pending[IndexOf(c.d.pending, h)].time == AddTime(b.d.now, decay[c.index]))
    decreases |ops|
  {
    hide Sound, CooldownOnly, AddTime, IndexOf, Do, Armed;
    if ops != [] {
      FailureRaises(b, ops[0], h, decay);
      RepeatedFailures(Do(b, ops[0], h, decay), ops[1..], h, decay);
    }
  }

  // ---------- cooldowns while the last state reported was a failure ----------

  /** Then a firing keeps the index, above 0, and re-arms with its decay. */
  lemma {:induction false} FailingKeepsIndex(b: Status, nows: seq<int>, decay: seq<nat>)
    requires b.index < |decay| && b.cls != NONE && b.index > 0 && b.timer.DueAt? && nows != []
    ensures FiringsAt(b, nows, decay) == b.(timer := DueAt(AddTime(nows[|nows| - 1], decay[b.index])))
    decreases |nows|
  {
    var c := Cooled(b.(timer := Off), nows[0], decay);
    if |nows| == 1 {
      assert FiringsAt(b, nows, decay) == FiringsAt(c, nows[1..], decay) == c;
    } else {
      FailingKeepsIndex(c, nows[1..], decay);
    }
  }

  /** At the lowest level, or on reaching it, a firing is the last one. */
  lemma LastFiring(b: Status, now: int, decay: seq<nat>)
    requires b.index < |decay| && b.timer.DueAt? && (b.index == 0 || (b.index == 1 && b.cls == NONE))
    ensures FiringsAt(b, [now], decay) == Status(0, b.cls, Off)
  {
    assert [now][1..] == [];
    assert FiringsAt(Cooled(b.(timer := Off), now, decay), [], decay) == Cooled(b.(timer := Off), now, decay);
  }

  // ---------- the other operations ----------

  /** Moves and calls of others, and a good state reported, leave index and cooldown alone; a reset clears both. */
  lemma OthersAct(b: BackoffState, op: Op, h: Handle, decay: seq<nat>)
    requires Coherent(b, h, decay) && Permitted(op, h)
    ensures op.SilentOp? ==> Do(b, op, h, decay) == b.(d := Make(b.d, op.move))
    ensures op.OtherOp? ==> Do(b, op, h, decay) == b.(d := Apply(b.d, op.cmd))
    ensures op.ReportOp? && op.cls == NONE ==> Do(b, op, h, decay) == b.(cls := NONE)
    ensures op.ResetOp? ==>
              var c := Do(b, op, h, decay);
              c.index == 0 && c.cls == b.cls && !Armed(c.d.pending, h) && c.d == Apply(b.d, Cmd.Cancel(h))
  {
    hide Sound, CooldownOnly, Apply, Make;
    SoundHandles(b.d);
    CancelEmpties(b.d, h);
  }

  /** A run goes on from where it is. */
  lemma {:induction false} RunAppend(b: BackoffState, ops: seq<Op>, op: Op, h: Handle, decay: seq<nat>)
    requires b.index < |decay|
    ensures BackoffSpec.Run(b, [], h, decay) == b
    ensures BackoffSpec.Run(b, ops + [op], h, decay) == Do(BackoffSpec.Run(b, ops, h, decay), op, h, decay)
    decreases |ops|
  {
    hide Do;
    if ops == [] {
      assert [] + [op] == [op] && [op][1..] == [];
    } else {
      assert (ops + [op])[1..] == ops[1..] + [op];
      RunAppend(Do(b, ops[0], h, decay), ops[1..], op, h, decay);
    }
  }
}

/** The event dispatcher as a state machine. Handlers are open: what the k-th executed handler did is
    given as a reaction, so a statement about all reactions is a statement about all handlers. */
module DispatcherSpec {
  import opened Sequences
  import opened TimerSpec

  const TIME_MAX := 0x7FFF_FFFF_FFFF_FFFF
  const TIME_SPAN := 0x1_0000_0000_0000_0000

  /** Addition of two 64-bit signed times. */
  function AddTime(a: int, b: int): int
  {
    var sum := a + b;
    if sum > TIME_MAX then sum - TIME_SPAN else if sum < -TIME_MAX - 1 then sum + TIME_SPAN else sum
  }

  /** One call a handler, or a client between steps, makes on the dispatcher. Calls whose assertions the
      client has to guard (scheduling with an armed handle, cancelling or restarting an empty one) are
      skipped, as the guarded calls in the library do. The flags say whether memory was granted. */
  datatype Cmd =
    | Schedule(handler: EventHandle, delay: int, handle: Handle?, eventOk: bool, growOk: bool)
    | Cancel(which: Handle)
    | Restart(which: Handle, delay: int)
    | Enqueue(handler: EventHandle, memoryOk: bool)
    | WhenEmpty(handler: EventHandle)

  /** What one execution of a handler did, and whether it returned a fatal state. */
  datatype Reaction = Reaction(cmds: seq<Cmd>, fatal: bool)

  datatype OnEmpty = Unset | Set(handler: EventHandle)

  datatype Firing = Firing(entry: Entry, at: int)

  /** The dispatcher's fields, then the history: what fired, which events were cancelled, which calls
      were accepted into the queue, which were served, which on-empty handlers ran. */
  datatype DState = DState(now: int, capacity: nat, pending: seq<Entry>, calls: seq<EventHandle>, onEmpty: OnEmpty,
                           stop: bool, nextId: nat, fired: seq<Firing>, cancelled: seq<nat>,
                           accepted: seq<EventHandle>, served: seq<EventHandle>, emptied: seq<EventHandle>)

  function Initial(): DState
  {
    DState(0, 2, [], [], Unset, false, 0, [], [], [], [], [])
  }

  // ---------- transitions ----------

  function Apply(s: DState, c: Cmd): DState
  {
    match c
    case Schedule(handler, delay, h, eventOk, growOk) =>
      if (h != null && Armed(s.pending, h)) || !eventOk || !Accepts(|s.pending|, s.capacity, growOk) then s
      else s.(pending := Insert(s.pending, Entry(s.nextId, AddTime(s.now, delay), handler, h)),
              capacity := Grown(|s.pending|, s.capacity), nextId := s.nextId + 1)
    case Cancel(h) =>
      if !Armed(s.pending, h) then s
      else var i := IndexOf(s.pending, h);
           s.(pending := RemoveAt(s.pending, i), cancelled := s.cancelled + [s.pending[i].id])
    case Restart(h, delay) =>
      if !Armed(s.pending, h) then s
      else s.(pending := Retimed(s.pending, IndexOf(s.pending, h), AddTime(s.now, delay)))
    case Enqueue(handler, memoryOk) =>
      if !memoryOk then s else s.(calls := s.calls + [handler], accepted := s.accepted + [handler])
    case WhenEmpty(handler) =>
      s.(onEmpty := Set(handler))
  }

  function ApplyAll(s: DState, cmds: seq<Cmd>): DState
    decreases |cmds|
  {
    if cmds == [] then s else ApplyAll(Apply(s, cmds[0]), cmds[1..])
  }

  predicate Due(s: DState)
  {
    s.pending != [] && s.pending[0].time <= s.now
  }

  function Pop(s: DState): DState
    requires s.pending != []
  {
    s.(pending := s.pending[1..], fired := s.fired + [Firing(s.pending[0], s.now)])
  }

  /** One iteration of the timed loop: pop, then run the handler; a fatal result stops the dispatcher. */
  function FireOne(s: DState, r: Reaction): DState
    requires s.pending != []
  {
    var t := ApplyAll(Pop(s), r.cmds);
    if r.fatal then t.(stop := true) else t
  }

  /** The timed loop, as far as reactions are given. */
  function TimedPhase(s: DState, rs: seq<Reaction>): DState
    decreases |rs|
  {
    if rs == [] || !Due(s) then s else TimedPhase(FireOne(s, rs[0]), rs[1..])
  }

  function PopCall(s: DState): DState
    requires s.calls != []
  {
    s.(calls := s.calls[1..], served := s.served + [s.calls[0]])
  }

  function ServeOne(s: DState, r: Reaction): DState
    requires s.calls != []
  {
    ApplyAll(PopCall(s), r.cmds)
  }

  /** The call queue loop, as far as reactions are given. */
  function CallPhase(s: DState, rs: seq<Reaction>): DState
    decreases |rs|
  {
    if rs == [] || s.calls == [] then s else CallPhase(ServeOne(s, rs[0]), rs[1..])
  }

  /** With no timed event left, the on-empty handler runs once and is then disposed of. */
  function EmptyPhase(s: DState, r: Reaction): DState
  {
    if s.pending == [] && s.onEmpty.Set? then
      ApplyAll(s.(emptied := s.emptied + [s.onEmpty.handler]), r.cmds).(onEmpty := Unset)
    else s
  }

  function Step(s: DState, newStep: int, timed: seq<Reaction>, calls: seq<Reaction>, empty: Reaction): DState
  {
    EmptyPhase(CallPhase(TimedPhase(s.(now := newStep), timed), calls), empty)
  }

  /** What happens to a dispatcher: the loop steps it, or somebody calls it between steps. */
  datatype Action =
    | StepTo(newStep: int, timed: seq<Reaction>, calls: seq<Reaction>, empty: Reaction)
    | Client(cmd: Cmd)

  function Act(s: DState, a: Action): DState
  {
    match a
    case StepTo(newStep, timed, calls, empty) => Step(s, newStep, timed, calls, empty)
    case Client(cmd) => Apply(s, cmd)
  }

  function Run(s: DState, actions: seq<Action>): DState
    decreases |actions|
  {
    if actions == [] then s else Run(Act(s, actions[0]), actions[1..])
  }

  // ---------- the same in single moves ----------

  /** The parts that steps are made of. Everything a handler calls is a move of its own. */
  datatype Move =
    | TickTo(newStep: int)
    | PopTimed
    | PopQueued
    | TakeEmpty
    | DropEmpty
    | Halt
    | Calls(cmd: Cmd)

  function Make(s: DState, m: Move): DState
  {
    match m
    case TickTo(newStep) => s.(now := newStep)
    case PopTimed => if Due(s) then Pop(s) else s
    case PopQueued => if s.calls == [] then s else PopCall(s)
    case TakeEmpty =>
      if s.pending == [] && s.onEmpty.Set? then s.(emptied := s.emptied + [s.onEmpty.handler]) else s
    case DropEmpty => s.(onEmpty := Unset)
    case Halt => s.(stop := true)
    case Calls(cmd) => Apply(s, cmd)
  }

  function Play(s: DState, moves: seq<Move>): DState
    decreases |moves|
  {
    if moves == [] then s else Play(Make(s, moves[0]), moves[1..])
  }

  /** The timed events are not concerned. */
  predicate Silent(m: Move)
  {
    !m.PopTimed? && !m.Calls?
  }

  // ---------- the timing discipline a run may keep ----------

  /** What is scheduled or restarted is due at `slack` or more from now on, wrap-around included. */
  predicate Ahead(now: int, c: Cmd, slack: int)
  {
    c.Schedule? || c.Restart? ==> now + slack <= AddTime(now, c.delay)
  }

  predicate NotPast(now: int, c: Cmd)
  {
    Ahead(now, c, 0)
  }

  predicate Later(now: int, c: Cmd)
  {
    Ahead(now, c, 1)
  }

  /** A delay of at least `least`, and a due time, before any wrap-around, of at most `most`. */
  predicate Bounded(now: int, c: Cmd, least: int, most: int)
  {
    c.Schedule? || c.Restart? ==> least <= c.delay && -TIME_MAX - 1 <= now + c.delay <= most
  }

  function Within(least: int, most: int): (int, Cmd) -> bool
  {
    (now, c) => Bounded(now, c, least, most)
  }

  ghost predicate CmdsWhere(now: int, cmds: seq<Cmd>, ok: (int, Cmd) -> bool)
  {
    forall i :: 0 <= i < |cmds| ==> ok(now, cmds[i])
  }

  ghost predicate ReactionsWhere(now: int, rs: seq<Reaction>, ok: (int, Cmd) -> bool)
  {
    forall i :: 0 <= i < |rs| ==> CmdsWhere(now, rs[i].cmds, ok)
  }

  /** Steps do not go back, and all calls are as required of the step they are made in. */
  ghost predicate RunWhere(now: int, actions: seq<Action>, ok: (int, Cmd) -> bool)
    decreases |actions|
  {
    actions == [] ||
    match actions[0]
    case StepTo(newStep, timed, calls, empty) =>
      && now <= newStep && ReactionsWhere(newStep, timed, ok) && ReactionsWhere(newStep, calls, ok)
      && CmdsWhere(newStep, empty.cmds, ok) && RunWhere(newStep, actions[1..], ok)
    case Client(cmd) =>
      ok(now, cmd) && RunWhere(now, actions[1..], ok)
  }

  predicate MoveWhere(now: int, m: Move, ok: (int, Cmd) -> bool)
  {
    match m
    case TickTo(newStep) => now <= newStep
    case Calls(cmd) => ok(now, cmd)
    case _ => true
  }

  predicate PlayWhere(s: DState, moves: seq<Move>, ok: (int, Cmd) -> bool)
    decreases |moves|
  {
    moves == [] || (MoveWhere(s.now, moves[0], ok) && PlayWhere(Make(s, moves[0]), moves[1..], ok))
  }
}

/**
 What every run of the simulation machine keeps, whatever interrupts arrive, whatever throws and
 whenever the watchdog runs out.
 */
module MachineTheorems {
  import opened Prelude
  import opened Machine
  import S = Schedule

  // ----- Where control comes from -----

  /** After the first `k` entries, nominal flow goes on with `id`. */
  predicate Follows(trace: seq<Entry>, k: nat, id: Option<StateId>)
    requires k <= |trace|
  {
    if k == 0 then id == Some(CONNECT) else trace[k - 1].Completed() && trace[k - 1].Next() == id
  }

  /** The interrupts that leave nominal flow (PAUSE and RESUME only set a flag). */
  predicate Diverts(i: StateId) {
    IsInterrupt(i) && i != PAUSE && i != RESUME
  }

  /** The last of the first `k` entries threw something that is not fatal, and `i` is the interrupt
      that it is turned into. */
  predicate ThrewInto(trace: seq<Entry>, k: nat, i: StateId)
    requires k <= |trace|
  {
    && k > 0 && !trace[k - 1].timedOut && trace[k - 1].ending.Threw? && trace[k - 1].ending.what != Fatal
    && i == match trace[k - 1].ending.what
            case ModelReset => RESET
            case ModelStop => STOP
            case _ => ABORT
  }

  /** Either the last state left control where nominal flow goes on with `id`, or it threw, and the
      interrupt for that is `i`. */
  predicate FollowsOrThrew(trace: seq<Entry>, k: nat, id: Option<StateId>, i: Option<StateId>)
    requires k <= |trace|
  {
    Follows(trace, k, id) || (i.Some? && ThrewInto(trace, k, i.value))
  }

  /** The last state threw something fatal, or something else while an interrupt was pending. */
  predicate Escapes(trace: seq<Entry>, k: nat, mailbox: Option<StateId>)
    requires k <= |trace|
  {
    && k > 0 && !trace[k - 1].timedOut && trace[k - 1].ending.Threw?
    && (trace[k - 1].ending.what == Fatal || mailbox.Some?)
  }

  predicate FlowOk(m: Machine) {
    var k := |m.trace|;
    && (m.mailbox.Some? ==> IsInterrupt(m.mailbox.value))
    && (k > 0 && m.trace[k - 1].timedOut ==> m.config.watchdog == if m.pc == Killed then Kill else AbortAfterwards)
    && match m.pc
       case Top(id) => FollowsOrThrew(m.trace, k, id, m.mailbox)
       case Handling(id, i) => IsInterrupt(i) && FollowsOrThrew(m.trace, k, id, Some(i))
       case Running(s) => Follows(m.trace, k, Some(s))
       case Catching(_, i) => ThrewInto(m.trace, k, i)
       case Done => Follows(m.trace, k, None)
       case Escaped => Escapes(m.trace, k, m.mailbox)
       case Killed => k > 0 && m.trace[k - 1].timedOut
  }

  /** The state that nominal flow goes on with after a state that ended without an exception. */
  function Successor(config: Config, e: Entry): Option<StateId> {
    match e.state
    case CONNECT => Some(if !e.choice.yes then ABORT else if config.probe then PROBE else START)
    case PROBE => Some(DISCONNECT)
    case START => Some(if e.pause then PAUSE else STEP_BEGIN)
    case STEP_BEGIN => Some(if e.choice.yes then STEP_SIMULATORS else STOP)
    case STEP_SIMULATORS => Some(STEP_CONTROLLERS)
    case STEP_CONTROLLERS => Some(STEP_END)
    case STEP_END => Some(if e.pause then PAUSE else STEP_BEGIN)
    case PAUSE => Some(if e.pause then PAUSE else RESUME)
    case RESUME => Some(STEP_BEGIN)
    case SUCCESS => Some(STOP)
    case FAIL => Some(STOP)
    case ABORT => Some(DISCONNECT)
    case STOP => Some(if e.choice.yes then KEEP_ALIVE else DISCONNECT)
    case RESET => Some(if e.choice.yes then CONNECT else ABORT)
    case KEEP_ALIVE => Some(KEEP_ALIVE)
    case DISCONNECT => None
  }

  /** How a state ends: with its successor, or with an exception, which is the one that was thrown
      in it or fatal. Only ABORT keeps what is thrown to itself. */
  predicate EndingOk(config: Config, e: Entry) {
    match e.ending
    case Returned(next) => next == Successor(config, e) && (e.choice.throws.None? || e.state == ABORT)
    case Threw(what) => what == Fatal || e.choice.throws == Some(what)
  }

  predicate EntryOk(config: Config, trace: seq<Entry>, k: nat)
    requires k < |trace|
  {
    var e := trace[k];
    && (if e.nominal then Follows(trace, k, Some(e.state))
        else Diverts(e.state) && (k > 0 && !trace[k - 1].Completed() ==> ThrewInto(trace, k, e.state)))
    && EndingOk(config, e)
    && (e.timedOut <==> e.nominal && e.choice.timedOut && config.watchdog in {AbortAfterwards, Kill})
    && (k > 0 && trace[k - 1].timedOut ==> config.watchdog == AbortAfterwards)
  }

  ghost predicate TraceOk(m: Machine) {
    && m.prev == (if m.trace == [] then None else Some(m.trace[|m.trace| - 1].state))
    && forall k | 0 <= k < |m.trace| :: EntryOk(m.config, m.trace, k)
  }

  lemma ImplEnds(config: Config, s: StateId, prev: Option<StateId>, c: Context, ch: Choice, e: Entry)
    requires e.state == s && e.choice == ch && e.pause == c.pause
    requires e.ending == Impl(config, s, prev, c, ch).0
    ensures EndingOk(config, e)
  {
    BodyEnds(config, s, prev, Executed(if s == STEP_END then c else Stored(c, ch), ch), ch, e);
  }

  lemma BodyEnds(config: Config, s: StateId, prev: Option<StateId>, c: Context, ch: Choice, e: Entry)
    requires e.state == s && e.choice == ch && e.pause == c.pause
    requires e.ending == Body(config, s, prev, c, ch).0
    ensures EndingOk(config, e)
  {
  }

  lemma RunStateEntry(m: Machine, s: StateId, kept: Option<StateId>, nominal: bool, ch: Choice) returns (e: Entry)
    ensures var (ending, c') := Impl(m.config, s, m.prev, m.ctx, ch);
            var m' := RunState(m, s, kept, nominal, ch);
            && m'.trace == m.trace + [e] && m'.ctx == c' && m'.prev == Some(s) && m'.config == m.config
            && m'.mailbox == m.mailbox && m'.accepted == m.accepted && m'.taken == m.taken
            && e.state == s && e.nominal == nominal && e.ending == ending && e.choice == ch
            && e.step == m.ctx.step && e.time == m.ctx.time && e.pause == m.ctx.pause
            && e.taken == |m.taken| && e.stored == |m.ctx.schedule.stored|
  {
    e := RunState(m, s, kept, nominal, ch).trace[|m.trace|];
  }

  /** Where control is after a state, told by its entry. */
  lemma RunStateFlow(m: Machine, s: StateId, kept: Option<StateId>, nominal: bool, ch: Choice, e: Entry)
    requires RunState(m, s, kept, nominal, ch).trace == m.trace + [e]
    requires m.mailbox.Some? ==> IsInterrupt(m.mailbox.value)
    ensures FlowOk(RunState(m, s, kept, nominal, ch))
    ensures e.timedOut <==> nominal && ch.timedOut && m.config.watchdog in {AbortAfterwards, Kill}
  {
  }

  lemma RunStateKeepsFlow(m: Machine, s: StateId, kept: Option<StateId>, nominal: bool, ch: Choice)
    requires FlowOk(m) && TraceOk(m) && m.pc != Killed
    requires if nominal then Follows(m.trace, |m.trace|, Some(s))
             else Diverts(s) && (Follows(m.trace, |m.trace|, kept) || ThrewInto(m.trace, |m.trace|, s))
    ensures var m' := RunState(m, s, kept, nominal, ch);
            FlowOk(m') && TraceOk(m')
  {
    var e := RunStateEntry(m, s, kept, nominal, ch);
    RunStateFlow(m, s, kept, nominal, ch, e);
    ImplEnds(m.config, s, m.prev, m.ctx, ch, e);
    EntriesKept(m, e);
    assert EntryOk(m.config, m.trace + [e], |m.trace|);
  }

  lemma EntriesKept(m: Machine, e: Entry)
    requires TraceOk(m)
    ensures forall k | 0 <= k < |m.trace| :: EntryOk(m.config, m.trace + [e], k)
  {
    forall k | 0 <= k < |m.trace| ensures EntryOk(m.config, m.trace + [e], k) {
      assert EntryOk(m.config, m.trace, k);
    }
  }

  lemma StepKeepsFlow(m: Machine, e: Event)
    requires FlowOk(m) && TraceOk(m)
    ensures FlowOk(Step(m, e)) && TraceOk(Step(m, e))
  {
    match e
    case Push(_) =>
    case Advance(ch) =>
      match m.pc
      case Handling(nominal, i) =>
        if i != PAUSE && i != RESUME {
          RunStateKeepsFlow(m, i, nominal, false, ch);
        }
      case Running(s) => RunStateKeepsFlow(m, s, Some(s), true, ch);
      case _ =>
  }

  // ----- The outcome -----

  /** What running a state makes of the outcome, given the state run before it. */
  function Writes(s: StateId, prev: Option<StateId>, outcome: Option<Outcome>): Option<Outcome> {
    match s
    case CONNECT => Some(NoStart)
    case PROBE => Some(Probing)
    case SUCCESS => Some(Success)
    case FAIL => Some(Failure)
    case STOP => if outcome.None? then Some(Stopped) else outcome
    case ABORT =>
      if prev == Some(KEEP_ALIVE) then outcome else if prev == Some(CONNECT) then Some(NoStart) else Some(Aborted)
    case _ => outcome
  }

  function PrevState(trace: seq<Entry>, k: nat): Option<StateId>
    requires k <= |trace|
  {
    if k == 0 then None else Some(trace[k - 1].state)
  }

  /** The outcome as a fold over the first `k` entries of the trace. */
  function OutcomeAfter(trace: seq<Entry>, k: nat): Option<Outcome>
    requires k <= |trace|
  {
    if k == 0 then None
    else Writes(trace[k - 1].state, PrevState(trace, k - 1), OutcomeAfter(trace, k - 1))
  }

  lemma {:induction false} OutcomeAfterPrefix(trace: seq<Entry>, e: Entry, k: nat)
    requires k <= |trace|
    ensures OutcomeAfter(trace + [e], k) == OutcomeAfter(trace, k)
  {
    if k > 0 {
      OutcomeAfterPrefix(trace, e, k - 1);
    }
  }

  /** Whether the entry is a DISCONNECT that came to its end. */
  predicate Closes(e: Entry) {
    e.state == DISCONNECT && e.ending.Returned?
  }

  ghost predicate OutcomeOk(m: Machine) {
    var k := |m.trace|;
    && m.ctx.outcome == OutcomeAfter(m.trace, k)
    && (k > 0 && m.trace[k - 1].state != RESET ==> m.ctx.outcome.Some?)
    && (k > 0 && Closes(m.trace[k - 1]) ==> m.ctx.result == m.ctx.outcome)
  }

  lemma ImplOutcome(config: Config, s: StateId, prev: Option<StateId>, c: Context, ch: Choice)
    ensures Impl(config, s, prev, c, ch).1.outcome == Writes(s, prev, c.outcome)
  {
    BodyOutcome(config, s, prev, Executed(if s == STEP_END then c else Stored(c, ch), ch), ch);
  }

  lemma BodyOutcome(config: Config, s: StateId, prev: Option<StateId>, c: Context, ch: Choice)
    ensures Body(config, s, prev, c, ch).1.outcome == Writes(s, prev, c.outcome)
  {
  }

  lemma DisconnectCaptures(config: Config, prev: Option<StateId>, c: Context, ch: Choice)
    requires c.outcome.Some?
    ensures var (ending, c') := Impl(config, DISCONNECT, prev, c, ch);
            ending.Returned? ==> ending.next == None && c'.result == c.outcome == c'.outcome
  {
  }

  /** As long as no outcome is set, only RESET has run, and nominal flow starts over or aborts. */
  lemma UndecidedFlow(m: Machine, s: StateId)
    requires TraceOk(m) && OutcomeOk(m) && Follows(m.trace, |m.trace|, Some(s))
    ensures m.ctx.outcome.None? ==> s == CONNECT || s == ABORT
  {
    if m.trace != [] {
      assert EntryOk(m.config, m.trace, |m.trace| - 1);
    }
  }

  lemma RunStateKeepsOutcome(m: Machine, s: StateId, kept: Option<StateId>, nominal: bool, ch: Choice)
    requires TraceOk(m) && OutcomeOk(m)
    requires if nominal then Follows(m.trace, |m.trace|, Some(s)) else Diverts(s)
    ensures OutcomeOk(RunState(m, s, kept, nominal, ch))
  {
    var e := RunStateEntry(m, s, kept, nominal, ch);
    if nominal {
      UndecidedFlow(m, s);
    }
    ImplOutcome(m.config, s, m.prev, m.ctx, ch);
    if s == DISCONNECT {
      DisconnectCaptures(m.config, m.prev, m.ctx, ch);
    }
    ExtendOutcome(m, RunState(m, s, kept, nominal, ch), e);
  }

  lemma ExtendOutcome(m: Machine, m': Machine, e: Entry)
    requires TraceOk(m) && OutcomeOk(m) && m'.trace == m.trace + [e]
    requires m'.ctx.outcome == Writes(e.state, m.prev, m.ctx.outcome)
    requires m.ctx.outcome.Some? || e.state in {CONNECT, ABORT, RESET, STOP, SUCCESS, FAIL}
    requires Closes(e) ==> m'.ctx.result == m'.ctx.outcome
    ensures OutcomeOk(m')
  {
    OutcomeAfterPrefix(m.trace, e, |m.trace|);
    assert m.prev == PrevState(m.trace, |m.trace|) == PrevState(m'.trace, |m.trace|);
  }

  lemma StepKeepsOutcome(m: Machine, e: Event)
    requires FlowOk(m) && TraceOk(m) && OutcomeOk(m)
    ensures OutcomeOk(Step(m, e))
  {
    match e
    case Push(_) =>
    case Advance(ch) =>
      match m.pc
      case Handling(nominal, i) =>
        if i != PAUSE && i != RESUME {
          RunStateKeepsOutcome(m, i, nominal, false, ch);
        }
      case Running(s) => RunStateKeepsOutcome(m, s, Some(s), true, ch);
      case _ =>
  }

  predicate NotStopped(m: Machine) {
    && (m.ctx.registered ==> m.ctx.outcome.Some?)
    && (m.ctx.outcome == Some(Stopped) ==> m.pc == Escaped)
  }

  lemma ImplRegistered(config: Config, s: StateId, prev: Option<StateId>, c: Context, ch: Choice)
    ensures var (ending, c') := Impl(config, s, prev, c, ch);
            && (c'.registered ==> c.registered || s == CONNECT)
            && (s == STOP && !c.registered ==> ending == Threw(Fatal))
  {
  }

  lemma RunStateKeepsNotStopped(m: Machine, s: StateId, kept: Option<StateId>, nominal: bool, ch: Choice)
    requires TraceOk(m) && OutcomeOk(m) && NotStopped(m) && m.pc != Escaped
    requires if nominal then Follows(m.trace, |m.trace|, Some(s)) else Diverts(s)
    ensures NotStopped(RunState(m, s, kept, nominal, ch))
  {
    if nominal {
      UndecidedFlow(m, s);
    }
    ImplOutcome(m.config, s, m.prev, m.ctx, ch);
    ImplRegistered(m.config, s, m.prev, m.ctx, ch);
  }

  lemma StepKeepsNotStopped(m: Machine, e: Event)
    requires FlowOk(m) && TraceOk(m) && OutcomeOk(m) && NotStopped(m)
    ensures NotStopped(Step(m, e))
  {
    match e
    case Push(_) =>
    case Advance(ch) =>
      match m.pc
      case Handling(nominal, i) =>
        if i != PAUSE && i != RESUME {
          RunStateKeepsNotStopped(m, i, nominal, false, ch);
        }
      case Running(s) => RunStateKeepsNotStopped(m, s, Some(s), true, ch);
      case _ =>
  }

  // ----- Time, the temporary server, and the trigger schedule -----

  /** How many of the first `k` entries ran STEP_SIMULATORS. */
  function Simulated(trace: seq<Entry>, k: nat): nat
    requires k <= |trace|
  {
    if k == 0 then 0 else Simulated(trace, k - 1) + if trace[k - 1].state == STEP_SIMULATORS then 1 else 0
  }

  lemma {:induction false} SimulatedPrefix(trace: seq<Entry>, e: Entry, k: nat)
    requires k <= |trace|
    ensures Simulated(trace + [e], k) == Simulated(trace, k)
  {
    if k > 0 {
      SimulatedPrefix(trace, e, k - 1);
    }
  }

  /** The states of a simulation under way. */
  predicate InLoop(s: StateId) {
    s in {START, STEP_BEGIN, STEP_SIMULATORS, STEP_CONTROLLERS, STEP_END, PAUSE, RESUME}
  }

  /** What holds of the counters when nominal flow is about to run `id` and STEP_SIMULATORS was
      run `n` times. */
  predicate Phase(config: Config, prev: Option<StateId>, c: Context, n: nat, id: StateId) {
    InLoop(id) ==>
      && c.registered
      && c.step == (if id in {START, STEP_CONTROLLERS, STEP_END} then n else n + 1)
      && c.schedule.drained == (if id == STEP_SIMULATORS then n + 1 else n)
      && (id == START ==> n == 0)
      && (if id == PAUSE then !config.listen ==> (c.serving <==> prev == Some(PAUSE))
          else if id == RESUME then !config.listen ==> c.serving
          else !c.serving)
  }

  /** What holds of the context at all times. */
  ghost predicate ContextOk(config: Config, c: Context) {
    && c.time == c.step * config.width
    && !c.misused
    && (config.listen ==> !c.serving)
    && (config.width > 0 ==> S.OnTime(c.schedule, config.width, c.time))
  }

  /** Before the events are registered, nothing has happened yet. */
  predicate Untouched(c: Context, n: nat) {
    c.step == 0 && n == 0 && c.schedule.drained == 0 && !c.serving
  }

  /** The n-th run of STEP_SIMULATORS has step n and time n times the step width. */
  predicate EntryOnTime(config: Config, trace: seq<Entry>, k: nat)
    requires k < |trace|
  {
    trace[k].state == STEP_SIMULATORS ==>
      trace[k].step == Simulated(trace, k + 1) && trace[k].time == trace[k].step * config.width
  }

  ghost predicate ClockOk(m: Machine) {
    var n := Simulated(m.trace, |m.trace|);
    && ContextOk(m.config, m.ctx)
    && (!m.ctx.registered ==> Untouched(m.ctx, n))
    && (forall id | Follows(m.trace, |m.trace|, Some(id)) :: Phase(m.config, m.prev, m.ctx, n, id))
    && (forall k | 0 <= k < |m.trace| :: EntryOnTime(m.config, m.trace, k))
  }

  lemma StoredOk(config: Config, c: Context, ch: Choice)
    requires ContextOk(config, c)
    ensures ContextOk(config, Stored(c, ch))
    ensures Stored(c, ch) == c.(schedule := Stored(c, ch).schedule)
         && Stored(c, ch).schedule.drained == c.schedule.drained
  {
    StoreAllKeepsRest(c.schedule, ch.stores, c.time);
    if config.width > 0 {
      S.StoreAllOnTime(c.schedule, ch.stores, config.width, c.time);
    }
  }

  lemma {:induction false} StoreAllKeepsRest(s: S.Schedule, ws: seq<S.When>, now: int)
    ensures S.StoreAll(s, ws, now).drained == s.drained && S.StoreAll(s, ws, now).fired == s.fired
    decreases |ws|
  {
    if ws != [] {
      StoreAllKeepsRest(S.Store(s, ws[0], now), ws[1..], now);
    }
  }

  lemma ExecutedOk(config: Config, c: Context, ch: Choice)
    requires ContextOk(config, c)
    ensures ContextOk(config, Executed(c, ch))
    ensures Executed(c, ch) == c.(schedule := Executed(c, ch).schedule)
         && Executed(c, ch).schedule.drained == c.schedule.drained
  {
    if config.width > 0 {
      S.ExecuteOnTime(c.schedule, config.width, c.time, ch.executed);
    }
  }

  lemma AdvancedOk(config: Config, c: Context)
    requires ContextOk(config, c)
    ensures ContextOk(config, Advanced(c, config))
  {
    assert (c.step + 1) * config.width == c.step * config.width + config.width;
    if config.width > 0 {
      S.LaterOnTime(c.schedule, config.width, c.time, c.time + config.width);
    }
  }

  /** A state's body keeps the context in order, provided that nominal flow may run it now. */
  lemma BodyContext(config: Config, s: StateId, prev: Option<StateId>, c: Context, ch: Choice, n: nat)
    requires ContextOk(config, c) && Phase(config, prev, c, n, s)
    ensures ContextOk(config, Body(config, s, prev, c, ch).1)
  {
    if s == START {
      AdvancedOk(config, c);
    } else if s == STEP_END {
      AdvancedOk(config, c);
      StoredOk(config, Advanced(c, config), ch);
    } else if s == STEP_BEGIN && config.width > 0 {
      S.DrainOnTime(c.schedule, c.step, config.width, ch.throws.None?, ch.some);
    }
  }

  lemma BodyPhase(config: Config, s: StateId, prev: Option<StateId>, c: Context, ch: Choice, n: nat)
    requires ContextOk(config, c) && Phase(config, prev, c, n, s) && (!c.registered ==> Untouched(c, n))
    ensures var (ending, c') := Body(config, s, prev, c, ch);
            var n' := n + if s == STEP_SIMULATORS then 1 else 0;
            && (!c'.registered ==> Untouched(c', n'))
            && (ending.Returned? && ending.next.Some? ==> Phase(config, Some(s), c', n', ending.next.value))
  {
    if s == STEP_END {
      StoreAllKeepsRest(c.schedule, ch.stores, c.time + config.width);
    }
  }

  lemma ImplClock(config: Config, s: StateId, prev: Option<StateId>, c: Context, ch: Choice, n: nat)
    requires ContextOk(config, c) && Phase(config, prev, c, n, s) && (!c.registered ==> Untouched(c, n))
    ensures var (ending, c') := Impl(config, s, prev, c, ch);
            var n' := n + if s == STEP_SIMULATORS then 1 else 0;
            && ContextOk(config, c')
            && (!c'.registered ==> Untouched(c', n'))
            && (ending.Returned? && ending.next.Some? ==> Phase(config, Some(s), c', n', ending.next.value))
  {
    StoredOk(config, c, ch);
    var stored := if s == STEP_END then c else Stored(c, ch);
    ExecutedOk(config, stored, ch);
    var before := Executed(stored, ch);
    BodyContext(config, s, prev, before, ch, n);
    BodyPhase(config, s, prev, before, ch, n);
  }

  lemma RunStateKeepsClock(m: Machine, s: StateId, kept: Option<StateId>, nominal: bool, ch: Choice)
    requires ClockOk(m)
    requires if nominal then Follows(m.trace, |m.trace|, Some(s)) else Diverts(s)
    ensures ClockOk(RunState(m, s, kept, nominal, ch))
  {
    var m' := RunState(m, s, kept, nominal, ch);
    var e := RunStateEntry(m, s, kept, nominal, ch);
    ImplClock(m.config, s, m.prev, m.ctx, ch, Simulated(m.trace, |m.trace|));
    ExtendClock(m, m', e);
  }

  lemma ExtendClock(m: Machine, m': Machine, e: Entry)
    requires ClockOk(m) && m'.trace == m.trace + [e] && m'.config == m.config && ContextOk(m.config, m'.ctx)
    requires e.state == STEP_SIMULATORS ==> Follows(m.trace, |m.trace|, Some(e.state))
    requires e.step == m.ctx.step && e.time == m.ctx.time
    requires var n' := Simulated(m.trace, |m.trace|) + if e.state == STEP_SIMULATORS then 1 else 0;
             && (!m'.ctx.registered ==> Untouched(m'.ctx, n'))
             && (e.ending.Returned? && e.ending.next.Some? ==>
                   Phase(m.config, m'.prev, m'.ctx, n', e.ending.next.value))
    ensures ClockOk(m')
  {
    var k := |m.trace|;
    SimulatedPrefix(m.trace, e, k);
    forall j | 0 <= j < |m'.trace| ensures EntryOnTime(m'.config, m'.trace, j) {
      if j < k {
        assert EntryOnTime(m.config, m.trace, j);
        SimulatedPrefix(m.trace, e, j + 1);
      }
    }
  }

  /** Neither the mailbox nor the pause flag matters to the clock. */
  lemma SameClock(m: Machine, m': Machine)
    requires ClockOk(m) && m'.trace == m.trace && m'.prev == m.prev && m'.config == m.config
    requires m'.ctx == m.ctx.(pause := m'.ctx.pause)
    ensures ClockOk(m')
  {
    forall id | Follows(m.trace, |m.trace|, Some(id))
      ensures Phase(m'.config, m'.prev, m'.ctx, Simulated(m.trace, |m.trace|), id)
    {
      assert Phase(m.config, m.prev, m.ctx, Simulated(m.trace, |m.trace|), id);
    }
  }

  lemma StepKeepsClock(m: Machine, e: Event)
    requires FlowOk(m) && ClockOk(m)
    ensures ClockOk(Step(m, e))
  {
    if e.Advance? && m.pc.Running? {
      RunStateKeepsClock(m, m.pc.state, Some(m.pc.state), true, e.choice);
    } else if e.Advance? && m.pc.Handling? && m.pc.what != PAUSE && m.pc.what != RESUME {
      RunStateKeepsClock(m, m.pc.what, m.pc.nominal, false, e.choice);
    } else {
      SameClock(m, Step(m, e));
    }
  }

  // ----- What cannot be undone: the registration of events, and draining the queue -----

  /** The firing happened in a STEP_BEGIN of the trace. */
  predicate InStepBegin(trace: seq<Entry>, f: S.Firing) {
    exists k | 0 <= k < |trace| :: trace[k].state == STEP_BEGIN && trace[k].step == f.step && trace[k].time == f.time
  }

  ghost predicate ProgressOk(m: Machine) {
    && (forall id | id in m.ctx.schedule.fired :: InStepBegin(m.trace, m.ctx.schedule.fired[id]))
    && (forall k | 0 <= k < |m.trace| :: m.trace[k].state == CONNECT && m.trace[k].ending.Returned? ==>
          m.ctx.registered && forall j | k < j < |m.trace| :: m.trace[j].state == CONNECT ==> m.trace[j].ending.Threw?)
    && (forall k | 0 <= k < |m.trace| :: m.trace[k].state == STEP_BEGIN && m.trace[k].ending.Returned? ==>
          m.trace[k].step <= m.ctx.schedule.drained)
  }

  predicate FiredMore(before: map<nat, S.Firing>, after: map<nat, S.Firing>, may: bool, f: S.Firing) {
    forall id | id in after :: (id in before && after[id] == before[id]) || (may && after[id] == f)
  }

  lemma ImplKeepsRegistered(config: Config, s: StateId, prev: Option<StateId>, c: Context, ch: Choice)
    ensures var (ending, c') := Impl(config, s, prev, c, ch);
            && (c.registered ==> c'.registered)
            && (s == CONNECT && ending.Returned? ==> !c.registered && c'.registered)
  {
  }

  lemma PreparedKeepsRest(s: StateId, c: Context, ch: Choice)
    ensures var before := Executed(if s == STEP_END then c else Stored(c, ch), ch);
            && before == c.(schedule := before.schedule)
            && before.schedule.drained == c.schedule.drained && before.schedule.fired == c.schedule.fired
  {
    StoreAllKeepsRest(c.schedule, ch.stores, c.time);
  }

  lemma BodyProgress(config: Config, s: StateId, prev: Option<StateId>, c: Context, ch: Choice, n: nat)
    requires Phase(config, prev, c, n, s)
    ensures var (ending, c') := Body(config, s, prev, c, ch);
            && c.schedule.drained <= c'.schedule.drained
            && (s == STEP_BEGIN && ending.Returned? ==> c.step <= c'.schedule.drained)
            && FiredMore(c.schedule.fired, c'.schedule.fired, s == STEP_BEGIN, S.Firing(c.step, c.time))
  {
    if s == STEP_END {
      StoreAllKeepsRest(c.schedule, ch.stores, c.time + config.width);
    }
  }

  lemma ImplProgress(config: Config, s: StateId, prev: Option<StateId>, c: Context, ch: Choice, n: nat)
    requires Phase(config, prev, c, n, s)
    ensures var (ending, c') := Impl(config, s, prev, c, ch);
            && c.schedule.drained <= c'.schedule.drained
            && (s == STEP_BEGIN && ending.Returned? ==> c.step <= c'.schedule.drained)
            && FiredMore(c.schedule.fired, c'.schedule.fired, s == STEP_BEGIN, S.Firing(c.step, c.time))
  {
    PreparedKeepsRest(s, c, ch);
    BodyProgress(config, s, prev, Executed(if s == STEP_END then c else Stored(c, ch), ch), ch, n);
  }

  lemma RunStateKeepsProgress(m: Machine, s: StateId, kept: Option<StateId>, nominal: bool, ch: Choice)
    requires ClockOk(m) && ProgressOk(m)
    requires if nominal then Follows(m.trace, |m.trace|, Some(s)) else Diverts(s)
    ensures ProgressOk(RunState(m, s, kept, nominal, ch))
  {
    var m' := RunState(m, s, kept, nominal, ch);
    var e := RunStateEntry(m, s, kept, nominal, ch);
    ImplKeepsRegistered(m.config, s, m.prev, m.ctx, ch);
    ImplProgress(m.config, s, m.prev, m.ctx, ch, Simulated(m.trace, |m.trace|));
    ExtendProgress(m, m', e);
  }

  lemma ExtendProgress(m: Machine, m': Machine, e: Entry)
    requires ProgressOk(m) && m'.trace == m.trace + [e]
    requires m.ctx.registered ==> m'.ctx.registered
    requires m.ctx.schedule.drained <= m'.ctx.schedule.drained
    requires e.state == CONNECT && e.ending.Returned? ==> !m.ctx.registered && m'.ctx.registered
    requires e.state == STEP_BEGIN && e.ending.Returned? ==> e.step <= m'.ctx.schedule.drained
    requires FiredMore(m.ctx.schedule.fired, m'.ctx.schedule.fired, e.state == STEP_BEGIN, S.Firing(e.step, e.time))
    ensures ProgressOk(m')
  {
    var before, after := m.ctx.schedule.fired, m'.ctx.schedule.fired;
    forall id | id in after ensures InStepBegin(m'.trace, after[id]) {
      if id in before && after[id] == before[id] {
        var k :| 0 <= k < |m.trace| && m.trace[k].state == STEP_BEGIN
              && m.trace[k].step == before[id].step && m.trace[k].time == before[id].time;
        assert m'.trace[k] == m.trace[k];
      } else {
        assert m'.trace[|m.trace|] == e;
      }
    }
  }

  lemma StepKeepsProgress(m: Machine, e: Event)
    requires FlowOk(m) && ClockOk(m) && ProgressOk(m)
    ensures ProgressOk(Step(m, e))
  {
    match e
    case Push(_) =>
    case Advance(ch) =>
      match m.pc
      case Handling(nominal, i) =>
        if i != PAUSE && i != RESUME {
          RunStateKeepsProgress(m, i, nominal, false, ch);
        }
      case Running(s) => RunStateKeepsProgress(m, s, Some(s), true, ch);
      case _ =>
  }

  // ----- All runs -----

  ghost predicate Invariant(m: Machine) {
    FlowOk(m) && TraceOk(m) && OutcomeOk(m) && NotStopped(m) && ClockOk(m) && ProgressOk(m)
  }

  lemma InitialInvariant(config: Config)
    ensures Invariant(Initial(config))
  {
    assert forall id: nat :: !S.EMPTY.Pending(id);
  }

  lemma StepKeepsInvariant(m: Machine, e: Event)
    requires Invariant(m)
    ensures Invariant(Step(m, e))
  {
    StepKeepsFlow(m, e);
    StepKeepsOutcome(m, e);
    StepKeepsNotStopped(m, e);
    StepKeepsClock(m, e);
    StepKeepsProgress(m, e);
  }

  lemma {:induction false} RunKeepsInvariant(m: Machine, events: seq<Event>)
    requires Invariant(m)
    ensures Invariant(Run(m, events))
    decreases |events|
  {
    if events != [] {
      StepKeepsInvariant(m, events[0]);
      RunKeepsInvariant(Step(m, events[0]), events[1..]);
    }
  }

  lemma ReachableInvariant(m: Machine)
    requires Reachable(m)
    ensures Invariant(m)
  {
    var events :| m == Run(Initial(m.config), events);
    InitialInvariant(m.config);
    RunKeepsInvariant(Initial(m.config), events);
  }

  lemma ReachableStep(m: Machine, e: Event)
    requires Reachable(m)
    ensures Reachable(Step(m, e))
  {
    var events :| m == Run(Initial(m.config), events);
    RunConcat(Initial(m.config), events, [e]);
    assert Run(m, [e]) == Run(Step(m, e), []) == Step(m, e);
    assert Step(m, e) == Run(Initial(m.config), events + [e]);
  }

  // ----- Theorems: control flow -----

  /** A state is run as nominal flow only if the state run immediately before it returned it, or
      ran out of time and it is ABORT; the first one is CONNECT.  Everything else is an interrupt
      that leaves nominal flow. */
  lemma NominalFlow(m: Machine, k: nat)
    requires Reachable(m) && k < |m.trace|
    ensures var e := m.trace[k];
      && (e.nominal && k == 0 ==> e.state == CONNECT)
      && (e.nominal && k > 0 ==>
            var p := m.trace[k - 1];
            || (p.timedOut && e.state == ABORT)
            || (!p.timedOut && p.ending == Returned(Some(e.state)) && Successor(m.config, p) == Some(e.state)))
      && (!e.nominal ==> Diverts(e.state))
  {
    ReachableInvariant(m);
    assert EntryOk(m.config, m.trace, k);
    if k > 0 {
      assert EntryOk(m.config, m.trace, k - 1);
    }
  }

  /** A state that threw is not resumed: what is run next, if anything, is the interrupt that its
      exception is turned into; after a fatal one nothing is. */
  lemma AfterAnException(m: Machine, k: nat)
    requires Reachable(m) && k + 1 < |m.trace| && !m.trace[k].timedOut && m.trace[k].ending.Threw?
    ensures var next := m.trace[k + 1];
      && !next.nominal
      && match m.trace[k].ending.what
         case ModelReset => next.state == RESET
         case ModelStop => next.state == STOP
         case Fatal => false
         case _ => next.state == ABORT
  {
    ReachableInvariant(m);
    assert EntryOk(m.config, m.trace, k + 1);
  }

  /** An exception leaves the main loop only if it is fatal, or if another interrupt is pending when the
      handler pushes the one for it. */
  lemma EscapesOnlyThen(m: Machine)
    requires Reachable(m) && m.pc == Escaped
    ensures m.trace != [] && var last := m.trace[|m.trace| - 1];
      !last.timedOut && last.ending.Threw? && (last.ending.what == Fatal || m.mailbox.Some?)
  {
    ReachableInvariant(m);
  }

  /** A state runs out of time only where the watchdog acts; if anything is run after it, the
      watchdog aborts, and nominal flow goes on with ABORT, whatever the state ended with. */
  lemma WatchdogActs(m: Machine, k: nat)
    requires Reachable(m) && k < |m.trace|
    ensures var e := m.trace[k];
      && (e.timedOut <==> e.nominal && e.choice.timedOut && m.config.watchdog in {AbortAfterwards, Kill})
      && (e.timedOut && k + 1 < |m.trace| ==>
            m.config.watchdog == AbortAfterwards && (m.trace[k + 1].nominal ==> m.trace[k + 1].state == ABORT))
  {
    ReachableInvariant(m);
    assert EntryOk(m.config, m.trace, k);
    if k + 1 < |m.trace| {
      assert EntryOk(m.config, m.trace, k + 1);
    }
  }

  /** The program is killed exactly when the watchdog is told to and the last state ran out of time. */
  lemma WatchdogKills(m: Machine)
    requires Reachable(m)
    ensures m.pc == Killed <==>
      m.config.watchdog == Kill && m.trace != [] && m.trace[|m.trace| - 1].timedOut
  {
    ReachableInvariant(m);
  }

  /** How each state ends: it returns its successor, or throws what was thrown in it. */
  lemma StatesEnd(m: Machine, k: nat)
    requires Reachable(m) && k < |m.trace|
    ensures EndingOk(m.config, m.trace[k])
  {
    ReachableInvariant(m);
    assert EntryOk(m.config, m.trace, k);
  }

  /** Which states have a state of a simulation under way as their successor. */
  lemma SuccessorOf(config: Config, p: Entry, s: StateId)
    requires Successor(config, p) == Some(s)
    ensures match s
      case STEP_END => p.state == STEP_CONTROLLERS
      case STEP_CONTROLLERS => p.state == STEP_SIMULATORS
      case STEP_SIMULATORS => p.state == STEP_BEGIN
      case PAUSE => p.state in {START, STEP_END, PAUSE} && p.pause
      case RESUME => p.state == PAUSE && !p.pause
      case START => p.state == CONNECT
      case CONNECT => p.state == RESET
      case _ => true
  {
  }

  /** A state that is no interrupt, and not where nominal flow starts or aborts, follows upon one
      that returned it. */
  lemma Predecessor(m: Machine, k: nat)
    requires Reachable(m) && k < |m.trace|
    requires !Diverts(m.trace[k].state) && (k > 0 || m.trace[k].state != CONNECT)
    ensures k > 0 && Successor(m.config, m.trace[k - 1]) == Some(m.trace[k].state)
  {
    NominalFlow(m, k);
  }

  lemma StepOrder(m: Machine, k: nat)
    requires Reachable(m) && k < |m.trace|
    ensures m.trace[k].state == STEP_END ==> k > 0 && m.trace[k - 1].state == STEP_CONTROLLERS
    ensures m.trace[k].state == STEP_CONTROLLERS ==>
              k > 1 && m.trace[k - 1].state == STEP_SIMULATORS && m.trace[k - 2].state == STEP_BEGIN
    ensures m.trace[k].state == PAUSE ==> k > 0 && m.trace[k - 1].state in {START, STEP_END, PAUSE}
    ensures m.trace[k].state == RESUME ==> k > 0 && m.trace[k - 1].state == PAUSE
    ensures m.trace[k].state == START ==> k > 0 && m.trace[k - 1].state == CONNECT
    ensures m.trace[k].state == CONNECT ==> k == 0 || m.trace[k - 1].state == RESET
  {
    var s := m.trace[k].state;
    if !Diverts(s) && (k > 0 || s != CONNECT) {
      Predecessor(m, k);
      SuccessorOf(m.config, m.trace[k - 1], s);
      if s == STEP_CONTROLLERS {
        Predecessor(m, k - 1);
        SuccessorOf(m.config, m.trace[k - 2], STEP_SIMULATORS);
      }
    }
  }

  /** A probe run simulates nothing. */
  lemma {:induction false} ProbeNeverSimulates(m: Machine, k: nat)
    requires Reachable(m) && m.config.probe && k < |m.trace|
    ensures !InLoop(m.trace[k].state)
  {
    NominalFlow(m, k);
    if k > 0 {
      ProbeNeverSimulates(m, k - 1);
    }
  }

  /** After a CONNECT that went through, every other CONNECT fails, since the events cannot be
      registered twice; so a run is started at most once. */
  lemma StartsOnce(m: Machine, i: nat, j: nat)
    requires Reachable(m) && i < j < |m.trace|
    ensures (m.trace[i].state == CONNECT && m.trace[i].ending.Returned? && m.trace[j].state == CONNECT) ==>
              m.trace[j].ending.Threw?
    ensures !(m.trace[i].state == START && m.trace[j].state == START)
  {
    ReachableInvariant(m);
    NominalFlow(m, i);
    NominalFlow(m, j);
    StepOrder(m, i);
    StepOrder(m, j);
  }

  // ----- Theorems: the outcome -----

  /** The step that makes the machine return finds an empty mailbox. */
  lemma ReturnsWithEmptyMailbox(m: Machine, e: Event)
    requires m.pc != Done && Step(m, e).pc == Done
    ensures Step(m, e).mailbox == None && Step(m, e).ctx == m.ctx
  {
  }

  /** When the machine has returned, DISCONNECT was the last state run, and the result is the
      outcome, which is decided and is the fold of the trace. */
  lemma ResultIsOutcome(m: Machine)
    requires Reachable(m) && m.pc == Done
    ensures var k := |m.trace|;
      && k > 0 && Closes(m.trace[k - 1])
      && m.ctx.result.Some? && m.ctx.result == m.ctx.outcome == OutcomeAfter(m.trace, k)
  {
    ReachableInvariant(m);
    assert EntryOk(m.config, m.trace, |m.trace| - 1);
  }

  /** The states that set the outcome whatever it was. */
  predicate Decides(trace: seq<Entry>, k: nat)
    requires k < |trace|
  {
    var s := trace[k].state;
    s in {CONNECT, PROBE, SUCCESS, FAIL} || (s == ABORT && PrevState(trace, k) != Some(KEEP_ALIVE))
  }

  function Decision(trace: seq<Entry>, k: nat): Outcome
    requires k < |trace|
  {
    match trace[k].state
    case PROBE => Probing
    case SUCCESS => Success
    case FAIL => Failure
    case ABORT => if PrevState(trace, k) == Some(CONNECT) then NoStart else Aborted
    case _ => NoStart
  }

  /** The last state that decides wins; STOP counts only if none does. */
  lemma {:induction false} LastDecisionWins(trace: seq<Entry>, k: nat, j: nat)
    requires j < k <= |trace| && Decides(trace, j) && forall i | j < i < k :: !Decides(trace, i)
    ensures OutcomeAfter(trace, k) == Some(Decision(trace, j))
  {
    if k > j + 1 {
      assert !Decides(trace, k - 1);
      LastDecisionWins(trace, k - 1, j);
    }
  }

  lemma {:induction false} UndecidedOutcome(trace: seq<Entry>, k: nat)
    requires k <= |trace| && forall i | 0 <= i < k :: !Decides(trace, i)
    ensures OutcomeAfter(trace, k) == if exists i :: 0 <= i < k && trace[i].state == STOP then Some(Stopped) else None
  {
    if k > 0 {
      assert !Decides(trace, k - 1);
      UndecidedOutcome(trace, k - 1);
      if trace[k - 1].state != STOP && exists i :: 0 <= i < k && trace[i].state == STOP {
        var i :| 0 <= i < k && trace[i].state == STOP;
        assert i < k - 1;
      }
    }
  }

  lemma {:induction false} LastDecision(trace: seq<Entry>, k: nat) returns (j: nat)
    requires k <= |trace| && exists i :: 0 <= i < k && Decides(trace, i)
    ensures j < k && Decides(trace, j) && forall i | j < i < k :: !Decides(trace, i)
  {
    if Decides(trace, k - 1) {
      j := k - 1;
    } else {
      j := LastDecision(trace, k - 1);
    }
  }

  /** STOP is meant to report "stopped" for a run without another outcome.  No run reports it: CONNECT
      has always set an outcome before, unless it has not run, and then there is no callback for
      STOP to tell. */
  lemma NeverStopped(m: Machine)
    requires Reachable(m) && m.pc == Done
    ensures m.ctx.result.Some? && m.ctx.result != Some(Stopped)
  {
    ResultIsOutcome(m);
    ReachableInvariant(m);
  }

  /** What a run reports is what the last state decided that decides whatever went before. */
  lemma ResultIsLastDecision(m: Machine) returns (j: nat)
    requires Reachable(m) && m.pc == Done
    ensures j < |m.trace| && Decides(m.trace, j) && forall i | j < i < |m.trace| :: !Decides(m.trace, i)
    ensures m.ctx.result == Some(Decision(m.trace, j))
  {
    ResultIsOutcome(m);
    NeverStopped(m);
    if forall i | 0 <= i < |m.trace| :: !Decides(m.trace, i) {
      UndecidedOutcome(m.trace, |m.trace|);
      assert false;
    }
    j := LastDecision(m.trace, |m.trace|);
    LastDecisionWins(m.trace, |m.trace|, j);
  }

  const QUIET := Choice(None, false, false, false, [], {}, 0)

  lemma StartedRun(config: Config) returns (m: Machine)
    requires !config.probe && config.watchdog == Off
    ensures Reachable(m) && m.config == config && m.pc == Top(Some(if config.pause then PAUSE else STEP_BEGIN))
    ensures m.mailbox == None && m.taken == [] && m.ctx.pause == config.pause
    ensures m.ctx.outcome == Some(NoStart) && m.ctx.registered && m.prev == Some(START)
    ensures |m.trace| == 2 && m.trace[0].state == CONNECT && m.trace[1].state == START
  {
    m := Initial(config);
    assert m == Run(m, []);
    m := AfterStep(m, Advance(QUIET));
    m := AfterStep(m, Advance(QUIET.(yes := true)));
    m := AfterStep(m, Advance(QUIET));
    m := AfterStep(m, Advance(QUIET));
  }

  lemma StoppedRun(config: Config) returns (m: Machine)
    requires !config.probe && config.watchdog == Off
    ensures Reachable(m) && m.pc == Top(Some(DISCONNECT)) && m.mailbox == None && m.config == config
    ensures m.ctx.outcome == Some(NoStart)
    ensures |m.trace| == 3 && m.trace[1].state == START && m.trace[2].state == STOP
  {
    m := StartedRun(config);
    m := AfterStep(m, Push(STOP));
    m := AfterStep(m, Advance(QUIET));
    m := AfterStep(m, Advance(QUIET));
  }

  lemma DisconnectedRun(config: Config) returns (m: Machine)
    requires !config.probe && config.watchdog == Off
    ensures Reachable(m) && m.pc == Top(None) && m.mailbox == None && m.ctx.result == Some(NoStart)
    ensures |m.trace| == 4 && m.trace[1].state == START && m.trace[2].state == STOP
  {
    m := StoppedRun(config);
    m := AfterStep(m, Advance(QUIET));
    assert m.pc == Running(DISCONNECT) && m.ctx.outcome == Some(NoStart);
    m := AfterStep(m, Advance(QUIET));
  }

  /** A run that connects, starts and is then stopped from outside reports that it has not started. */
  lemma StoppedRunReportsNoStart(config: Config) returns (m: Machine)
    requires !config.probe && config.watchdog == Off
    ensures Reachable(m) && m.pc == Done && m.ctx.result == Some(NoStart)
    ensures |m.trace| == 4 && m.trace[1].state == START && m.trace[2].state == STOP
  {
    m := DisconnectedRun(config);
    m := AfterStep(m, Advance(QUIET));
  }

  lemma AfterStep(m: Machine, e: Event) returns (m': Machine)
    requires Reachable(m)
    ensures Reachable(m') && m' == Step(m, e)
  {
    ReachableStep(m, e);
    m' := Step(m, e);
  }

  // ----- Theorems: time -----

  /** No simulation time is skipped or repeated, whatever pauses, resumes, resets and interrupts
      occur. */
  lemma SimulationTime(m: Machine, k: nat)
    requires Reachable(m) && k < |m.trace| && m.trace[k].state == STEP_SIMULATORS
    ensures m.trace[k].step == Simulated(m.trace, k + 1)
    ensures m.trace[k].time == Simulated(m.trace, k + 1) * m.config.width
  {
    ReachableInvariant(m);
    assert EntryOnTime(m.config, m.trace, k);
  }

  /** The temporary server is never started while it runs nor stopped while it does not; it runs
      exactly while nominal flow is held in PAUSE, and never if the server listens anyway. */
  lemma TemporaryServer(m: Machine, s: StateId)
    requires Reachable(m)
    ensures !m.ctx.misused
    ensures m.pc == Running(s) && InLoop(s) && !m.config.listen ==>
              (m.ctx.serving <==> m.trace != [] && m.trace[|m.trace| - 1].state == PAUSE)
    ensures m.config.listen ==> !m.ctx.serving
  {
    ReachableInvariant(m);
    if m.pc == Running(s) && InLoop(s) {
      assert Phase(m.config, m.prev, m.ctx, Simulated(m.trace, |m.trace|), s);
      assert EntryOk(m.config, m.trace, |m.trace| - 1);
    }
  }

  /** A timed trigger for time `due` fires in a STEP_BEGIN of the step that first reaches its time,
      hence never early and less than one step width late, and it has fired once the STEP_BEGIN
      of that step has come to its end. */
  ghost predicate FiresInTime(m: Machine, id: nat, due: int)
    requires m.config.width > 0
  {
    var s, step := m.ctx.schedule, S.CeilDiv(due, m.config.width);
    && (id in s.fired ==>
          && s.fired[id].step == step && s.fired[id].time == step * m.config.width
          && InStepBegin(m.trace, s.fired[id])
          && due <= s.fired[id].time < due + m.config.width)
    && (id !in s.fired ==>
          forall k | 0 <= k < |m.trace| && m.trace[k].state == STEP_BEGIN && m.trace[k].ending.Returned? ::
            m.trace[k].step < step)
  }

  lemma ReachableSchedule(m: Machine)
    requires Reachable(m) && m.config.width > 0
    ensures S.OnTime(m.ctx.schedule, m.config.width, m.ctx.time) && ProgressOk(m)
  {
    ReachableInvariant(m);
  }

  /** So do all that were asked for with a time, before that time, or with an offset to come. */
  lemma TriggersFireOnTime(m: Machine, id: nat)
    requires Reachable(m) && m.config.width > 0 && id < |m.ctx.schedule.stored|
    ensures var t := m.ctx.schedule.stored[id];
      match t.asked
      case AtTime(time) => t.since < time ==> FiresInTime(m, id, time)
      case InTime(offset) => 0 < offset ==> FiresInTime(m, id, t.since + offset)
  {
    ReachableSchedule(m);
    S.OnTimeMeans(m.ctx.schedule, m.config.width, m.ctx.time, id);
  }

  /** The trigger history is in order of time. */
  lemma HistoryIsOrdered(m: Machine)
    requires Reachable(m) && m.config.width > 0
    ensures S.Nondecreasing(m.ctx.schedule.history)
  {
    ReachableInvariant(m);
  }
}

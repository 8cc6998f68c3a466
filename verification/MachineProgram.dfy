/**
 The machine as the program runs it: a context that the states update, a mailbox of one
 interrupt, and the main loop.  Each method is proved against the transition system of
 `Machine`; other threads push interrupts at the points that `Tick` names.
 */
module MachineProgram {
  import opened Prelude
  import opened Machine
  import M = Machine
  import S = Schedule
  import opened MachineTheorems
  import opened Interrupts
  import opened Requests

  // ----- The context -----

  class SimulationContext {
    const config: Config
    var outcome: Option<Outcome>
    var result: Option<Outcome>
    var pauseExecution: bool
    var step: nat
    var time: int
    var registered: bool
    var serving: bool
    var misused: bool
    var schedule: S.Schedule

    function View(): Context
      reads this
    {
      Context(outcome, result, pauseExecution, step, time, registered, serving, misused, schedule)
    }

    constructor (config: Config)
      ensures this.config == config
      ensures View() == Initial(config).ctx
    {
      this.config := config;
      outcome, result, pauseExecution := None, None, config.pause;
      step, time, registered, serving, misused := 0, 0, false, false, false;
      schedule := S.EMPTY;
    }

    method IncrementStep()
      modifies this`step, this`time
      ensures View() == Advanced(old(View()), config)
    {
      step := step + 1;
      time := time + config.width;
    }

    /** Empty the input queue into the storage, first come, first served. */
    method ProcessTriggers(queue: seq<S.When>)
      modifies this`schedule
      ensures schedule == S.StoreAll(old(schedule), queue, time)
    {
      var rest := queue;
      while rest != []
        invariant S.StoreAll(schedule, rest, time) == S.StoreAll(old(schedule), queue, time)
        decreases |rest|
      {
        schedule := S.Store(schedule, rest[0], time);
        rest := rest[1..];
      }
    }

    method Start()
      modifies this`serving, this`misused
      ensures View() == StartServer(old(View()))
    {
      if serving {
        misused := true;
      }
      serving := true;
    }

    method Stop()
      modifies this`serving, this`misused
      ensures View() == StopServer(old(View()))
    {
      if !serving {
        misused := true;
      }
      serving := false;
    }
  }

  // ----- The environment -----

  /** What happens to the machine during one round of its loop: which interrupts other threads
      try to push before the mailbox is looked into and after that, and what foreign code does. */
  datatype Tick = Tick(before: seq<StateId>, choice: Choice, between: seq<StateId>)

  function Pushed(m: Machine, pushes: seq<StateId>): Machine
    decreases |pushes|
  {
    if pushes == [] then m else Pushed(Step(m, Push(pushes[0])), pushes[1..])
  }

  /** What a round does once the mailbox has been looked into. */
  function Act(a: Machine, t: Tick): Machine {
    var b := Step(Pushed(a, t.between), Advance(t.choice));
    if b.pc.Catching? then Step(b, Advance(t.choice)) else b
  }

  /** One round of the loop. */
  function Round(m: Machine, t: Tick): Machine {
    var a := Step(Pushed(m, t.before), Advance(t.choice));
    if a.pc == Done then a else Act(a, t)
  }

  function Play(m: Machine, ticks: seq<Tick>): Machine
    decreases |ticks|
  {
    if ticks == [] || !m.pc.Top? then m else Play(Round(m, ticks[0]), ticks[1..])
  }

  function Pushes(interrupts: seq<StateId>): seq<Event> {
    seq(|interrupts|, i requires 0 <= i < |interrupts| => Push(interrupts[i]))
  }

  lemma {:induction false} PushedIsRun(m: Machine, pushes: seq<StateId>)
    ensures Pushed(m, pushes) == Run(m, Pushes(pushes))
    decreases |pushes|
  {
    if pushes != [] {
      assert Pushes(pushes)[0] == Push(pushes[0]) && Pushes(pushes)[1..] == Pushes(pushes[1..]);
      PushedIsRun(Step(m, Push(pushes[0])), pushes[1..]);
    }
  }

  lemma PushedThen(m: Machine, pushes: seq<StateId>, ch: Choice)
    ensures Run(m, Pushes(pushes) + [Advance(ch)]) == Step(Pushed(m, pushes), Advance(ch))
  {
    PushedIsRun(m, pushes);
    RunConcat(m, Pushes(pushes), [Advance(ch)]);
    var a := Pushed(m, pushes);
    assert Run(a, [Advance(ch)]) == Run(Step(a, Advance(ch)), []);
  }

  /** One round of the loop is a run of these events: what is pushed before the mailbox is looked into
      and looking into it; what is pushed then and what the state or the flag does; and the handler's
      push, if something was thrown. */
  lemma RoundIsRun(m: Machine, t: Tick)
    ensures var look := Pushes(t.before) + [Advance(t.choice)];
      var act := look + (Pushes(t.between) + [Advance(t.choice)]);
      Round(m, t) == Run(m, if Run(m, look).pc == Done then look
                            else if Run(m, act).pc.Catching? then act + [Advance(t.choice)] else act)
  {
    var look := Pushes(t.before) + [Advance(t.choice)];
    var act := look + (Pushes(t.between) + [Advance(t.choice)]);
    PushedThen(m, t.before, t.choice);
    var a := Run(m, look);
    PushedThen(a, t.between, t.choice);
    RunConcat(m, look, Pushes(t.between) + [Advance(t.choice)]);
    var b := Run(m, act);
    RunConcat(m, act, [Advance(t.choice)]);
    assert Run(b, [Advance(t.choice)]) == Run(Step(b, Advance(t.choice)), []);
  }

  lemma {:induction false} PushedKeepsPc(m: Machine, pushes: seq<StateId>)
    ensures Pushed(m, pushes).pc == m.pc
    decreases |pushes|
  {
    if pushes != [] {
      PushedKeepsPc(Step(m, Push(pushes[0])), pushes[1..]);
    }
  }

  /** A round comes back to the top of the loop, or leaves it. */
  lemma RoundEnds(m: Machine, t: Tick)
    requires m.pc.Top?
    ensures var pc := Round(m, t).pc; pc.Top? || pc == Done || pc == Escaped || pc == Killed
  {
    PushedKeepsPc(m, t.before);
    var a := Step(Pushed(m, t.before), Advance(t.choice));
    PushedKeepsPc(a, t.between);
  }

  /** The loop takes one more round exactly if it is still at its top. */
  lemma {:induction false} PlaySnoc(m: Machine, ticks: seq<Tick>, t: Tick)
    ensures var p := Play(m, ticks);
            Play(m, ticks + [t]) == if p.pc.Top? then Round(p, t) else p
    decreases |ticks|
  {
    if ticks == [] {
      assert ticks + [t] == [t];
      if m.pc.Top? {
        assert Play(m, [t]) == Play(Round(m, t), []);
      }
    } else if m.pc.Top? {
      assert (ticks + [t])[0] == ticks[0] && (ticks + [t])[1..] == ticks[1..] + [t];
      PlaySnoc(Round(m, ticks[0]), ticks[1..], t);
    }
  }

  lemma {:induction false} ReachablePushed(m: Machine, pushes: seq<StateId>)
    requires Reachable(m)
    ensures Reachable(Pushed(m, pushes))
    decreases |pushes|
  {
    if pushes != [] {
      ReachableStep(m, Push(pushes[0]));
      ReachablePushed(Step(m, Push(pushes[0])), pushes[1..]);
    }
  }

  lemma ReachableRound(m: Machine, t: Tick)
    requires Reachable(m)
    ensures Reachable(Round(m, t))
  {
    ReachablePushed(m, t.before);
    var a := Step(Pushed(m, t.before), Advance(t.choice));
    ReachableStep(Pushed(m, t.before), Advance(t.choice));
    ReachablePushed(a, t.between);
    var b := Step(Pushed(a, t.between), Advance(t.choice));
    ReachableStep(Pushed(a, t.between), Advance(t.choice));
    ReachableStep(b, Advance(t.choice));
  }

  /** Whatever the loop does is a run of the transition system, so what holds of all reachable
      machines holds of it. */
  lemma {:induction false} ReachablePlay(m: Machine, ticks: seq<Tick>)
    requires Reachable(m)
    ensures Reachable(Play(m, ticks))
    decreases |ticks|
  {
    if ticks != [] && m.pc.Top? {
      ReachableRound(m, ticks[0]);
      ReachablePlay(Round(m, ticks[0]), ticks[1..]);
    }
  }

  /** An interrupt other than PAUSE and RESUME runs its state. */
  lemma DivertingStep(m: Machine, nominal: Option<StateId>, i: StateId, ch: Choice)
    requires i != PAUSE && i != RESUME
    ensures Step(m.(pc := Handling(nominal, i)), Advance(ch)) == M.RunState(m, i, nominal, false, ch)
  {
    var at := m.(pc := Handling(nominal, i));
    assert M.Impl(at.config, i, at.prev, at.ctx, ch) == M.Impl(m.config, i, m.prev, m.ctx, ch);
  }

  lemma InitialIsReachable(config: Config)
    ensures Reachable(Initial(config))
  {
    assert Run(Initial(config), []) == Initial(config);
  }

  /** What the order of the states in a trace is. */
  predicate StepInOrder(trace: seq<Entry>, k: nat)
    requires k < |trace|
  {
    match trace[k].state
    case STEP_CONTROLLERS => k > 1 && trace[k - 1].state == STEP_SIMULATORS && trace[k - 2].state == STEP_BEGIN
    case STEP_END => k > 0 && trace[k - 1].state == STEP_CONTROLLERS
    case PAUSE => k > 0 && trace[k - 1].state in {START, STEP_END, PAUSE}
    case RESUME => k > 0 && trace[k - 1].state == PAUSE
    case START => k > 0 && trace[k - 1].state == CONNECT
    case _ => true
  }

  lemma RunTheorems(m: Machine)
    requires Reachable(m)
    ensures m.pc == Done ==>
      && m.trace != [] && Closes(m.trace[|m.trace| - 1])
      && m.ctx.result.Some? && m.ctx.result == m.ctx.outcome == OutcomeAfter(m.trace, |m.trace|)
      && m.ctx.result != Some(Stopped)
    ensures forall k | 0 <= k < |m.trace| :: StepInOrder(m.trace, k)
    ensures forall k | 0 <= k < |m.trace| && m.trace[k].state == STEP_SIMULATORS ::
      m.trace[k].step == Simulated(m.trace, k + 1) && m.trace[k].time == Simulated(m.trace, k + 1) * m.config.width
    ensures m.config.probe ==> forall k | 0 <= k < |m.trace| :: !InLoop(m.trace[k].state)
    ensures forall k | 0 <= k < |m.trace| :: PausesAsAsked(m.config, m.trace, m.taken, k)
    ensures m.accepted == m.taken + (if m.mailbox.Some? then [m.mailbox.value] else [])
    ensures !m.ctx.misused
  {
    if m.pc == Done {
      ResultIsOutcome(m);
      NeverStopped(m);
    }
    forall k | 0 <= k < |m.trace| ensures StepInOrder(m.trace, k) {
      StepOrder(m, k);
    }
    forall k | 0 <= k < |m.trace| && m.trace[k].state == STEP_SIMULATORS
      ensures m.trace[k].step == Simulated(m.trace, k + 1) && m.trace[k].time == Simulated(m.trace, k + 1) * m.config.width
    {
      SimulationTime(m, k);
    }
    if m.config.probe {
      forall k | 0 <= k < |m.trace| ensures !InLoop(m.trace[k].state) {
        ProbeNeverSimulates(m, k);
      }
    }
    forall k | 0 <= k < |m.trace| ensures PausesAsAsked(m.config, m.trace, m.taken, k) {
      PausesWhileAsked(m, k);
    }
    NoInterruptIsLost(m);
    TemporaryServer(m, CONNECT);
  }

  // ----- The machine -----

  class SimulationMachine {
    const ctx: SimulationContext
    var prevState: Option<StateId>
    var interrupt: Option<StateId>
    ghost var trace: seq<Entry>
    ghost var acceptedInterrupts: seq<StateId>
    ghost var takenInterrupts: seq<StateId>

    ghost function View(pc: Pc): Machine
      reads this, ctx
    {
      Machine(ctx.config, pc, interrupt, prevState, ctx.View(), trace, acceptedInterrupts, takenInterrupts)
    }

    constructor (config: Config)
      ensures fresh(ctx)
      ensures View(Top(Some(CONNECT))) == Initial(config)
    {
      ctx := new SimulationContext(config);
      prevState, interrupt, trace := None, None, [];
      acceptedInterrupts, takenInterrupts := [], [];
    }

    // ----- The states -----

    method Connect(ch: Choice) returns (e: Ending)
      modifies ctx
      ensures (e, ctx.View()) == M.Connect(ctx.config, old(ctx.View()), ch)
    {
      ctx.outcome := Some(NoStart);
      if ch.throws.Some? && (ctx.registered || !ch.late) {
        return Threw(ch.throws.value);
      }
      if ctx.registered {
        return Threw(Fatal);
      }
      ctx.registered := true;
      if ch.throws.Some? {
        return Threw(ch.throws.value);
      }
      if !ch.yes {
        return Returned(Some(ABORT));
      }
      return Returned(Some(if ctx.config.probe then PROBE else START));
    }

    method Start(ch: Choice) returns (e: Ending)
      modifies ctx
      ensures (e, ctx.View()) == M.Start(ctx.config, old(ctx.View()), ch)
    {
      if ch.throws.Some? {
        return Threw(ch.throws.value);
      }
      ctx.IncrementStep();
      if ctx.pauseExecution {
        return Returned(Some(PAUSE));
      }
      return Returned(Some(STEP_BEGIN));
    }

    method StepBegin(ch: Choice) returns (e: Ending)
      modifies ctx
      ensures (e, ctx.View()) == M.StepBegin(ctx.config, old(ctx.View()), ch)
    {
      ctx.schedule := S.Drain(ctx.schedule, ctx.step, ctx.time, ch.throws.None?, ch.some);
      return Unless(ch, if ch.yes then STEP_SIMULATORS else STOP);
    }

    method StepEnd(ch: Choice) returns (e: Ending)
      modifies ctx
      ensures (e, ctx.View()) == M.StepEnd(ctx.config, old(ctx.View()), ch)
    {
      if ch.throws.Some? && !ch.late {
        return Threw(ch.throws.value);
      }
      ctx.IncrementStep();
      ctx.ProcessTriggers(ch.stores);
      return Unless(ch, if ctx.pauseExecution then PAUSE else STEP_BEGIN);
    }

    method Pause(ch: Choice) returns (e: Ending)
      modifies ctx
      ensures (e, ctx.View()) == M.Pause(ctx.config, prevState, old(ctx.View()), ch)
    {
      if prevState != Some(PAUSE) && !ctx.config.listen {
        if ch.throws.Some? && !ch.late {
          return Threw(ch.throws.value);
        }
        ctx.Start();
      }
      return Unless(ch, if ctx.pauseExecution then PAUSE else RESUME);
    }

    method Resume(ch: Choice) returns (e: Ending)
      modifies ctx
      ensures (e, ctx.View()) == M.Resume(ctx.config, old(ctx.View()), ch)
    {
      if !ctx.config.listen {
        if ch.throws.Some? && !ch.late {
          return Threw(ch.throws.value);
        }
        ctx.Stop();
      }
      return Unless(ch, STEP_BEGIN);
    }

    method Abort(ch: Choice) returns (e: Ending)
      modifies ctx
      ensures (e, ctx.View()) == M.Abort(prevState, old(ctx.View()), ch)
    {
      if prevState == Some(KEEP_ALIVE) {
        return Returned(Some(DISCONNECT));
      } else if prevState == Some(CONNECT) {
        ctx.outcome := Some(NoStart);
        return Returned(Some(DISCONNECT));
      }
      ctx.outcome := Some(Aborted);
      if ch.throws.Some? {
        return Threw(Fatal);
      }
      return Returned(Some(DISCONNECT));
    }

    method Stop(ch: Choice) returns (e: Ending)
      modifies ctx
      ensures (e, ctx.View()) == M.Stop(old(ctx.View()), ch)
    {
      if ctx.outcome == None {
        ctx.outcome := Some(Stopped);
      }
      return Told(ctx.View(), ch, if ch.yes then KEEP_ALIVE else DISCONNECT);
    }

    method Disconnect(ch: Choice) returns (e: Ending)
      modifies ctx
      ensures (e, ctx.View()) == M.Disconnect(old(ctx.View()), ch)
    {
      if ch.throws.Some? {
        return Threw(ch.throws.value);
      }
      ctx.result := Some(if ctx.outcome.Some? then ctx.outcome.value else Aborted);
      return Returned(None);
    }

    method Body(s: StateId, ch: Choice) returns (e: Ending)
      modifies ctx
      ensures (e, ctx.View()) == M.Body(ctx.config, s, prevState, old(ctx.View()), ch)
    {
      match s
      case CONNECT => e := Connect(ch);
      case PROBE =>
        ctx.outcome := Some(Probing);
        e := Unless(ch, DISCONNECT);
      case START => e := Start(ch);
      case STEP_BEGIN => e := StepBegin(ch);
      case STEP_SIMULATORS => e := Unless(ch, STEP_CONTROLLERS);
      case STEP_CONTROLLERS => e := Unless(ch, STEP_END);
      case STEP_END => e := StepEnd(ch);
      case PAUSE => e := Pause(ch);
      case RESUME => e := Resume(ch);
      case SUCCESS =>
        ctx.outcome := Some(Success);
        e := Told(ctx.View(), ch, STOP);
      case FAIL =>
        ctx.outcome := Some(Failure);
        e := Told(ctx.View(), ch, STOP);
      case ABORT => e := Abort(ch);
      case STOP => e := Stop(ch);
      case RESET => e := Told(ctx.View(), ch, if ch.yes then CONNECT else ABORT);
      case KEEP_ALIVE => e := Unless(ch, KEEP_ALIVE);
      case DISCONNECT => e := Disconnect(ch);
    }

    method Impl(s: StateId, ch: Choice) returns (e: Ending)
      modifies ctx
      ensures (e, ctx.View()) == M.Impl(ctx.config, s, prevState, old(ctx.View()), ch)
    {
      if s != STEP_END {
        ctx.ProcessTriggers(ch.stores);
      }
      ctx.schedule := S.Execute(ctx.schedule, ctx.time, ch.executed);
      e := Body(s, ch);
    }

    // ----- The mailbox -----

    method PushInterrupt(i: StateId) returns (accepted: bool)
      modifies this`interrupt, this`acceptedInterrupts
      ensures accepted == old(interrupt).None?
      ensures interrupt == if accepted then Some(i) else old(interrupt)
      ensures acceptedInterrupts == if accepted then old(acceptedInterrupts) + [i] else old(acceptedInterrupts)
    {
      if interrupt.Some? {
        return false;
      }
      interrupt, acceptedInterrupts := Some(i), acceptedInterrupts + [i];
      return true;
    }

    method PopInterrupt() returns (i: Option<StateId>)
      modifies this`interrupt, this`takenInterrupts
      ensures i == old(interrupt) && interrupt == None
      ensures takenInterrupts == if i.Some? then old(takenInterrupts) + [i.value] else old(takenInterrupts)
    {
      i := interrupt;
      if i.Some? {
        takenInterrupts := takenInterrupts + [i.value];
      }
      interrupt := None;
    }

    /** Other threads try to push interrupts; the ones that find the mailbox full are told so. */
    method Interfere(pushes: seq<StateId>, ghost pc: Pc)
      modifies this`interrupt, this`acceptedInterrupts
      ensures View(pc) == Pushed(old(View(pc)), pushes)
    {
      var rest := pushes;
      while rest != []
        invariant Pushed(View(pc), rest) == Pushed(old(View(pc)), pushes)
        decreases |rest|
      {
        if IsInterrupt(rest[0]) {
          var _ := PushInterrupt(rest[0]);
        }
        rest := rest[1..];
      }
    }

    // ----- Running states -----

    /** How running a state ends for the caller: with a state, an exception, or not at all. */
    method RunState(s: StateId, ch: Choice, nominal: bool, ghost kept: Option<StateId>)
      returns (e: Ending, killed: bool)
      modifies this`prevState, this`trace, ctx
      ensures View(if killed then Killed else After(e, kept))
           == M.RunState(old(View(Done)), s, kept, nominal, ch)
    {
      e := Impl(s, ch);
      var late := nominal && ch.timedOut && ctx.config.watchdog in {AbortAfterwards, Kill};
      trace := trace + [Entry(s, nominal, late, e, ch, old(ctx.step), old(ctx.time), old(ctx.pauseExecution),
                              |takenInterrupts|, old(|ctx.schedule.stored|))];
      prevState := Some(s);
      killed := late && ctx.config.watchdog == Kill;
      if late {
        e := Returned(Some(ABORT));
      }
    }

    method SetPause(nominal: Option<StateId>, i: StateId, ghost ch: Choice)
      requires i == PAUSE || i == RESUME
      modifies ctx`pauseExecution
      ensures View(Top(nominal)) == Step(old(View(Handling(nominal, i))), Advance(ch))
    {
      ctx.pauseExecution := i == PAUSE;
    }

    method HandleInterrupt(nominal: Option<StateId>, i: StateId, ch: Choice) returns (e: Ending)
      modifies this`prevState, this`trace, ctx
      ensures View(After(e, nominal)) == Step(old(View(Handling(nominal, i))), Advance(ch))
    {
      if i == PAUSE || i == RESUME {
        SetPause(nominal, i, ch);
        return Returned(nominal);
      }
      DivertingStep(View(Done), nominal, i, ch);
      var killed;
      e, killed := RunState(i, ch, false, nominal);
    }

    /** The main loop, for as long as the environment is described. */
    method RunMachine(initial: Option<StateId>, ticks: seq<Tick>) returns (how: Pc)
      modifies this, ctx
      ensures View(how) == Play(old(View(Top(initial))), ticks)
    {
      how := Top(initial);
      var rest := ticks;
      while rest != [] && how.Top?
        invariant Play(View(how), rest) == Play(old(View(Top(initial))), ticks)
        decreases |rest|
      {
        how := RunRound(how.id, rest[0]);
        rest := rest[1..];
      }
    }

    /** A whole run, of a machine as it was constructed: whatever other threads push, whatever
        throws and whenever the watchdog runs out, the theorems on runs hold of it. */
    method Run(ticks: seq<Tick>) returns (how: Pc)
      requires View(Top(Some(CONNECT))) == Initial(ctx.config)
      modifies this, ctx
      ensures View(how) == Play(Initial(ctx.config), ticks)
      ensures how == Done ==>
        && trace != [] && Closes(trace[|trace| - 1])
        && ctx.result.Some? && ctx.result == ctx.outcome == OutcomeAfter(trace, |trace|) && ctx.result != Some(Stopped)
      ensures forall k | 0 <= k < |trace| :: StepInOrder(trace, k)
      ensures forall k | 0 <= k < |trace| && trace[k].state == STEP_SIMULATORS ::
        trace[k].step == Simulated(trace, k + 1) && trace[k].time == Simulated(trace, k + 1) * ctx.config.width
      ensures ctx.config.probe ==> forall k | 0 <= k < |trace| :: !InLoop(trace[k].state)
      ensures forall k | 0 <= k < |trace| :: PausesAsAsked(ctx.config, trace, takenInterrupts, k)
      ensures acceptedInterrupts == takenInterrupts + (if interrupt.Some? then [interrupt.value] else [])
      ensures !ctx.misused
    {
      ghost var initial := View(Top(Some(CONNECT)));
      how := RunMachine(Some(CONNECT), ticks);
      InitialIsReachable(ctx.config);
      ReachablePlay(initial, ticks);
      RunTheorems(View(how));
    }

    method RunRound(id: Option<StateId>, t: Tick) returns (how: Pc)
      modifies this, ctx
      ensures View(how) == Round(old(View(Top(id))), t)
    {
      Interfere(t.before, Top(id));
      var i := PopInterrupt();
      if i.None? && id.None? {
        return Done;
      }
      how := RunOnce(id, i, t);
    }

    /** The body of the loop, with its exception handler. */
    method RunOnce(id: Option<StateId>, i: Option<StateId>, t: Tick) returns (how: Pc)
      requires i.Some? || id.Some?
      modifies this, ctx
      ensures var pc := if i.Some? then Handling(id, i.value) else Running(id.value);
              View(how) == Act(old(View(pc)), t)
    {
      ghost var pc := if i.Some? then Handling(id, i.value) else Running(id.value);
      Interfere(t.between, pc);
      var e, killed := Returned(None), false;
      if i.Some? {
        e := HandleInterrupt(id, i.value, t.choice);
      } else {
        e, killed := RunState(id.value, t.choice, true, id);
      }
      how := if killed then Killed else After(e, id);
      if how.Catching? {
        var accepted := PushInterrupt(how.push);
        how := if accepted then Top(id) else Escaped;
      }
    }
  }

  /** Where control is after a state has ended; an exception leaves the loop's `id` as it was. */
  function After(e: Ending, kept: Option<StateId>): Pc {
    match e
    case Returned(next) => Top(next)
    case Threw(Fatal) => Escaped
    case Threw(x) => Catching(kept, InterruptFor(x))
  }
}

/**
 The simulation machine (engine/src/simulation_machine.hpp, utility/state_machine.hpp and the
 simulation_state_*.cpp files) as a transition system.

 A machine advances in micro-steps between the actions that the mailbox mutex protects; between
 any two of them another thread may push an interrupt.  What foreign code does inside a state
 (models, triggers, the watchdog's clock) is a `Choice` made freely in each step, so a run is
 any sequence of events, and a statement about all sequences of events is one about all
 interleavings and all exceptions.
 */
module Machine {
  import opened Prelude
  import S = Schedule

  datatype StateId =
    | CONNECT | PROBE | START
    | STEP_BEGIN | STEP_SIMULATORS | STEP_CONTROLLERS | STEP_END
    | PAUSE | RESUME | SUCCESS | FAIL | ABORT | STOP | RESET | KEEP_ALIVE | DISCONNECT

  datatype Outcome = NoStart | Aborted | Stopped | Failure | Success | Probing

  datatype Thrown = AsyncAbort | ModelReset | ModelStop | ModelAbort | ModelError | Fatal

  datatype Ending = Returned(next: Option<StateId>) | Threw(what: Thrown)

  datatype Watchdog = Off | Log | AbortAfterwards | Kill

  /** `pause`: a pause was asked for before the start. */
  datatype Config = Config(probe: bool, listen: bool, watchdog: Watchdog, width: int, pause: bool)

  /** `registered`: the events were registered; registering them again throws.
      `misused`: the server was started while running or stopped while not running. */
  datatype Context = Context(
    outcome: Option<Outcome>, result: Option<Outcome>, pause: bool,
    step: nat, time: int, registered: bool, serving: bool, misused: bool,
    schedule: S.Schedule)

  /** What foreign code does while a state runs: whether something throws, and if so, before or
      after the state's own late writes; the answer to the state's question (all operational,
      reset succeeded, stay alive, initialization succeeded); whether the watchdog ran out;
      which triggers are stored, which fire although the step is not completed, and how many
      executed ones are noted in the history. */
  datatype Choice = Choice(
    throws: Option<Thrown>, late: bool, yes: bool, timedOut: bool,
    stores: seq<S.When>, some: set<nat>, executed: nat)

  // ----- The states -----

  function Advanced(c: Context, config: Config): Context {
    c.(step := c.step + 1, time := c.time + config.width)
  }

  function Stored(c: Context, ch: Choice): Context {
    c.(schedule := S.StoreAll(c.schedule, ch.stores, c.time))
  }

  function Executed(c: Context, ch: Choice): Context {
    c.(schedule := S.Execute(c.schedule, c.time, ch.executed))
  }

  function StartServer(c: Context): Context {
    c.(serving := true, misused := c.misused || c.serving)
  }

  function StopServer(c: Context): Context {
    c.(serving := false, misused := c.misused || !c.serving)
  }

  /** How a state ends that goes to `next` unless something throws. */
  function Unless(ch: Choice, next: StateId): Ending {
    match ch.throws
    case Some(e) => Threw(e)
    case None => Returned(Some(next))
  }

  /** How a state ends that first tells a callback that CONNECT registers.  Before that there is
      none to be told, and the program ends; here that is a fatal exception. */
  function Told(c: Context, ch: Choice, next: StateId): Ending {
    if c.registered then Unless(ch, next) else Threw(Fatal)
  }

  function Connect(config: Config, c: Context, ch: Choice): (Ending, Context) {
    var c := c.(outcome := Some(NoStart));
    if c.registered then (Threw(if ch.throws.Some? then ch.throws.value else Fatal), c)
    else if ch.throws.Some? then (Threw(ch.throws.value), c.(registered := ch.late))
    else if !ch.yes then (Returned(Some(ABORT)), c.(registered := true))
    else (Returned(Some(if config.probe then PROBE else START)), c.(registered := true))
  }

  function Start(config: Config, c: Context, ch: Choice): (Ending, Context) {
    if ch.throws.Some? then (Threw(ch.throws.value), c)
    else (Returned(Some(if c.pause then PAUSE else STEP_BEGIN)), Advanced(c, config))
  }

  function StepBegin(config: Config, c: Context, ch: Choice): (Ending, Context) {
    var c := c.(schedule := S.Drain(c.schedule, c.step, c.time, ch.throws.None?, ch.some));
    (Unless(ch, if ch.yes then STEP_SIMULATORS else STOP), c)
  }

  /** The step is counted before the inserted triggers are stored. */
  function StepEnd(config: Config, c: Context, ch: Choice): (Ending, Context) {
    if ch.throws.Some? && !ch.late then (Threw(ch.throws.value), c)
    else (Unless(ch, if c.pause then PAUSE else STEP_BEGIN), Stored(Advanced(c, config), ch))
  }

  function Pause(config: Config, prev: Option<StateId>, c: Context, ch: Choice): (Ending, Context) {
    var starts := prev != Some(PAUSE) && !config.listen && (ch.throws.None? || ch.late);
    (Unless(ch, if c.pause then PAUSE else RESUME), if starts then StartServer(c) else c)
  }

  function Resume(config: Config, c: Context, ch: Choice): (Ending, Context) {
    var stops := !config.listen && (ch.throws.None? || ch.late);
    (Unless(ch, STEP_BEGIN), if stops then StopServer(c) else c)
  }

  /** Whatever the models throw when they are aborted is caught, unless it is no standard
      exception, and then nobody catches it. */
  function Abort(prev: Option<StateId>, c: Context, ch: Choice): (Ending, Context) {
    if prev == Some(KEEP_ALIVE) then (Returned(Some(DISCONNECT)), c)
    else if prev == Some(CONNECT) then (Returned(Some(DISCONNECT)), c.(outcome := Some(NoStart)))
    else (if ch.throws.Some? then Threw(Fatal) else Returned(Some(DISCONNECT)), c.(outcome := Some(Aborted)))
  }

  function Stop(c: Context, ch: Choice): (Ending, Context) {
    (Told(c, ch, if ch.yes then KEEP_ALIVE else DISCONNECT),
     if c.outcome.None? then c.(outcome := Some(Stopped)) else c)
  }

  function Disconnect(c: Context, ch: Choice): (Ending, Context) {
    if ch.throws.Some? then (Threw(ch.throws.value), c)
    else (Returned(None), c.(result := Some(if c.outcome.Some? then c.outcome.value else Aborted)))
  }

  /** What a state does once the triggers of its callbacks were stored and executed. */
  function Body(config: Config, s: StateId, prev: Option<StateId>, c: Context, ch: Choice): (Ending, Context) {
    match s
    case CONNECT => Connect(config, c, ch)
    case PROBE => (Unless(ch, DISCONNECT), c.(outcome := Some(Probing)))
    case START => Start(config, c, ch)
    case STEP_BEGIN => StepBegin(config, c, ch)
    case STEP_SIMULATORS => (Unless(ch, STEP_CONTROLLERS), c)
    case STEP_CONTROLLERS => (Unless(ch, STEP_END), c)
    case STEP_END => StepEnd(config, c, ch)
    case PAUSE => Pause(config, prev, c, ch)
    case RESUME => Resume(config, c, ch)
    case SUCCESS => (Told(c, ch, STOP), c.(outcome := Some(Success)))
    case FAIL => (Told(c, ch, STOP), c.(outcome := Some(Failure)))
    case ABORT => Abort(prev, c, ch)
    case STOP => Stop(c, ch)
    case RESET => (Told(c, ch, if ch.yes then CONNECT else ABORT), c)
    case KEEP_ALIVE => (Unless(ch, KEEP_ALIVE), c)
    case DISCONNECT => Disconnect(c, ch)
  }

  function Impl(config: Config, s: StateId, prev: Option<StateId>, c: Context, ch: Choice): (Ending, Context) {
    var before := Executed(if s == STEP_END then c else Stored(c, ch), ch);
    Body(config, s, prev, before, ch)
  }

  // ----- The machine -----

  /** An entry of the trace: which state was run, whether as nominal flow or as an interrupt,
      how it ended, what foreign code did in it, and what it was entered with: the step, the time
      and the pause flag, how many interrupts had been taken out of the mailbox before, and how
      many triggers had been stored. */
  datatype Entry = Entry(
    state: StateId, nominal: bool, timedOut: bool, ending: Ending, choice: Choice,
    step: nat, time: int, pause: bool, taken: nat, stored: nat)
  {
    /** The state that nominal flow goes on with, if any. */
    function Next(): Option<StateId> {
      if timedOut then Some(ABORT) else if ending.Returned? then ending.next else None
    }
    /** Whether control came back to the main loop without an exception. */
    predicate Completed() { timedOut || ending.Returned? }
  }

  datatype Pc =
    | Top(id: Option<StateId>)                           // about to look into the mailbox
    | Handling(nominal: Option<StateId>, what: StateId)  // an interrupt was taken out
    | Running(state: StateId)                            // nominal flow
    | Catching(kept: Option<StateId>, push: StateId)     // in the exception handler
    | Done                                               // run_machine has returned
    | Escaped                                            // an exception has left run_machine
    | Killed                                             // the watchdog has ended the program

  /** `accepted` and `taken` note which interrupts went into the mailbox and came out of it. */
  datatype Machine = Machine(
    config: Config, pc: Pc, mailbox: Option<StateId>, prev: Option<StateId>, ctx: Context,
    trace: seq<Entry>, accepted: seq<StateId>, taken: seq<StateId>)

  datatype Event = Push(interrupt: StateId) | Advance(choice: Choice)

  /** The interrupts that the machine's asynchronous actions can push. */
  predicate IsInterrupt(s: StateId) {
    s in {PAUSE, RESUME, STOP, SUCCESS, FAIL, RESET, ABORT}
  }

  function InterruptFor(e: Thrown): StateId {
    match e
    case ModelReset => RESET
    case ModelStop => STOP
    case _ => ABORT
  }

  function RunState(m: Machine, s: StateId, kept: Option<StateId>, nominal: bool, ch: Choice): Machine {
    var (ending, ctx) := Impl(m.config, s, m.prev, m.ctx, ch);
    var late := nominal && ch.timedOut && m.config.watchdog in {AbortAfterwards, Kill};
    var entry := Entry(s, nominal, late, ending, ch, m.ctx.step, m.ctx.time, m.ctx.pause, |m.taken|, |m.ctx.schedule.stored|);
    var pc :=
      if late then (if m.config.watchdog == Kill then Killed else Top(Some(ABORT)))
      else
        match ending
        case Returned(next) => Top(next)
        case Threw(Fatal) => Escaped
        case Threw(e) => Catching(kept, InterruptFor(e));
    m.(pc := pc, prev := Some(s), ctx := ctx, trace := m.trace + [entry])
  }

  function Step(m: Machine, e: Event): Machine {
    match e
    case Push(i) =>
      if IsInterrupt(i) && m.mailbox.None? then m.(mailbox := Some(i), accepted := m.accepted + [i]) else m
    case Advance(ch) =>
      match m.pc
      case Top(id) =>
        if m.mailbox.Some? then
          m.(mailbox := None, taken := m.taken + [m.mailbox.value], pc := Handling(id, m.mailbox.value))
        else if id.Some? then m.(pc := Running(id.value))
        else m.(pc := Done)
      case Handling(nominal, PAUSE) => m.(pc := Top(nominal), ctx := m.ctx.(pause := true))
      case Handling(nominal, RESUME) => m.(pc := Top(nominal), ctx := m.ctx.(pause := false))
      case Handling(nominal, i) => RunState(m, i, nominal, false, ch)
      case Running(s) => RunState(m, s, Some(s), true, ch)
      case Catching(kept, i) =>
        if m.mailbox.None? then m.(mailbox := Some(i), accepted := m.accepted + [i], pc := Top(kept))
        else m.(pc := Escaped)
      case _ => m
  }

  function Run(m: Machine, events: seq<Event>): Machine
    decreases |events|
  {
    if events == [] then m else Run(Step(m, events[0]), events[1..])
  }

  /** Before CONNECT nothing has run. */
  function Initial(config: Config): Machine {
    Machine(config, Top(Some(CONNECT)), None, None,
            Context(None, None, config.pause, 0, 0, false, false, false, S.EMPTY), [], [], [])
  }

  ghost predicate Reachable(m: Machine) {
    exists events :: m == Run(Initial(m.config), events)
  }

  lemma {:induction false} RunConcat(m: Machine, a: seq<Event>, b: seq<Event>)
    ensures Run(m, a + b) == Run(Run(m, a), b)
    decreases |a|
  {
    if a == [] {
      assert a + b == b;
    } else {
      assert (a + b)[1..] == a[1..] + b;
      RunConcat(Step(m, a[0]), a[1..], b);
    }
  }
}

/**
 The mailbox and the pause flag over a whole run (engine/src/simulation_machine.hpp and
 utility/state_machine.hpp): no accepted interrupt is lost, and when nominal flow is held in
 PAUSE depends on the last PAUSE or RESUME that was taken out and on nothing else.
 */
module Interrupts {
  import opened Prelude
  import opened Machine
  import opened MachineTheorems

  /** Whether the simulation is to pause after these interrupts: the last PAUSE or RESUME counts. */
  function PauseFlag(initially: bool, taken: seq<StateId>): bool {
    if taken == [] then initially
    else
      match taken[|taken| - 1]
      case PAUSE => true
      case RESUME => false
      case _ => PauseFlag(initially, taken[..|taken| - 1])
  }

  lemma FlagSnoc(initially: bool, taken: seq<StateId>, i: StateId)
    ensures PauseFlag(initially, taken + [i])
         == match i case PAUSE => true case RESUME => false case _ => PauseFlag(initially, taken)
  {
    assert (taken + [i])[..|taken|] == taken;
  }

  lemma {:induction false} FlagConcat(initially: bool, a: seq<StateId>, b: seq<StateId>)
    ensures PauseFlag(initially, a + b) == PauseFlag(PauseFlag(initially, a), b)
    decreases |b|
  {
    if b == [] {
      assert a + b == a;
    } else {
      var front, last := b[..|b| - 1], b[|b| - 1];
      assert a + b == a + front + [last] && b == front + [last];
      FlagSnoc(initially, a + front, last);
      FlagSnoc(PauseFlag(initially, a), front, last);
      FlagConcat(initially, a, front);
    }
  }

  // ----- What every step keeps -----

  /** Every interrupt that was accepted has been taken out, or is the one in the mailbox. */
  predicate MailboxOk(m: Machine) {
    && m.accepted == m.taken + (if m.mailbox.Some? then [m.mailbox.value] else [])
    && (m.pc.Handling? ==> m.taken != [] && m.taken[|m.taken| - 1] == m.pc.what)
  }

  /** The interrupts that have had their effect. */
  function Handled(m: Machine): seq<StateId> {
    if m.pc.Handling? && m.taken != [] then m.taken[..|m.taken| - 1] else m.taken
  }

  /** The flag that the entry was made with is the one asked for by then. */
  predicate EnteredOk(config: Config, trace: seq<Entry>, taken: seq<StateId>, k: nat)
    requires k < |trace|
  {
    var e := trace[k];
    && e.taken <= |taken| && e.pause == PauseFlag(config.pause, taken[..e.taken])
    && (k > 0 ==> trace[k - 1].taken <= e.taken)
  }

  ghost predicate FlagOk(m: Machine) {
    && MailboxOk(m)
    && m.ctx.pause == PauseFlag(m.config.pause, Handled(m))
    && (m.trace != [] ==> m.trace[|m.trace| - 1].taken <= |m.taken|)
    && forall k | 0 <= k < |m.trace| :: EnteredOk(m.config, m.trace, m.taken, k)
  }

  lemma BodyKeepsFlag(config: Config, s: StateId, prev: Option<StateId>, c: Context, ch: Choice)
    ensures Body(config, s, prev, c, ch).1.pause == c.pause
  {
  }

  /** No state changes the flag. */
  lemma ImplKeepsFlag(config: Config, s: StateId, prev: Option<StateId>, c: Context, ch: Choice)
    ensures Impl(config, s, prev, c, ch).1.pause == c.pause
  {
    BodyKeepsFlag(config, s, prev, Executed(if s == STEP_END then c else Stored(c, ch), ch), ch);
  }

  lemma RunStateKeepsFlag(m: Machine, s: StateId, kept: Option<StateId>, nominal: bool, ch: Choice)
    requires FlagOk(m) && m.ctx.pause == PauseFlag(m.config.pause, m.taken)
    ensures FlagOk(RunState(m, s, kept, nominal, ch))
  {
    var m' := RunState(m, s, kept, nominal, ch);
    var e := RunStateEntry(m, s, kept, nominal, ch);
    ImplKeepsFlag(m.config, s, m.prev, m.ctx, ch);
    assert m.taken[..|m.taken|] == m.taken;
    forall k | 0 <= k < |m'.trace| ensures EnteredOk(m'.config, m'.trace, m'.taken, k) {
      if k < |m.trace| {
        assert EnteredOk(m.config, m.trace, m.taken, k);
      }
    }
  }

  lemma TakesOneMore(m: Machine, i: StateId)
    requires forall k | 0 <= k < |m.trace| :: EnteredOk(m.config, m.trace, m.taken, k)
    ensures forall k | 0 <= k < |m.trace| :: EnteredOk(m.config, m.trace, m.taken + [i], k)
  {
    forall k | 0 <= k < |m.trace| ensures EnteredOk(m.config, m.trace, m.taken + [i], k) {
      assert EnteredOk(m.config, m.trace, m.taken, k);
      assert (m.taken + [i])[..m.trace[k].taken] == m.taken[..m.trace[k].taken];
    }
  }

  /** An interrupt has its effect on the flag once it is handled. */
  lemma HandlingFlag(m: Machine)
    requires FlagOk(m) && m.pc.Handling?
    ensures PauseFlag(m.config.pause, m.taken)
         == match m.pc.what case PAUSE => true case RESUME => false case _ => m.ctx.pause
  {
    assert m.taken == Handled(m) + [m.pc.what];
    FlagSnoc(m.config.pause, Handled(m), m.pc.what);
  }

  /** The mailbox alone has changed. */
  lemma AcceptedKeepsFlag(m: Machine, m': Machine)
    requires FlagOk(m) && MailboxOk(m') && m'.trace == m.trace && m'.taken == m.taken && m'.config == m.config
    requires m'.ctx == m.ctx && (m'.pc == m.pc || (!m.pc.Handling? && !m'.pc.Handling?))
    ensures FlagOk(m')
  {
  }

  /** An interrupt has been taken out, and is to be handled. */
  lemma TakenKeepsFlag(m: Machine, m': Machine, i: StateId)
    requires FlagOk(m) && !m.pc.Handling? && m'.pc.Handling? && m'.pc.what == i
    requires m.mailbox == Some(i) && m'.mailbox == None && m'.taken == m.taken + [i] && m'.accepted == m.accepted
    requires m'.trace == m.trace && m'.config == m.config && m'.ctx == m.ctx
    ensures FlagOk(m')
  {
    TakesOneMore(m, i);
    assert (m.taken + [i])[..|m.taken|] == m.taken;
  }

  lemma TopKeepsFlag(m: Machine, ch: Choice)
    requires FlagOk(m) && m.pc.Top?
    ensures FlagOk(Step(m, Advance(ch)))
  {
    if m.mailbox.Some? {
      TakenKeepsFlag(m, Step(m, Advance(ch)), m.mailbox.value);
    } else {
      AcceptedKeepsFlag(m, Step(m, Advance(ch)));
    }
  }

  lemma HandlingKeepsFlag(m: Machine, ch: Choice)
    requires FlagOk(m) && m.pc.Handling?
    ensures FlagOk(Step(m, Advance(ch)))
  {
    HandlingFlag(m);
    if m.pc.what != PAUSE && m.pc.what != RESUME {
      RunStateKeepsFlag(m, m.pc.what, m.pc.nominal, false, ch);
    }
  }

  lemma CatchingKeepsFlag(m: Machine, ch: Choice)
    requires FlagOk(m) && m.pc.Catching?
    ensures FlagOk(Step(m, Advance(ch)))
  {
    AcceptedKeepsFlag(m, Step(m, Advance(ch)));
  }

  lemma PushKeepsFlag(m: Machine, e: Event)
    requires FlagOk(m) && (e.Push? || m.pc in {Done, Escaped, Killed})
    ensures FlagOk(Step(m, e))
  {
    AcceptedKeepsFlag(m, Step(m, e));
  }

  lemma StepKeepsFlag(m: Machine, e: Event)
    requires FlagOk(m)
    ensures FlagOk(Step(m, e))
  {
    if e.Advance? && m.pc.Running? {
      RunStateKeepsFlag(m, m.pc.state, Some(m.pc.state), true, e.choice);
    } else if e.Advance? && m.pc.Handling? {
      HandlingKeepsFlag(m, e.choice);
    } else if e.Advance? && m.pc.Top? {
      TopKeepsFlag(m, e.choice);
    } else if e.Advance? && m.pc.Catching? {
      CatchingKeepsFlag(m, e.choice);
    } else {
      PushKeepsFlag(m, e);
    }
  }

  lemma {:induction false} RunKeepsFlag(m: Machine, events: seq<Event>)
    requires FlagOk(m)
    ensures FlagOk(Run(m, events))
    decreases |events|
  {
    if events != [] {
      StepKeepsFlag(m, events[0]);
      RunKeepsFlag(Step(m, events[0]), events[1..]);
    }
  }

  lemma ReachableFlag(m: Machine)
    requires Reachable(m)
    ensures FlagOk(m)
  {
    var events :| m == Run(Initial(m.config), events);
    RunKeepsFlag(Initial(m.config), events);
  }

  // ----- Theorems -----

  /** Interrupts are taken out in the order they were accepted in, each once. */
  lemma NoInterruptIsLost(m: Machine)
    requires Reachable(m)
    ensures m.accepted == m.taken + (if m.mailbox.Some? then [m.mailbox.value] else [])
  {
    ReachableFlag(m);
  }

  /** When the machine returns, none is left. */
  lemma AllInterruptsAreTaken(m: Machine, e: Event)
    requires Reachable(m) && m.pc != Done && Step(m, e).pc == Done
    ensures Step(m, e).accepted == Step(m, e).taken
  {
    ReachableStep(m, e);
    NoInterruptIsLost(Step(m, e));
    ReturnsWithEmptyMailbox(m, e);
  }

  /** When an entry of the trace is held, or let go on. */
  predicate PausesAsAsked(config: Config, trace: seq<Entry>, taken: seq<StateId>, k: nat)
    requires k < |trace|
  {
    var e := trace[k];
    && e.taken <= |taken| && e.pause == PauseFlag(config.pause, taken[..e.taken])
    && (e.state in {START, STEP_END, PAUSE} && e.ending.Returned? ==> (e.ending.next == Some(PAUSE) <==> e.pause))
    && (e.state == PAUSE ==> k > 0 && trace[k - 1].pause)
    && (e.state == RESUME ==>
          k > 0 && trace[k - 1].state == PAUSE && !trace[k - 1].pause && trace[k - 1].taken <= e.taken
          && (e.pause <==> PauseFlag(false, taken[trace[k - 1].taken..e.taken])))
  }

  /** START, STEP_END and PAUSE go on with PAUSE exactly if the flag was set when they were entered;
      so PAUSE is run only after a state entered with the flag set, and RESUME only after a PAUSE
      entered with the flag clear.  RESUME itself is entered with the flag clear unless a PAUSE was
      taken out in between, and after it no RESUME. */
  lemma PausesWhileAsked(m: Machine, k: nat)
    requires Reachable(m) && k < |m.trace|
    ensures PausesAsAsked(m.config, m.trace, m.taken, k)
  {
    EntriesEntered(m, k);
    StatesEnd(m, k);
    var e := m.trace[k];
    if e.state == PAUSE || e.state == RESUME {
      Predecessor(m, k);
      SuccessorOf(m.config, m.trace[k - 1], e.state);
    }
    if e.state == RESUME {
      ResumedFlag(m, k);
    }
  }

  lemma EntriesEntered(m: Machine, k: nat)
    requires Reachable(m) && k < |m.trace|
    ensures EnteredOk(m.config, m.trace, m.taken, k)
  {
    ReachableFlag(m);
  }

  /** The flag after a state that was entered with the flag clear. */
  lemma ResumedFlag(m: Machine, k: nat)
    requires Reachable(m) && 0 < k < |m.trace| && !m.trace[k - 1].pause
    ensures m.trace[k - 1].taken <= m.trace[k].taken <= |m.taken|
    ensures m.trace[k].pause == PauseFlag(false, m.taken[m.trace[k - 1].taken..m.trace[k].taken])
  {
    EntriesEntered(m, k);
    EntriesEntered(m, k - 1);
    var i, j := m.trace[k - 1].taken, m.trace[k].taken;
    assert m.taken[..i] + m.taken[i..j] == m.taken[..j];
    FlagConcat(m.config.pause, m.taken[..i], m.taken[i..j]);
  }

  /** As long as no interrupt was taken out, a simulation that is paused at the start does no step, and
      one that is not never gets to PAUSE. */
  lemma {:induction false} UninterruptedPause(m: Machine, k: nat)
    requires Reachable(m) && m.taken == [] && k < |m.trace|
    ensures m.config.pause ==> m.trace[k].state !in {RESUME, STEP_BEGIN, STEP_SIMULATORS, STEP_CONTROLLERS, STEP_END}
    ensures !m.config.pause ==> m.trace[k].state !in {PAUSE, RESUME}
  {
    PausesWhileAsked(m, k);
    var s := m.trace[k].state;
    if !Diverts(s) && (k > 0 || s != CONNECT) {
      Predecessor(m, k);
      UninterruptedPause(m, k - 1);
      PausesWhileAsked(m, k - 1);
    }
  }

  // ----- A PAUSE that comes too late -----

  lemma PausedRun(config: Config) returns (m: Machine)
    requires !config.probe && config.watchdog == Off && config.pause
    ensures Reachable(m) && m.config == config && m.pc == Top(Some(PAUSE)) && m.mailbox == None && m.taken == []
    ensures m.ctx.pause && |m.trace| == 2
  {
    m := StartedRun(config);
  }

  /** The RESUME that is asked for is handled, and PAUSE is run once more. */
  lemma LetGoRun(config: Config) returns (m: Machine)
    requires !config.probe && config.watchdog == Off && config.pause
    ensures Reachable(m) && m.config == config && m.pc == Top(Some(RESUME)) && m.mailbox == None
    ensures !m.ctx.pause && |m.trace| == 3
  {
    m := PausedRun(config);
    m := AfterStep(m, Push(RESUME));
    m := AfterStep(m, Advance(QUIET));
    m := AfterStep(m, Advance(QUIET));
    assert m.pc == Top(Some(PAUSE)) && !m.ctx.pause;
    m := AfterStep(m, Advance(QUIET));
    m := AfterStep(m, Advance(QUIET));
  }

  /** So RESUME can be run with the flag set: a PAUSE that is taken out just before it does not keep
      the simulation from going on with a step. */
  lemma ResumesThoughPaused(config: Config) returns (m: Machine)
    requires !config.probe && config.watchdog == Off && config.pause
    ensures Reachable(m) && m.pc == Top(Some(STEP_BEGIN))
    ensures |m.trace| == 4 && m.trace[3].state == RESUME && m.trace[3].pause
  {
    m := LetGoRun(config);
    m := AfterStep(m, Push(PAUSE));
    m := AfterStep(m, Advance(QUIET));
    m := AfterStep(m, Advance(QUIET));
    assert m.pc == Top(Some(RESUME)) && m.ctx.pause;
    m := AfterStep(m, Advance(QUIET));
    m := AfterStep(m, Advance(QUIET));
  }
}

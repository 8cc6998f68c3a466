/**
 When a state ends with an exception (the simulation_state_*.cpp files): the events are registered
 by CONNECT and only once, and before that there is nothing that could be told of the end.
 */
module Endings {
  import opened Prelude
  import opened Machine
  import opened MachineTheorems

  /** The entry has registered the events: it is a CONNECT that went through, or threw after that. */
  predicate Registers(e: Entry) {
    e.state == CONNECT && (e.ending.Returned? || e.choice.late)
  }

  predicate RegisteredBy(trace: seq<Entry>, k: nat)
    requires k <= |trace|
  {
    k > 0 && (Registers(trace[k - 1]) || RegisteredBy(trace, k - 1))
  }

  lemma {:induction false} RegisteredByIs(trace: seq<Entry>, k: nat)
    requires k <= |trace|
    ensures RegisteredBy(trace, k) <==> exists j :: 0 <= j < k && Registers(trace[j])
  {
    if k > 0 {
      RegisteredByIs(trace, k - 1);
    }
  }

  lemma {:induction false} RegisteredByPrefix(trace: seq<Entry>, e: Entry, k: nat)
    requires k <= |trace|
    ensures RegisteredBy(trace + [e], k) == RegisteredBy(trace, k)
  {
    if k > 0 {
      RegisteredByPrefix(trace, e, k - 1);
    }
  }

  /** Whether the state comes to its end: nothing was thrown in it, and CONNECT finds no events
      registered, and the states that tell of the end find them registered; an ABORT after CONNECT
      or KEEP_ALIVE asks nobody. */
  predicate ComesToItsEnd(e: Entry, prev: Option<StateId>, registered: bool) {
    match e.state
    case CONNECT => e.choice.throws.None? && !registered
    case ABORT => e.choice.throws.None? || prev == Some(KEEP_ALIVE) || prev == Some(CONNECT)
    case SUCCESS => e.choice.throws.None? && registered
    case FAIL => e.choice.throws.None? && registered
    case STOP => e.choice.throws.None? && registered
    case RESET => e.choice.throws.None? && registered
    case _ => e.choice.throws.None?
  }

  predicate EndsAt(trace: seq<Entry>, k: nat)
    requires k < |trace|
  {
    trace[k].ending.Returned? <==> ComesToItsEnd(trace[k], PrevState(trace, k), RegisteredBy(trace, k))
  }

  ghost predicate EndingsOk(m: Machine) {
    var k := |m.trace|;
    && m.prev == PrevState(m.trace, k)
    && m.ctx.registered == RegisteredBy(m.trace, k)
    && forall j | 0 <= j < k :: EndsAt(m.trace, j)
  }

  lemma BodyEndsAs(config: Config, s: StateId, prev: Option<StateId>, c: Context, ch: Choice, e: Entry)
    requires e.state == s && e.choice == ch && e.ending == Body(config, s, prev, c, ch).0
    ensures e.ending.Returned? <==> ComesToItsEnd(e, prev, c.registered)
    ensures Body(config, s, prev, c, ch).1.registered == (c.registered || Registers(e))
  {
  }

  lemma ImplEndsAs(config: Config, s: StateId, prev: Option<StateId>, c: Context, ch: Choice, e: Entry)
    requires e.state == s && e.choice == ch && e.ending == Impl(config, s, prev, c, ch).0
    ensures e.ending.Returned? <==> ComesToItsEnd(e, prev, c.registered)
    ensures Impl(config, s, prev, c, ch).1.registered == (c.registered || Registers(e))
  {
    BodyEndsAs(config, s, prev, Executed(if s == STEP_END then c else Stored(c, ch), ch), ch, e);
  }

  lemma RunStateKeepsEndings(m: Machine, s: StateId, kept: Option<StateId>, nominal: bool, ch: Choice)
    requires EndingsOk(m)
    ensures EndingsOk(RunState(m, s, kept, nominal, ch))
  {
    var e := RunStateEntry(m, s, kept, nominal, ch);
    ImplEndsAs(m.config, s, m.prev, m.ctx, ch, e);
    EndingsStay(m, e);
  }

  lemma EndingsStay(m: Machine, e: Entry)
    requires EndingsOk(m)
    ensures forall j | 0 <= j < |m.trace| :: EndsAt(m.trace + [e], j)
    ensures RegisteredBy(m.trace + [e], |m.trace|) == m.ctx.registered
    ensures PrevState(m.trace + [e], |m.trace|) == m.prev
  {
    RegisteredByPrefix(m.trace, e, |m.trace|);
    forall j | 0 <= j < |m.trace| ensures EndsAt(m.trace + [e], j) {
      assert EndsAt(m.trace, j);
      RegisteredByPrefix(m.trace, e, j);
    }
  }

  lemma SameEndings(m: Machine, m': Machine)
    requires EndingsOk(m) && m'.trace == m.trace && m'.prev == m.prev && m'.ctx.registered == m.ctx.registered
    ensures EndingsOk(m')
  {
  }

  lemma StepKeepsEndings(m: Machine, e: Event)
    requires EndingsOk(m)
    ensures EndingsOk(Step(m, e))
  {
    if e.Advance? && m.pc.Running? {
      RunStateKeepsEndings(m, m.pc.state, Some(m.pc.state), true, e.choice);
    } else if e.Advance? && m.pc.Handling? && m.pc.what != PAUSE && m.pc.what != RESUME {
      RunStateKeepsEndings(m, m.pc.what, m.pc.nominal, false, e.choice);
    } else {
      SameEndings(m, Step(m, e));
    }
  }

  lemma {:induction false} RunKeepsEndings(m: Machine, events: seq<Event>)
    requires EndingsOk(m)
    ensures EndingsOk(Run(m, events))
    decreases |events|
  {
    if events != [] {
      StepKeepsEndings(m, events[0]);
      RunKeepsEndings(Step(m, events[0]), events[1..]);
    }
  }

  /** In every run, a state ends with an exception exactly if something was thrown in it that it does
      not keep to itself, or it is a CONNECT after the events were registered, or a SUCCESS, FAIL,
      STOP or RESET before. */
  lemma StatesComeToTheirEnd(m: Machine, k: nat)
    requires Reachable(m) && k < |m.trace|
    ensures var registered := exists j :: 0 <= j < k && Registers(m.trace[j]);
      m.trace[k].ending.Returned? <==> ComesToItsEnd(m.trace[k], PrevState(m.trace, k), registered)
  {
    var events :| m == Run(Initial(m.config), events);
    RunKeepsEndings(Initial(m.config), events);
    assert EndsAt(m.trace, k);
    RegisteredByIs(m.trace, k);
  }
}

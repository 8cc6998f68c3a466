/**
 What is asked for in a run and what becomes of it (engine/src/coordinator.cpp and the states that
 process triggers): which requests are stored, at which step and time, in which order, and what the
 trigger history then holds.
 */
module Requests {
  import opened Prelude
  import opened Machine
  import opened MachineTheorems
  import S = Schedule

  /** What a state stores of the requests that wait for it: STEP_END may throw before it gets there;
      every other state stores them first. */
  function Storing(e: Entry): seq<S.When> {
    if e.state == STEP_END && e.choice.throws.Some? && !e.choice.late then [] else e.choice.stores
  }

  /** The simulation time at which a state stores: STEP_END has counted its step by then. */
  function StoringTime(config: Config, e: Entry): int {
    if e.state == STEP_END then e.time + config.width else e.time
  }

  /** The i-th request of the state is the trigger with the i-th place after those before it. */
  predicate StoredOne(config: Config, e: Entry, stored: seq<S.Timed>, i: nat)
    requires i < |Storing(e)| && e.stored + |Storing(e)| <= |stored|
  {
    var t := stored[e.stored + i];
    t.asked == Storing(e)[i] && t.since == StoringTime(config, e) && S.AsAsked(t)
  }

  /** The requests of a state are stored one behind the other, as they were asked for. */
  predicate StoredAs(config: Config, e: Entry, stored: seq<S.Timed>) {
    && e.stored + |Storing(e)| <= |stored|
    && forall i | 0 <= i < |Storing(e)| :: StoredOne(config, e, stored, i)
  }

  predicate StoredAt(config: Config, trace: seq<Entry>, k: nat, stored: seq<S.Timed>)
    requires k < |trace|
  {
    StoredAs(config, trace[k], stored)
  }

  /** How many triggers are stored once the first `k` entries have been made. */
  function StoredBefore(trace: seq<Entry>, k: nat): nat
    requires k <= |trace|
  {
    if k == 0 then 0 else trace[k - 1].stored + |Storing(trace[k - 1])|
  }

  /** The entry counts a step: a START that nothing is thrown in, or a STEP_END that gets that far. */
  predicate CountsStep(e: Entry) {
    match e.state
    case START => e.choice.throws.None?
    case STEP_END => e.choice.throws.None? || e.choice.late
    case _ => false
  }

  function StepsAfter(trace: seq<Entry>, k: nat): nat
    requires k <= |trace|
  {
    if k == 0 then 0 else StepsAfter(trace, k - 1) + if CountsStep(trace[k - 1]) then 1 else 0
  }

  lemma {:induction false} StepsAfterPrefix(trace: seq<Entry>, e: Entry, k: nat)
    requires k <= |trace|
    ensures StepsAfter(trace + [e], k) == StepsAfter(trace, k)
  {
    if k > 0 {
      StepsAfterPrefix(trace, e, k - 1);
    }
  }

  /** The entry was made with the steps counted by then, and the time that belongs to them. */
  predicate EnteredAt(config: Config, trace: seq<Entry>, k: nat)
    requires k < |trace|
  {
    trace[k].step == StepsAfter(trace, k) && trace[k].time == StepsAfter(trace, k) * config.width
  }

  /** The next state's requests come behind those of this one. */
  predicate Adjoin(trace: seq<Entry>, k: nat)
    requires k < |trace|
  {
    trace[k].stored == StoredBefore(trace, k)
  }

  /** The history over the first `k` entries: each executed trigger is noted with the time the state
      was entered at. */
  function HistoryAfter(trace: seq<Entry>, k: nat): seq<int>
    requires k <= |trace|
  {
    if k == 0 then []
    else HistoryAfter(trace, k - 1) + Times(trace[k - 1].time, trace[k - 1].choice.executed)
  }

  function Times(now: int, count: nat): seq<int> {
    if count == 0 then [] else Times(now, count - 1) + [now]
  }

  lemma {:induction false} TimesAre(now: int, count: nat)
    ensures |Times(now, count)| == count && forall i | 0 <= i < count :: Times(now, count)[i] == now
  {
    if count > 0 {
      TimesAre(now, count - 1);
    }
  }

  lemma ExecuteIs(s: S.Schedule, now: int, count: nat)
    ensures S.Execute(s, now, count) == s.(history := s.history + Times(now, count))
  {
    TimesAre(now, count);
    assert seq(count, _ => now) == Times(now, count);
  }

  lemma {:induction false} HistoryAfterPrefix(trace: seq<Entry>, e: Entry, k: nat)
    requires k <= |trace|
    ensures HistoryAfter(trace + [e], k) == HistoryAfter(trace, k)
  {
    if k > 0 {
      HistoryAfterPrefix(trace, e, k - 1);
    }
  }

  // ----- What every step keeps -----

  ghost predicate RequestsOk(m: Machine) {
    var s, k := m.ctx.schedule, |m.trace|;
    && |s.stored| == StoredBefore(m.trace, k)
    && s.history == HistoryAfter(m.trace, k)
    && m.ctx.step == StepsAfter(m.trace, k) && m.ctx.time == StepsAfter(m.trace, k) * m.config.width
    && (forall j | 0 <= j < k :: EnteredAt(m.config, m.trace, j))
    && (forall j | 0 <= j < k :: Adjoin(m.trace, j))
    && (forall j | 0 <= j < k :: StoredAt(m.config, m.trace, j, s.stored))
  }

  lemma DrainKeepsRequests(s: S.Schedule, step: nat, now: int, complete: bool, some: set<nat>)
    ensures S.Drain(s, step, now, complete, some).stored == s.stored
    ensures S.Drain(s, step, now, complete, some).history == s.history
  {
  }

  lemma BodyStores(config: Config, s: StateId, prev: Option<StateId>, c: Context, ch: Choice)
    ensures var c' := Body(config, s, prev, c, ch).1;
      && c'.schedule.history == c.schedule.history
      && var late := s == STEP_END && !(ch.throws.Some? && !ch.late);
         c'.schedule.stored
           == if late then S.StoreAll(c.schedule, ch.stores, c.time + config.width).stored else c.schedule.stored
  {
    if s == STEP_END {
      S.StoreAllIs(c.schedule, ch.stores, c.time + config.width);
    } else if s == STEP_BEGIN {
      DrainKeepsRequests(c.schedule, c.step, c.time, ch.throws.None?, ch.some);
    }
  }

  lemma ImplStores(config: Config, s: StateId, prev: Option<StateId>, c: Context, ch: Choice, e: Entry)
    requires e.state == s && e.choice == ch && e.time == c.time && e.stored == |c.schedule.stored|
    ensures var c' := Impl(config, s, prev, c, ch).1;
      && c'.schedule.history == c.schedule.history + Times(c.time, ch.executed)
      && |c'.schedule.stored| == |c.schedule.stored| + |Storing(e)| && c.schedule.stored <= c'.schedule.stored
      && StoredAs(config, e, c'.schedule.stored)
  {
    S.StoreAllIs(c.schedule, ch.stores, c.time);
    var stored := if s == STEP_END then c else Stored(c, ch);
    ExecuteIs(stored.schedule, c.time, ch.executed);
    var before := Executed(stored, ch);
    BodyStores(config, s, prev, before, ch);
    S.StoreAllIs(before.schedule, ch.stores, c.time + config.width);
    var after := Impl(config, s, prev, c, ch).1.schedule.stored;
    forall i | 0 <= i < |Storing(e)| ensures StoredOne(config, e, after, i) {
      assert S.StoredFor(after[e.stored + i], ch.stores[i], StoringTime(config, e), c.schedule.drained);
    }
  }

  lemma BodyCounts(config: Config, s: StateId, prev: Option<StateId>, c: Context, ch: Choice, e: Entry)
    requires e.state == s && e.choice == ch
    ensures var c' := Body(config, s, prev, c, ch).1;
      && c'.step == c.step + (if CountsStep(e) then 1 else 0)
      && c'.time == c.time + (if CountsStep(e) then config.width else 0)
  {
  }

  lemma ImplCounts(config: Config, s: StateId, prev: Option<StateId>, c: Context, ch: Choice, e: Entry)
    requires e.state == s && e.choice == ch
    ensures var c' := Impl(config, s, prev, c, ch).1;
      && c'.step == c.step + (if CountsStep(e) then 1 else 0)
      && c'.time == c.time + (if CountsStep(e) then config.width else 0)
  {
    BodyCounts(config, s, prev, Executed(if s == STEP_END then c else Stored(c, ch), ch), ch, e);
  }

  lemma EntriesKeepTime(m: Machine, e: Entry)
    requires RequestsOk(m) && e.step == m.ctx.step && e.time == m.ctx.time
    ensures forall j | 0 <= j <= |m.trace| :: EnteredAt(m.config, m.trace + [e], j)
    ensures StepsAfter(m.trace + [e], |m.trace| + 1) == m.ctx.step + if CountsStep(e) then 1 else 0
  {
    forall j | 0 <= j <= |m.trace| ensures EnteredAt(m.config, m.trace + [e], j) {
      StepsAfterPrefix(m.trace, e, j);
      if j < |m.trace| {
        assert EnteredAt(m.config, m.trace, j);
      }
    }
    StepsAfterPrefix(m.trace, e, |m.trace|);
  }

  lemma TimesOneMore(step: nat, width: int)
    ensures (step + 1) * width == step * width + width
  {
  }

  lemma RunStateKeepsRequests(m: Machine, s: StateId, kept: Option<StateId>, nominal: bool, ch: Choice)
    requires RequestsOk(m)
    ensures RequestsOk(RunState(m, s, kept, nominal, ch))
  {
    var m' := RunState(m, s, kept, nominal, ch);
    var e := RunStateEntry(m, s, kept, nominal, ch);
    ImplStores(m.config, s, m.prev, m.ctx, ch, e);
    HistoryAfterPrefix(m.trace, e, |m.trace|);
    EntriesStay(m, m'.ctx.schedule.stored, e);
    ImplCounts(m.config, s, m.prev, m.ctx, ch, e);
    EntriesKeepTime(m, e);
    TimesOneMore(m.ctx.step, m.config.width);
  }

  lemma EntriesStay(m: Machine, stored: seq<S.Timed>, e: Entry)
    requires RequestsOk(m) && m.ctx.schedule.stored <= stored
    ensures forall j | 0 <= j < |m.trace| :: Adjoin(m.trace + [e], j)
    ensures forall j | 0 <= j < |m.trace| :: StoredAt(m.config, m.trace + [e], j, stored)
  {
    forall j | 0 <= j < |m.trace| ensures Adjoin(m.trace + [e], j) {
      assert Adjoin(m.trace, j);
    }
    forall j | 0 <= j < |m.trace| ensures StoredAt(m.config, m.trace + [e], j, stored) {
      assert StoredAt(m.config, m.trace, j, m.ctx.schedule.stored);
      StaysStored(m.config, m.trace[j], m.ctx.schedule.stored, stored);
    }
  }

  lemma StaysStored(config: Config, e: Entry, before: seq<S.Timed>, after: seq<S.Timed>)
    requires StoredAs(config, e, before) && before <= after
    ensures StoredAs(config, e, after)
  {
    forall i | 0 <= i < |Storing(e)| ensures StoredOne(config, e, after, i) {
      assert StoredOne(config, e, before, i);
    }
  }

  lemma SameRequests(m: Machine, m': Machine)
    requires RequestsOk(m) && m'.trace == m.trace && m'.config == m.config && m'.ctx.schedule == m.ctx.schedule
    requires m'.ctx.step == m.ctx.step && m'.ctx.time == m.ctx.time
    ensures RequestsOk(m')
  {
  }

  lemma StepKeepsRequests(m: Machine, e: Event)
    requires RequestsOk(m)
    ensures RequestsOk(Step(m, e))
  {
    if e.Advance? && m.pc.Running? {
      RunStateKeepsRequests(m, m.pc.state, Some(m.pc.state), true, e.choice);
    } else if e.Advance? && m.pc.Handling? && m.pc.what != PAUSE && m.pc.what != RESUME {
      RunStateKeepsRequests(m, m.pc.what, m.pc.nominal, false, e.choice);
    } else {
      SameRequests(m, Step(m, e));
    }
  }

  lemma {:induction false} RunKeepsRequests(m: Machine, events: seq<Event>)
    requires RequestsOk(m)
    ensures RequestsOk(Run(m, events))
    decreases |events|
  {
    if events != [] {
      StepKeepsRequests(m, events[0]);
      RunKeepsRequests(Step(m, events[0]), events[1..]);
    }
  }

  lemma ReachableRequests(m: Machine)
    requires Reachable(m)
    ensures RequestsOk(m)
  {
    var events :| m == Run(Initial(m.config), events);
    RunKeepsRequests(Initial(m.config), events);
  }

  // ----- Theorems -----

  /** Every state is entered with the number of steps counted before, and with their time. */
  lemma StepsAreCounted(m: Machine, k: nat)
    requires Reachable(m) && k < |m.trace|
    ensures m.trace[k].step == StepsAfter(m.trace, k)
    ensures m.trace[k].time == StepsAfter(m.trace, k) * m.config.width
  {
    ReachableRequests(m);
    assert EnteredAt(m.config, m.trace, k);
  }

  /** The i-th request that waits for a state is stored under the next free place, with the state's
      time; STEP_END's requests count from the next step on. */
  lemma RequestsAreStored(m: Machine, k: nat, i: nat)
    requires Reachable(m) && k < |m.trace| && i < |Storing(m.trace[k])|
    ensures var e, stored := m.trace[k], m.ctx.schedule.stored;
      && e.stored + i < |stored|
      && stored[e.stored + i].asked == e.choice.stores[i]
      && stored[e.stored + i].since == (if e.state == STEP_END then e.time + m.config.width else e.time)
  {
    ReachableRequests(m);
    assert StoredAt(m.config, m.trace, k, m.ctx.schedule.stored);
    assert StoredOne(m.config, m.trace[k], m.ctx.schedule.stored, i);
  }

  /** From the request to the firing: asked for a time to come, or an offset to come, a trigger fires
      in the step that first reaches that time, if at all, and once that step has come to its end. */
  lemma RequestsFireOnTime(m: Machine, k: nat, i: nat)
    requires Reachable(m) && m.config.width > 0 && k < |m.trace| && i < |Storing(m.trace[k])|
    ensures var e := m.trace[k];
      var now := if e.state == STEP_END then e.time + m.config.width else e.time;
      match e.choice.stores[i]
      case AtTime(time) => now < time ==> FiresInTime(m, e.stored + i, time)
      case InTime(offset) => 0 < offset ==> FiresInTime(m, e.stored + i, now + offset)
  {
    RequestsAreStored(m, k, i);
    TriggersFireOnTime(m, m.trace[k].stored + i);
  }

  lemma {:induction false} WhoAsked(trace: seq<Entry>, id: nat, k: nat) returns (j: nat)
    requires forall j | 0 <= j < |trace| :: Adjoin(trace, j)
    requires k <= |trace| && id < StoredBefore(trace, k)
    ensures j < k && trace[j].stored <= id < trace[j].stored + |Storing(trace[j])|
  {
    assert Adjoin(trace, k - 1);
    if id < trace[k - 1].stored {
      j := WhoAsked(trace, id, k - 1);
    } else {
      j := k - 1;
    }
  }

  /** Every stored trigger was asked for by a state of the trace. */
  lemma EveryTriggerWasAskedFor(m: Machine, id: nat) returns (k: nat)
    requires Reachable(m) && id < |m.ctx.schedule.stored|
    ensures k < |m.trace| && m.trace[k].stored <= id < m.trace[k].stored + |Storing(m.trace[k])|
    ensures m.ctx.schedule.stored[id].asked == m.trace[k].choice.stores[id - m.trace[k].stored]
  {
    ReachableRequests(m);
    k := WhoAsked(m.trace, id, |m.trace|);
    RequestsAreStored(m, k, id - m.trace[k].stored);
  }

  /** The history of a run holds exactly what was executed in it, at the times of the states. */
  lemma HistoryIsExecuted(m: Machine)
    requires Reachable(m)
    ensures m.ctx.schedule.history == HistoryAfter(m.trace, |m.trace|)
  {
    ReachableRequests(m);
  }
}

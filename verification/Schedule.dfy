/**
 The bookkeeping of timed triggers over a whole run (engine/src/simulation_events.hpp and
 coordinator.cpp): what was stored when, and what fired in which step.  A trigger is named by
 its place in the order of storing.
 */
module Schedule {

  /** What a stored trigger waits for: an absolute time, or an offset from the current time
      ("next"), which is turned into an absolute time when the trigger is stored. */
  datatype When = AtTime(time: int) | InTime(offset: int)

  /** `asked` is what was asked for, at the time `since`; `drainedAt` is the last step whose queue
      had been drained when the trigger was stored. */
  datatype Timed = Timed(asked: When, due: int, since: int, drainedAt: nat)

  datatype Firing = Firing(step: nat, time: int)

  datatype Schedule = Schedule(stored: seq<Timed>, fired: map<nat, Firing>, drained: nat, history: seq<int>)
  {
    predicate Pending(id: nat) { id < |stored| && id !in fired }
  }

  const EMPTY := Schedule([], map[], 0, [])

  function Store(s: Schedule, w: When, now: int): Schedule {
    var due := match w case AtTime(t) => t case InTime(offset) => offset + now;
    s.(stored := s.stored + [Timed(w, due, now, s.drained)])
  }

  function StoreAll(s: Schedule, ws: seq<When>, now: int): Schedule
    decreases |ws|
  {
    if ws == [] then s else StoreAll(Store(s, ws[0], now), ws[1..], now)
  }

  /** The trigger waits for what was asked: the time itself, or that much later than it was stored. */
  predicate AsAsked(t: Timed) {
    match t.asked
    case AtTime(time) => t.due == time
    case InTime(offset) => t.due == t.since + offset
  }

  predicate AllAsAsked(s: Schedule) {
    forall id | 0 <= id < |s.stored| :: AsAsked(s.stored[id])
  }

  /** What is stored for the request `w`. */
  predicate StoredFor(t: Timed, w: When, now: int, drained: nat) {
    t.asked == w && t.since == now && t.drainedAt == drained && AsAsked(t)
  }

  /** All requests are stored, in order, each as it was asked for. */
  lemma {:induction false} StoreAllIs(s: Schedule, ws: seq<When>, now: int)
    ensures var s' := StoreAll(s, ws, now);
      && s' == s.(stored := s'.stored) && |s'.stored| == |s.stored| + |ws| && s.stored <= s'.stored
      && forall i | 0 <= i < |ws| :: StoredFor(s'.stored[|s.stored| + i], ws[i], now, s.drained)
    decreases |ws|
  {
    if ws != [] {
      var one := Store(s, ws[0], now);
      StoreAllIs(one, ws[1..], now);
      var s' := StoreAll(s, ws, now);
      forall i | 0 <= i < |ws|
        ensures StoredFor(s'.stored[|s.stored| + i], ws[i], now, s.drained)
      {
        if i == 0 {
          assert s'.stored[|s.stored|] == one.stored[|s.stored|];
        } else {
          assert ws[1..][i - 1] == ws[i];
          assert |one.stored| + (i - 1) == |s.stored| + i;
        }
      }
    }
  }

  /** Fire what is due.  An exception in an action ends the loop early; then only some of the
      due triggers have fired, and the step does not count as drained. */
  function Drain(s: Schedule, step: nat, now: int, complete: bool, some: set<nat>): Schedule {
    var due := set id | 0 <= id < |s.stored| && s.Pending(id) && s.stored[id].due <= now && (complete || id in some);
    s.(fired := s.fired + map id | id in due :: Firing(step, now),
       drained := if complete then step else s.drained)
  }

  /** Executing a trigger notes the current time in the history. */
  function Execute(s: Schedule, now: int, count: nat): Schedule {
    s.(history := s.history + seq(count, _ => now))
  }

  // ----- When a trigger fires -----

  function CeilDiv(a: int, w: int): int
    requires w > 0
  {
    (a + w - 1) / w
  }

  lemma CeilDivIs(a: int, w: int, k: int)
    requires w > 0
    ensures a <= k * w <==> CeilDiv(a, w) <= k
  {
    var q := CeilDiv(a, w);
    assert q * w - w < a <= q * w;
    if q <= k {
      TimesMonotone(q, k, w);
    } else {
      TimesMonotone(k, q - 1, w);
      assert (q - 1) * w == q * w - w;
    }
  }

  lemma TimesMonotone(a: int, b: int, w: int)
    requires a <= b && w > 0
    ensures a * w <= b * w
  {
    assert (b - a) * w >= 0;
  }

  /** The step a trigger fires in: the first one that reaches its time, but not one that was
      drained before the trigger was stored. */
  function FiringStep(t: Timed, width: int): (k: int)
    requires width > 0
    ensures k >= 1
  {
    if CeilDiv(t.due, width) > t.drainedAt then CeilDiv(t.due, width) else t.drainedAt + 1
  }

  ghost predicate Nondecreasing(xs: seq<int>) {
    forall i, j | 0 <= i <= j < |xs| :: xs[i] <= xs[j]
  }

  /** What a run keeps about its triggers, at simulation time `now`. */
  ghost predicate OnTime(s: Schedule, width: int, now: int)
    requires width > 0
  {
    && s.drained * width <= now
    && (forall i | 0 <= i < |s.stored| ::
          && AsAsked(s.stored[i])
          && s.stored[i].drainedAt <= s.drained && s.stored[i].drainedAt * width <= s.stored[i].since <= now)
    && (forall id | id in s.fired :: id < |s.stored|
          && s.fired[id].step == FiringStep(s.stored[id], width) && s.fired[id].time == s.fired[id].step * width)
    && (forall id: nat | s.Pending(id) :: s.drained < FiringStep(s.stored[id], width))
    && Nondecreasing(s.history) && (s.history != [] ==> s.history[|s.history| - 1] <= now)
  }

  lemma StoreOnTime(s: Schedule, w: When, width: int, now: int)
    requires width > 0 && OnTime(s, width, now)
    ensures OnTime(Store(s, w, now), width, now) && Store(s, w, now).fired == s.fired
    ensures Store(s, w, now).drained == s.drained && s.stored <= Store(s, w, now).stored
  {
    var s' := Store(s, w, now);
    assert forall id: nat | s'.Pending(id) && id < |s.stored| :: s.Pending(id);
  }

  lemma {:induction false} StoreAllOnTime(s: Schedule, ws: seq<When>, width: int, now: int)
    requires width > 0 && OnTime(s, width, now)
    ensures OnTime(StoreAll(s, ws, now), width, now) && StoreAll(s, ws, now).fired == s.fired
    ensures StoreAll(s, ws, now).drained == s.drained && s.stored <= StoreAll(s, ws, now).stored
    decreases |ws|
  {
    if ws != [] {
      StoreOnTime(s, ws[0], width, now);
      StoreAllOnTime(Store(s, ws[0], now), ws[1..], width, now);
    }
  }

  lemma DrainOnTime(s: Schedule, step: nat, width: int, complete: bool, some: set<nat>)
    requires width > 0 && OnTime(s, width, step * width) && s.drained + 1 == step
    ensures OnTime(Drain(s, step, step * width, complete, some), width, step * width)
  {
    var s' := Drain(s, step, step * width, complete, some);
    forall id | id in s'.fired
      ensures id < |s'.stored| && s'.fired[id].step == FiringStep(s'.stored[id], width)
           && s'.fired[id].time == s'.fired[id].step * width
    {
      if id !in s.fired {
        assert s.Pending(id);
        CeilDivIs(s.stored[id].due, width, step);
      }
    }
    forall id: nat | s'.Pending(id) ensures s'.drained < FiringStep(s'.stored[id], width) {
      assert s.Pending(id);
      CeilDivIs(s.stored[id].due, width, step);
    }
  }

  lemma ExecuteOnTime(s: Schedule, width: int, now: int, count: nat)
    requires width > 0 && OnTime(s, width, now)
    ensures OnTime(Execute(s, now, count), width, now)
  {
    var s' := Execute(s, now, count);
    assert forall id: nat | s'.Pending(id) :: s.Pending(id);
  }

  lemma LaterOnTime(s: Schedule, width: int, now: int, later: int)
    requires width > 0 && OnTime(s, width, now) && now <= later
    ensures OnTime(s, width, later)
  {
  }

  /** A trigger for time `due` fires, if at all, in the step that first reaches its time, never
      early and less than one step width late; and once that step's queue was drained, it has
      fired. */
  predicate FiresFor(s: Schedule, width: int, id: nat, due: int)
    requires width > 0
  {
    && (id in s.fired ==>
          && s.fired[id].step == CeilDiv(due, width) && s.fired[id].time == CeilDiv(due, width) * width
          && due <= s.fired[id].time < due + width)
    && (s.drained >= CeilDiv(due, width) ==> id in s.fired)
  }

  /** What being on time means for a trigger stored before its time, or with an offset to come. */
  lemma OnTimeMeans(s: Schedule, width: int, now: int, id: nat)
    requires width > 0 && OnTime(s, width, now) && id < |s.stored|
    ensures match s.stored[id].asked
      case AtTime(time) => s.stored[id].since < time ==> FiresFor(s, width, id, time)
      case InTime(offset) => 0 < offset ==> FiresFor(s, width, id, s.stored[id].since + offset)
  {
    var t := s.stored[id];
    CeilDivIs(t.due, width, t.drainedAt);
    CeilDivBounds(t.due, width);
    if id !in s.fired {
      assert s.Pending(id);
    }
  }

  /** The first multiple that reaches `a` is less than one width past it. */
  lemma CeilDivBounds(a: int, w: int)
    requires w > 0
    ensures a <= CeilDiv(a, w) * w < a + w
  {
    var q, r := CeilDiv(a, w), (a + w - 1) % w;
    assert a + w - 1 == q * w + r;
  }
}

/**
 The queue of timed triggers (TimeCallback in engine/src/simulation_events.hpp) and the input
 queue that feeds it (engine/src/coordinator.cpp), against the bookkeeping of `Schedule`.

 The priority queue promises no more than that its top is a trigger of least time; the order of
 equal times is left open.  Actions may insert triggers while the queue is being drained.
 */
module Triggers {
  import opened Prelude
  import opened Schedule

  datatype TimeTrigger = TimeTrigger(id: nat, time: int)

  /** What the action of the trigger fired last inserts, given all that fired in this drain. */
  type Actions = seq<TimeTrigger> -> seq<When>

  function Insertions(fired: seq<TimeTrigger>, actions: Actions): seq<When> {
    if fired == [] then [] else Insertions(fired[..|fired| - 1], actions) + actions(fired)
  }

  /** The schedule once the triggers `fired` have inserted what they do. */
  function During(s: Schedule, now: int, actions: Actions, fired: seq<TimeTrigger>): Schedule {
    StoreAll(s, Insertions(fired, actions), now)
  }

  predicate Fired(fired: seq<TimeTrigger>, id: nat) {
    exists i | 0 <= i < |fired| :: fired[i].id == id
  }

  /** `t` waits in the queue of the schedule `s`, and has not been taken out yet. */
  predicate Waits(s: Schedule, fired: seq<TimeTrigger>, t: TimeTrigger) {
    s.Pending(t.id) && s.stored[t.id].due == t.time && !Fired(fired, t.id)
  }

  /** Draining the queue at `now` may fire `fired`: each one is due and has the least time of
      those that wait when it is taken out. */
  ghost predicate CanFire(s: Schedule, now: int, actions: Actions, fired: seq<TimeTrigger>) {
    fired != [] ==>
      var front, t := fired[..|fired| - 1], fired[|fired| - 1];
      var d := During(s, now, actions, front);
      && CanFire(s, now, actions, front)
      && t.time <= now && Waits(d, front, t)
      && forall u | Waits(d, front, u) :: t.time <= u.time
  }

  // ----- The queue and the bookkeeping -----

  /** `storage` holds what waits, each trigger once. */
  ghost predicate Holds(storage: multiset<TimeTrigger>, s: Schedule, fired: seq<TimeTrigger>) {
    && (forall id | id in s.fired :: id < |s.stored|)
    && forall t :: storage[t] == if Waits(s, fired, t) then 1 else 0
  }

  /** What was taken out so far was pending and due. */
  predicate Taken(s: Schedule, fired: seq<TimeTrigger>, now: int) {
    forall i | 0 <= i < |fired| ::
      s.Pending(fired[i].id) && s.stored[fired[i].id].due == fired[i].time && fired[i].time <= now
  }

  lemma {:induction false} StoreAllConcat(s: Schedule, a: seq<When>, b: seq<When>, now: int)
    ensures StoreAll(s, a + b, now) == StoreAll(StoreAll(s, a, now), b, now)
    decreases |a|
  {
    if a == [] {
      assert a + b == b;
    } else {
      assert (a + b)[1..] == a[1..] + b;
      StoreAllConcat(Store(s, a[0], now), a[1..], b, now);
    }
  }

  lemma DuringNext(s: Schedule, now: int, actions: Actions, fired: seq<TimeTrigger>, t: TimeTrigger)
    ensures During(s, now, actions, fired + [t])
         == StoreAll(During(s, now, actions, fired), actions(fired + [t]), now)
  {
    assert (fired + [t])[..|fired|] == fired;
    StoreAllConcat(s, Insertions(fired, actions), actions(fired + [t]), now);
  }

  lemma StoreHolds(storage: multiset<TimeTrigger>, s: Schedule, fired: seq<TimeTrigger>, w: When, now: int)
    requires Holds(storage, s, fired) && Taken(s, fired, now)
    ensures var s' := Store(s, w, now);
            var t' := TimeTrigger(|s.stored|, s'.stored[|s.stored|].due);
            Holds(storage + multiset{t'}, s', fired)
    ensures Taken(Store(s, w, now), fired, now)
  {
    var s' := Store(s, w, now);
    var t' := TimeTrigger(|s.stored|, s'.stored[|s.stored|].due);
    forall t ensures (storage + multiset{t'})[t] == if Waits(s', fired, t) then 1 else 0 {
      assert storage[t] == if Waits(s, fired, t) then 1 else 0;
      if t.id < |s.stored| {
        assert Waits(s', fired, t) == Waits(s, fired, t);
      } else {
        assert !Waits(s, fired, t);
        assert Waits(s', fired, t) <==> t == t';
      }
    }
  }

  lemma {:induction false} LeastOf(storage: multiset<TimeTrigger>) returns (least: TimeTrigger)
    requires storage != multiset{}
    ensures least in storage && forall u | u in storage :: least.time <= u.time
    decreases |storage|
  {
    least :| least in storage;
    var rest := storage - multiset{least};
    if rest != multiset{} {
      var r := LeastOf(rest);
      forall u | u in storage ensures u == least || u in rest {
        assert u != least ==> rest[u] == storage[u];
      }
      least := if least.time <= r.time then least else r;
    } else {
      forall u | u in storage ensures u == least {
        assert u != least ==> rest[u] == storage[u];
      }
    }
  }

  /** Taking out a due trigger of least time continues the drain. */
  lemma TakeOut(s: Schedule, storage: multiset<TimeTrigger>, d: Schedule, fired: seq<TimeTrigger>, t: TimeTrigger,
                now: int, actions: Actions)
    requires Holds(storage, d, fired) && Taken(d, fired, now)
    requires d == During(s, now, actions, fired) && CanFire(s, now, actions, fired)
    requires t in storage && t.time <= now && forall u | u in storage :: t.time <= u.time
    ensures Holds(storage - multiset{t}, d, fired + [t]) && Taken(d, fired + [t], now)
    ensures CanFire(s, now, actions, fired + [t])
    ensures During(s, now, actions, fired + [t]) == StoreAll(d, actions(fired + [t]), now)
  {
    var more := fired + [t];
    assert more[..|fired|] == fired;
    DuringNext(s, now, actions, fired, t);
    assert Waits(d, fired, t);
    forall u | Waits(d, fired, u) ensures t.time <= u.time {
      assert storage[u] == 1;
    }
    forall u ensures (storage - multiset{t})[u] == if Waits(d, more, u) then 1 else 0 {
      assert storage[u] == if Waits(d, fired, u) then 1 else 0;
      assert Fired(more, u.id) <==> Fired(fired, u.id) || u.id == t.id by {
        assert more[|fired|] == t;
        assert forall i | 0 <= i < |fired| :: more[i] == fired[i];
      }
    }
  }

  /** Whether the action of the trigger fired last throws; what it has inserted before is inserted. */
  type Throws = seq<TimeTrigger> -> bool

  ghost predicate NoneThrewBefore(throws: Throws, fired: seq<TimeTrigger>) {
    forall i | 0 < i < |fired| :: !throws(fired[..i])
  }

  lemma OneMoreQuiet(throws: Throws, before: seq<TimeTrigger>, fired: seq<TimeTrigger>)
    requires NoneThrewBefore(throws, before) && |fired| == |before| + 1 && fired[..|before|] == before
    requires before == [] || !throws(before)
    ensures NoneThrewBefore(throws, fired)
  {
    assert forall i | 0 < i < |before| :: fired[..i] == before[..i];
  }

  ghost predicate NothingDue(s: Schedule, fired: seq<TimeTrigger>, now: int) {
    forall t | Waits(s, fired, t) :: t.time > now
  }

  function Ids(fired: seq<TimeTrigger>): set<nat> { set i | 0 <= i < |fired| :: fired[i].id }

  /** When nothing due waits any more, the queue is that of the drained schedule; before that, it is
      that of the schedule in which only the triggers taken out have fired. */
  lemma DrainHolds(storage: multiset<TimeTrigger>, s: Schedule, fired: seq<TimeTrigger>, step: nat, now: int, complete: bool)
    requires Holds(storage, s, fired) && Taken(s, fired, now)
    requires complete ==> NothingDue(s, fired, now)
    ensures Holds(storage, Drain(s, step, now, complete, Ids(fired)), [])
  {
    var s' := Drain(s, step, now, complete, Ids(fired));
    forall t ensures Waits(s', [], t) == Waits(s, fired, t) {
      assert Fired(fired, t.id) <==> t.id in Ids(fired);
      if s.Pending(t.id) && s.stored[t.id].due == t.time && Fired(fired, t.id) {
        assert t.time <= now;
      }
    }
  }

  // ----- The program -----

  class TimeCallback {
    var storage: multiset<TimeTrigger>
    var count: nat
    ghost var schedule: Schedule

    /** The queue holds each pending trigger of the schedule once. */
    ghost predicate Valid()
      reads this
    {
      count == |schedule.stored| && Holds(storage, schedule, []) && AllAsAsked(schedule)
    }

    /** In the midst of a drain that has taken out `fired`. */
    ghost predicate Draining(fired: seq<TimeTrigger>, now: int)
      reads this
    {
      && count == |schedule.stored| && Holds(storage, schedule, fired) && Taken(schedule, fired, now)
      && AllAsAsked(schedule)
    }

    constructor ()
      ensures Valid() && schedule == EMPTY
    {
      storage, count, schedule := multiset{}, 0, EMPTY;
    }

    method Emplace(w: When, now: int, ghost fired: seq<TimeTrigger>)
      requires Draining(fired, now)
      modifies this
      ensures Draining(fired, now)
      ensures schedule == Store(old(schedule), w, now)
      ensures storage == old(storage)
        + multiset{TimeTrigger(|old(schedule.stored)|, match w case AtTime(t) => t case InTime(offset) => now + offset)}
    {
      var due := match w case AtTime(t) => t case InTime(offset) => offset + now;
      StoreHolds(storage, schedule, fired, w, now);
      storage := storage + multiset{TimeTrigger(count, due)};
      count := count + 1;
      schedule := Store(schedule, w, now);
    }

    method EmplaceAll(ws: seq<When>, now: int, ghost fired: seq<TimeTrigger>)
      requires Draining(fired, now)
      modifies this
      ensures Draining(fired, now)
      ensures schedule == StoreAll(old(schedule), ws, now)
    {
      var rest := ws;
      while rest != []
        invariant Draining(fired, now)
        invariant StoreAll(schedule, rest, now) == StoreAll(old(schedule), ws, now)
        decreases |rest|
      {
        Emplace(rest[0], now, fired);
        rest := rest[1..];
      }
    }

    method Top() returns (t: TimeTrigger)
      requires storage != multiset{}
      ensures t in storage && forall u | u in storage :: t.time <= u.time
    {
      ghost var least := LeastOf(storage);
      t :| t in storage && forall u | u in storage :: t.time <= u.time;
    }

    /** Where a drain of the schedule `s` is that has taken out `fired`. */
    ghost predicate Midway(s: Schedule, now: int, actions: Actions, fired: seq<TimeTrigger>)
      reads this
    {
      Draining(fired, now) && schedule == During(s, now, actions, fired) && CanFire(s, now, actions, fired)
    }

    /** Take out a trigger of least time and execute it, if it is due. */
    method FireNext(ghost s: Schedule, now: int, actions: Actions, start: seq<TimeTrigger>)
        returns (fired: seq<TimeTrigger>)
      requires storage != multiset{} && Midway(s, now, actions, start)
      modifies this
      ensures Midway(s, now, actions, fired)
      ensures if fired == start then NothingDue(schedule, start, now) && schedule == old(schedule)
              else |fired| == |start| + 1 && fired[..|start|] == start
    {
      var t := Top();
      if t.time > now {
        return start;
      }
      TakeOut(s, storage, schedule, start, t, now, actions);
      storage := storage - multiset{t};
      fired := start + [t];
      EmplaceAll(actions(fired), now, fired);
    }

    /** Drain the queue.  The loop ends if the drain cannot go on for more than `limit` rounds, or
        with the first action that throws.  Without that it has fired all that was or became due,
        and the queue is that of the drained schedule; otherwise it has fired some of that. */
    method Trigger(now: int, ghost step: nat, actions: Actions, throws: Throws, ghost limit: nat)
        returns (fired: seq<TimeTrigger>, threw: bool)
      requires Valid()
      requires forall f | CanFire(schedule, now, actions, f) && NoneThrewBefore(throws, f) :: |f| <= limit
      modifies this
      ensures Valid()
      ensures CanFire(old(schedule), now, actions, fired) && NoneThrewBefore(throws, fired)
      ensures threw <==> fired != [] && throws(fired)
      ensures !threw ==> NothingDue(During(old(schedule), now, actions, fired), fired, now)
      ensures schedule == Drain(During(old(schedule), now, actions, fired), step, now, !threw, Ids(fired))
    {
      fired, threw := [], false;
      ghost var s := schedule;
      var going := true;
      while storage != multiset{} && going && !threw
        invariant Midway(s, now, actions, fired)
        invariant NoneThrewBefore(throws, fired) && (threw <==> fired != [] && throws(fired))
        invariant !going ==> !threw && NothingDue(schedule, fired, now)
        decreases limit - |fired|, going
      {
        var before := fired;
        fired := FireNext(s, now, actions, fired);
        if fired == before {
          going := false;
        } else {
          OneMoreQuiet(throws, before, fired);
          threw := throws(fired);
        }
      }
      DrainHolds(storage, schedule, fired, step, now, !threw);
      schedule := Drain(schedule, step, now, !threw, Ids(fired));
    }
  }

  /** The input queue of the coordinator, which other threads append to. */
  class Coordinator {
    const callback: TimeCallback
    var inputQueue: seq<When>

    constructor ()
      ensures fresh(callback) && callback.Valid() && callback.schedule == EMPTY && inputQueue == []
    {
      callback := new TimeCallback();
      inputQueue := [];
    }

    method QueueTrigger(w: Option<When>)
      modifies this
      ensures inputQueue == old(inputQueue) + if w.Some? then [w.value] else []
    {
      if w.Some? {
        inputQueue := inputQueue + [w.value];
      }
    }

    /** First come, first served, and nothing is lost. */
    method ProcessPendingWebTriggers(now: int) returns (processed: nat)
      requires callback.Valid()
      modifies this, callback
      ensures callback.Valid() && inputQueue == [] && processed == |old(inputQueue)|
      ensures callback.schedule == StoreAll(old(callback.schedule), old(inputQueue), now)
    {
      processed := 0;
      while inputQueue != []
        invariant callback.Valid() && processed + |inputQueue| == |old(inputQueue)|
        invariant StoreAll(callback.schedule, inputQueue, now)
               == StoreAll(old(callback.schedule), old(inputQueue), now)
        decreases |inputQueue|
      {
        callback.Emplace(inputQueue[0], now, []);
        inputQueue := inputQueue[1..];
        processed := processed + 1;
      }
    }
  }

  // ----- What a drain fires -----

  /** Nothing that waits is lost by storing more. */
  lemma {:induction false} StoreAllKeepsWaiting(s: Schedule, ws: seq<When>, now: int, fired: seq<TimeTrigger>, t: TimeTrigger)
    requires t.id < |s.stored|
    ensures var s' := StoreAll(s, ws, now);
            s.stored <= s'.stored && s'.fired == s.fired && (Waits(s', fired, t) <==> Waits(s, fired, t))
    decreases |ws|
  {
    if ws != [] {
      var s1 := Store(s, ws[0], now);
      StoreAllKeepsWaiting(s1, ws[1..], now, fired, t);
    }
  }

  /** No trigger fires twice in a drain, and each was pending and due. */
  lemma {:induction false} FiresOnce(s: Schedule, now: int, actions: Actions, fired: seq<TimeTrigger>)
    requires CanFire(s, now, actions, fired)
    ensures forall i, j | 0 <= i < j < |fired| :: fired[i].id != fired[j].id
    ensures Taken(During(s, now, actions, fired), fired, now)
  {
    if fired != [] {
      var front, t := fired[..|fired| - 1], fired[|fired| - 1];
      FiresOnce(s, now, actions, front);
      assert fired == front + [t];
      DuringNext(s, now, actions, front, t);
      var d := During(s, now, actions, front);
      forall i | 0 <= i < |fired| ensures
        var d' := During(s, now, actions, fired);
        d'.Pending(fired[i].id) && d'.stored[fired[i].id].due == fired[i].time && fired[i].time <= now
      {
        StoreAllKeepsWaiting(d, actions(fired), now, [], fired[i]);
        assert !Fired([], fired[i].id);
        assert Waits(d, [], fired[i]);
      }
      forall i | 0 <= i < |front| ensures fired[i].id != t.id {
        assert fired[i] == front[i];
      }
    }
  }

  /** Actions that insert only what is due after now. */
  ghost predicate InsertLater(now: int, actions: Actions) {
    forall f, i {:trigger actions(f)[i]} :: 0 <= i < |actions(f)| ==>
      match actions(f)[i] case AtTime(t) => t > now case InTime(offset) => offset > 0
  }

  predicate AllLater(now: int, ws: seq<When>) {
    forall i | 0 <= i < |ws| ::
      match ws[i] case AtTime(t) => t > now case InTime(offset) => offset > 0
  }

  lemma {:induction false} InsertionsLater(now: int, actions: Actions, fired: seq<TimeTrigger>)
    requires InsertLater(now, actions)
    ensures AllLater(now, Insertions(fired, actions))
  {
    if fired != [] {
      InsertionsLater(now, actions, fired[..|fired| - 1]);
      assert forall i | 0 <= i < |actions(fired)| ::
        match actions(fired)[i] case AtTime(t) => t > now case InTime(offset) => offset > 0;
    }
  }

  lemma {:induction false} StoredLater(s: Schedule, ws: seq<When>, now: int)
    requires AllLater(now, ws)
    ensures var s' := StoreAll(s, ws, now);
            && s'.fired == s.fired && s.stored <= s'.stored && |s'.stored| == |s.stored| + |ws|
            && forall id | |s.stored| <= id < |s'.stored| :: s'.stored[id].due > now
    decreases |ws|
  {
    if ws != [] {
      assert forall i | 0 <= i < |ws[1..]| :: ws[1..][i] == ws[i + 1];
      StoredLater(Store(s, ws[0], now), ws[1..], now);
    }
  }

  /** What is due by now was there before anything was inserted. */
  lemma DueIsOld(s: Schedule, now: int, actions: Actions, fired: seq<TimeTrigger>, t: TimeTrigger)
    requires InsertLater(now, actions) && Waits(During(s, now, actions, fired), fired, t) && t.time <= now
    ensures Waits(s, [], t)
  {
    InsertionsLater(now, actions, fired);
    StoredLater(s, Insertions(fired, actions), now);
  }

  /** If nothing inserted becomes due, only triggers of the queue at the start fire. */
  lemma {:induction false} FiresOnlyOld(s: Schedule, now: int, actions: Actions, fired: seq<TimeTrigger>)
    requires InsertLater(now, actions) && CanFire(s, now, actions, fired)
    ensures forall i | 0 <= i < |fired| :: Waits(s, [], fired[i]) && fired[i].time <= now
  {
    if fired != [] {
      var front, t := fired[..|fired| - 1], fired[|fired| - 1];
      FiresOnlyOld(s, now, actions, front);
      DueIsOld(s, now, actions, front, t);
      assert forall i | 0 <= i < |front| :: fired[i] == front[i];
    }
  }

  /** Then the drain ends: it cannot go on for longer than there are triggers. */
  lemma DrainEnds(s: Schedule, now: int, actions: Actions, fired: seq<TimeTrigger>)
    requires InsertLater(now, actions) && CanFire(s, now, actions, fired)
    ensures |fired| <= |s.stored|
  {
    FiresOnce(s, now, actions, fired);
    FiresOnlyOld(s, now, actions, fired);
    var ids := seq(|fired|, i requires 0 <= i < |fired| => fired[i].id);
    DistinctBelow(ids, |s.stored|);
  }

  lemma {:induction false} DistinctBelow(ids: seq<nat>, n: nat)
    requires forall i, j | 0 <= i < j < |ids| :: ids[i] != ids[j]
    requires forall i | 0 <= i < |ids| :: ids[i] < n
    ensures |ids| <= n
    decreases n
  {
    if ids != [] {
      assert ids[0] < n;
      if k :| 0 <= k < |ids| && ids[k] == n - 1 {
        var rest := ids[..k] + ids[k + 1..];
        assert forall i | 0 <= i < |rest| :: rest[i] == if i < k then ids[i] else ids[i + 1];
        DistinctBelow(rest, n - 1);
      } else {
        DistinctBelow(ids, n - 1);
      }
    }
  }

  /** Then the triggers fire in order of time. */
  lemma {:induction false} FiresInOrder(s: Schedule, now: int, actions: Actions, fired: seq<TimeTrigger>)
    requires InsertLater(now, actions) && CanFire(s, now, actions, fired)
    ensures forall i, j | 0 <= i <= j < |fired| :: fired[i].time <= fired[j].time
  {
    if |fired| > 1 {
      var front, t := fired[..|fired| - 1], fired[|fired| - 1];
      var front2, u := front[..|front| - 1], front[|front| - 1];
      FiresInOrder(s, now, actions, front);
      FiresOnlyOld(s, now, actions, fired);
      var d2 := During(s, now, actions, front2);
      StoreAllKeepsWaiting(s, Insertions(front2, actions), now, [], t);
      FiresOnce(s, now, actions, fired);
      assert forall i | 0 <= i < |front2| :: front2[i] == fired[i];
      assert Waits(d2, front2, t);
      assert u.time <= t.time;
      assert forall i | 0 <= i < |front| :: fired[i] == front[i];
    }
  }

  /** What was asked for is due. */
  predicate DueBy(t: Timed, now: int) {
    match t.asked
    case AtTime(time) => time <= now
    case InTime(offset) => t.since + offset <= now
  }

  /** A drain that has come to its end has fired exactly the pending triggers that were asked for
      by now, each once. */
  lemma FiresExactlyTheDue(s: Schedule, now: int, actions: Actions, fired: seq<TimeTrigger>, t: TimeTrigger)
    requires InsertLater(now, actions) && CanFire(s, now, actions, fired) && AllAsAsked(s)
    requires NothingDue(During(s, now, actions, fired), fired, now)
    ensures multiset(fired)[t] == if Waits(s, [], t) && DueBy(s.stored[t.id], now) then 1 else 0
  {
    var d := During(s, now, actions, fired);
    InsertionsLater(now, actions, fired);
    StoredLater(s, Insertions(fired, actions), now);
    FiresOnlyOld(s, now, actions, fired);
    FiresOnce(s, now, actions, fired);
    FiredCount(fired, t);
    if Waits(s, [], t) {
      assert AsAsked(s.stored[t.id]);
      if t.time <= now {
        assert !Waits(d, fired, t);
        var i :| 0 <= i < |fired| && fired[i].id == t.id;
        assert fired[i] == t;
      }
    }
  }

  /** So of a pending trigger: it fires in the drain if and only if it was asked for by now. */
  lemma FiresIffDue(s: Schedule, now: int, actions: Actions, fired: seq<TimeTrigger>, id: nat)
    requires InsertLater(now, actions) && CanFire(s, now, actions, fired) && AllAsAsked(s)
    requires NothingDue(During(s, now, actions, fired), fired, now)
    requires s.Pending(id)
    ensures Fired(fired, id) <==> DueBy(s.stored[id], now)
  {
    var t := TimeTrigger(id, s.stored[id].due);
    assert Waits(s, [], t);
    FiresExactlyTheDue(s, now, actions, fired, t);
    if Fired(fired, id) {
      var i :| 0 <= i < |fired| && fired[i].id == id;
      FiresOnlyOld(s, now, actions, fired);
      assert fired[i] == t && t in multiset(fired);
    } else {
      assert t !in fired;
      assert t !in multiset(fired);
    }
  }

  /** It leaves the others, and the inserted ones. */
  lemma LeavesTheRest(s: Schedule, now: int, step: nat, actions: Actions, fired: seq<TimeTrigger>, t: TimeTrigger)
    requires InsertLater(now, actions) && CanFire(s, now, actions, fired)
    ensures var inserted := Insertions(fired, actions);
      var s' := Drain(During(s, now, actions, fired), step, now, true, Ids(fired));
      && |s'.stored| == |s.stored| + |inserted|
      && (Waits(s', [], t) <==>
            || (Waits(s, [], t) && t.time > now)
            || (|s.stored| <= t.id < |s'.stored| && t.id !in s.fired && s'.stored[t.id].due == t.time))
  {
    InsertionsLater(now, actions, fired);
    StoredLater(s, Insertions(fired, actions), now);
  }

  lemma FiredCount(fired: seq<TimeTrigger>, t: TimeTrigger)
    requires forall i, j | 0 <= i < j < |fired| :: fired[i].id != fired[j].id
    ensures multiset(fired)[t] == if t in fired then 1 else 0
  {
    if i :| 0 <= i < |fired| && fired[i] == t {
      assert fired == fired[..i] + [t] + fired[i + 1..];
      assert t !in fired[..i] && t !in fired[i + 1..];
      assert multiset(fired) == multiset(fired[..i]) + multiset{t} + multiset(fired[i + 1..]);
    }
  }

  // ----- An action that is due at once -----

  /** Without that restriction a drain need not end: an action that inserts a trigger that is
      already due keeps the queue busy for as long as one likes. */
  lemma {:induction false} DrainMayNotEnd(s: Schedule, now: int, actions: Actions, n: nat) returns (fired: seq<TimeTrigger>)
    requires forall f :: actions(f) == [InTime(0)]
    requires exists t :: Waits(s, [], t) && t.time <= now
    requires forall id | id in s.fired :: id < |s.stored|
    ensures |fired| == n && CanFire(s, now, actions, fired)
    ensures exists t :: Waits(During(s, now, actions, fired), fired, t) && t.time <= now
  {
    fired := [];
    if n > 0 {
      var front := DrainMayNotEnd(s, now, actions, n - 1);
      fired := DrainGoesOn(s, now, actions, front);
    }
  }

  lemma DrainGoesOn(s: Schedule, now: int, actions: Actions, front: seq<TimeTrigger>) returns (fired: seq<TimeTrigger>)
    requires forall f :: actions(f) == [InTime(0)]
    requires CanFire(s, now, actions, front)
    requires exists t :: Waits(During(s, now, actions, front), front, t) && t.time <= now
    requires forall id | id in s.fired :: id < |s.stored|
    ensures |fired| == |front| + 1 && CanFire(s, now, actions, fired)
    ensures exists t :: Waits(During(s, now, actions, fired), fired, t) && t.time <= now
  {
    var d := During(s, now, actions, front);
    var t := LeastWaiting(d, front, now);
    fired := front + [t];
    assert fired[..|fired| - 1] == front && fired[|fired| - 1] == t;
    FiresOnce(s, now, actions, front);
    StoreAllFired(s, Insertions(front, actions), now);
    DuringNext(s, now, actions, front, t);
    StoreAllOne(d, InTime(0), now);
    assert actions(fired) == [InTime(0)];
    NewOneWaits(d, front, t, now);
  }

  /** What is stored anew is waiting. */
  lemma NewOneWaits(d: Schedule, front: seq<TimeTrigger>, t: TimeTrigger, now: int)
    requires Taken(d, front, now) && t.id < |d.stored| && forall id | id in d.fired :: id < |d.stored|
    ensures Waits(Store(d, InTime(0), now), front + [t], TimeTrigger(|d.stored|, now))
  {
    var fired := front + [t];
    forall i | 0 <= i < |fired| ensures fired[i].id != |d.stored| {
      if i < |front| {
        assert d.Pending(front[i].id);
      }
    }
  }

  lemma StoreAllOne(s: Schedule, w: When, now: int)
    ensures StoreAll(s, [w], now) == Store(s, w, now)
  {
    assert StoreAll(s, [w], now) == StoreAll(Store(s, w, now), [], now);
  }

  lemma {:induction false} StoreAllFired(s: Schedule, ws: seq<When>, now: int)
    ensures StoreAll(s, ws, now).fired == s.fired && |StoreAll(s, ws, now).stored| == |s.stored| + |ws|
    decreases |ws|
  {
    if ws != [] {
      StoreAllFired(Store(s, ws[0], now), ws[1..], now);
    }
  }

  lemma LeastWaiting(s: Schedule, fired: seq<TimeTrigger>, now: int) returns (t: TimeTrigger)
    requires exists u :: Waits(s, fired, u) && u.time <= now
    ensures Waits(s, fired, t) && t.time <= now && forall u | Waits(s, fired, u) :: t.time <= u.time
  {
    var u :| Waits(s, fired, u) && u.time <= now;
    t := LeastBelow(s, fired, |s.stored|, u);
  }

  lemma {:induction false} LeastBelow(s: Schedule, fired: seq<TimeTrigger>, n: nat, u: TimeTrigger) returns (t: TimeTrigger)
    requires Waits(s, fired, u)
    ensures Waits(s, fired, t) && t.time <= u.time && forall v | Waits(s, fired, v) && v.id < n :: t.time <= v.time
  {
    if n == 0 {
      t := u;
    } else {
      t := LeastBelow(s, fired, n - 1, u);
      if v :| Waits(s, fired, v) && v.id == n - 1 && v.time < t.time {
        t := v;
      }
    }
  }
}

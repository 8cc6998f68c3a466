/**
 Stepping the controllers (engine/src/simulation_state_step_controllers.cpp): each one is called
 until it has caught up with the simulation, controllers that fail are erased afterwards, and
 the first one that asks for it diverts the simulation.
 */
module Controllers {
  import opened Prelude
  import opened Machine

  /** What a call of a controller's `process` does: it returns the time it has reached, or throws. */
  datatype Reply = At(time: int) | Resets | Stops | Aborts | Fails | AbortsAsync | Fatally

  /** A controller is foreign code: `replies` is a table of what its n-th call does, with a fatal
      exception where it says nothing. */
  datatype Controller = Controller(name: string, hasVehicle: bool, replies: imap<nat, Reply>, calls: nat)

  function ReplyOf(c: Controller, n: nat): Reply { if n in c.replies then c.replies[n] else Fatally }

  datatype Slot = Slot(key: string, controller: Controller)

  // ----- One controller -----

  predicate Behind(r: Reply, now: int) { r.At? && r.time < now }

  /** After the k-th retry the controller is still behind. */
  predicate Late(c: Controller, now: int, k: nat) { Behind(ReplyOf(c, c.calls + k), now) }

  /** The loop ends with the k-th retry. */
  ghost predicate LastTry(c: Controller, now: int, limit: int, k: nat) {
    && (forall i: nat | i < k :: Late(c, now, i) && i != limit)
    && (Late(c, now, k) ==> k == limit)
  }

  ghost predicate Ends(c: Controller, now: int, limit: int) {
    exists k: nat :: LastTry(c, now, limit, k)
  }

  /** The loop ends unless the limit is negative and the controller stays behind for ever. */
  lemma EndsIff(c: Controller, now: int, limit: int)
    ensures Ends(c, now, limit) <==> limit >= 0 || exists k: nat :: !Late(c, now, k)
  {
    if k: nat :| !Late(c, now, k) {
      EndsBy(c, now, limit, k, 0);
    }
    if limit >= 0 {
      EndsBy(c, now, limit, limit, 0);
    }
  }

  lemma {:induction false} EndsBy(c: Controller, now: int, limit: int, k: nat, i: nat)
    requires i <= k && (!Late(c, now, k) || k == limit)
    requires forall j: nat | j < i :: Late(c, now, j) && j != limit
    ensures exists j: nat :: j <= k && LastTry(c, now, limit, j)
    decreases k - i
  {
    if Late(c, now, i) && i != limit {
      EndsBy(c, now, limit, k, i + 1);
    } else {
      assert LastTry(c, now, limit, i);
    }
  }

  /** After how many retries the loop ends (0 if it does not). */
  ghost function Retries(c: Controller, now: int, limit: int): (k: nat)
    ensures Ends(c, now, limit) ==> LastTry(c, now, limit, k)
  {
    if Ends(c, now, limit) then
      var k: nat :| LastTry(c, now, limit, k);
      k
    else 0
  }

  ghost function Verdict(c: Controller, now: int, limit: int): Reply
  {
    var r := ReplyOf(c, c.calls + Retries(c, now, limit));
    if Behind(r, now) then Fails else r
  }

  ghost function Called(c: Controller, now: int, limit: int): Controller
  {
    c.(calls := c.calls + Retries(c, now, limit) + 1)
  }

  method Process(c: Controller, now: int, limit: int) returns (verdict: Reply, c': Controller)
    requires Ends(c, now, limit)
    ensures verdict == Verdict(c, now, limit) && c' == Called(c, now, limit)
  {
    var retries := 0;
    while true
      invariant 0 <= retries <= Retries(c, now, limit)
      decreases Retries(c, now, limit) - retries
    {
      assert Late(c, now, retries) == Behind(ReplyOf(c, c.calls + retries), now);
      verdict := ReplyOf(c, c.calls + retries);
      c' := c.(calls := c.calls + retries + 1);
      if !Behind(verdict, now) {
        return;
      }
      if retries == limit {
        return Fails, c';
      }
      retries := retries + 1;
    }
  }

  // ----- All controllers -----

  /** How the round over the controllers ends. */
  datatype End = Finished | Diverted(interrupt: StateId) | Broke(what: Thrown)

  datatype Visit = Visit(slots: seq<Slot>, failed: seq<string>, end: End)

  /** An interrupt is pushed; if another one is pending, that throws a fatal exception. */
  function Divert(i: StateId, busy: bool): End {
    if busy then Broke(Fatal) else Diverted(i)
  }

  ghost predicate AllEnd(slots: seq<Slot>, now: int, limit: int) {
    forall i | 0 <= i < |slots| :: slots[i].controller.hasVehicle ==> Ends(slots[i].controller, now, limit)
  }

  /** What the round makes of a controller: its new state, whether it is to be erased, and
      whether the round ends here. */
  datatype Handled = Handled(controller: Controller, failed: bool, end: End)

  ghost function Handle(c: Controller, now: int, limit: int, strict: bool, busy: bool): Handled
  {
    if !c.hasVehicle then Handled(c, false, Finished)
    else
      var c' := Called(c, now, limit);
      match Verdict(c, now, limit)
      case At(_) => Handled(c', false, Finished)
      case Resets => Handled(c', false, Divert(RESET, busy))
      case Stops => Handled(c', false, Divert(STOP, busy))
      case Aborts => Handled(c', false, Divert(ABORT, busy))
      case Fails => if strict then Handled(c', false, Divert(ABORT, busy)) else Handled(c', true, Finished)
      case AbortsAsync => Handled(c', false, Broke(AsyncAbort))
      case Fatally => Handled(c', false, Broke(Fatal))
  }

  function Names(h: Handled): seq<string> { if h.failed then [h.controller.name] else [] }

  function Before(slots: seq<Slot>, failed: seq<string>, v: Visit): Visit {
    Visit(slots + v.slots, failed + v.failed, v.end)
  }

  ghost function Visits(slots: seq<Slot>, now: int, limit: int, strict: bool, busy: bool): Visit
  {
    if slots == [] then Visit([], [], Finished)
    else
      var h := Handle(slots[0].controller, now, limit, strict, busy);
      var slot := slots[0].(controller := h.controller);
      if h.end != Finished then Visit([slot] + slots[1..], Names(h), h.end)
      else Before([slot], Names(h), Visits(slots[1..], now, limit, strict, busy))
  }

  function Without(slots: seq<Slot>, names: seq<string>): seq<Slot> {
    if slots == [] then []
    else (if slots[0].key in names then [] else [slots[0]]) + Without(slots[1..], names)
  }

  /** How the round goes on from `rest`, after `done`. */
  lemma VisitNext(done: seq<Slot>, failed: seq<string>, rest: seq<Slot>, now: int, limit: int, strict: bool, busy: bool)
    requires rest != []
    ensures var h := Handle(rest[0].controller, now, limit, strict, busy);
      var slot := rest[0].(controller := h.controller);
      Before(done, failed, Visits(rest, now, limit, strict, busy)) ==
        if h.end != Finished then Visit(done + [slot] + rest[1..], failed + Names(h), h.end)
        else Before(done + [slot], failed + Names(h), Visits(rest[1..], now, limit, strict, busy))
  {
    var h := Handle(rest[0].controller, now, limit, strict, busy);
    var slot := rest[0].(controller := h.controller);
    if h.end != Finished {
      assert done + ([slot] + rest[1..]) == done + [slot] + rest[1..];
    } else {
      BeforeBefore(done, failed, slot, Names(h), Visits(rest[1..], now, limit, strict, busy));
    }
  }

  lemma BeforeBefore(done: seq<Slot>, failed: seq<string>, slot: Slot, names: seq<string>, v: Visit)
    ensures Before(done, failed, Before([slot], names, v)) == Before(done + [slot], failed + names, v)
  {
    assert done + ([slot] + v.slots) == done + [slot] + v.slots;
    assert failed + (names + v.failed) == failed + names + v.failed;
  }

  class StepContext {
    const retryLimit: int
    const abortOnFailure: bool
    var slots: seq<Slot>
    var interrupt: Option<StateId>
    /** The controllers that were aborted and disconnected. */
    var disconnected: seq<string>

    constructor (retryLimit: int, abortOnFailure: bool, slots: seq<Slot>)
      ensures this.retryLimit == retryLimit && this.abortOnFailure == abortOnFailure && this.slots == slots
      ensures interrupt == None && disconnected == []
    {
      this.retryLimit, this.abortOnFailure, this.slots := retryLimit, abortOnFailure, slots;
      interrupt, disconnected := None, [];
    }

    method PushInterrupt(i: StateId) returns (accepted: bool)
      modifies this`interrupt
      ensures accepted == old(interrupt).None?
      ensures interrupt == if accepted then Some(i) else old(interrupt)
    {
      accepted := interrupt.None?;
      if accepted {
        interrupt := Some(i);
      }
    }

    /** Call one controller and handle what it throws. */
    method StepController(c: Controller, now: int) returns (h: Handled)
      requires c.hasVehicle ==> Ends(c, now, retryLimit)
      modifies this`interrupt, this`disconnected
      ensures h == Handle(c, now, retryLimit, abortOnFailure, old(interrupt).Some?)
      ensures interrupt == if h.end.Diverted? then Some(h.end.interrupt) else old(interrupt)
      ensures disconnected == old(disconnected) + Names(h)
    {
      if !c.hasVehicle {
        return Handled(c, false, Finished);
      }
      var verdict, c' := Process(c, now, retryLimit);
      var push := None;
      match verdict {
        case At(_) => return Handled(c', false, Finished);
        case Resets => push := Some(RESET);
        case Stops => push := Some(STOP);
        case Aborts => push := Some(ABORT);
        case Fails =>
          if !abortOnFailure {
            disconnected := disconnected + [c.name];
            return Handled(c', true, Finished);
          }
          push := Some(ABORT);
        case AbortsAsync => return Handled(c', false, Broke(AsyncAbort));
        case Fatally => return Handled(c', false, Broke(Fatal));
      }
      var accepted := PushInterrupt(push.value);
      return Handled(c', false, if accepted then Diverted(push.value) else Broke(Fatal));
    }

    /** `late` is an interrupt that another thread pushes during the round, if any does. */
    method StepControllers(now: int, late: Option<StateId>) returns (e: Ending)
      requires AllEnd(slots, now, retryLimit)
      modifies this
      ensures
        var busy := old(interrupt).Some? || late.Some?;
        var v := Visits(old(slots), now, retryLimit, abortOnFailure, busy);
        && disconnected == old(disconnected) + v.failed
        && slots == (if v.end.Broke? then v.slots else Without(v.slots, v.failed))
        && e == (if v.end.Broke? then Threw(v.end.what) else Returned(Some(STEP_END)))
        && interrupt == (if v.end.Diverted? then Some(v.end.interrupt)
                         else if old(interrupt).Some? then old(interrupt) else late)
    {
      if interrupt == None {
        interrupt := late;
      }
      var toErase, end := ForEachController(now);
      if end.Broke? {
        return Threw(end.what);
      }
      slots := Without(slots, toErase);
      return Returned(Some(STEP_END));
    }

    /** Step the i-th controller, where all before it let the round go on. */
    method StepSlot(i: nat, now: int, toErase: seq<string>, ghost all: Visit, ghost done: seq<Slot>, ghost rest: seq<Slot>)
        returns (names: seq<string>, end: End)
      requires i == |done| < |slots|
      requires Midway(all, slots, done, rest, toErase, Finished, now, retryLimit, abortOnFailure, interrupt.Some?)
      modifies this
      ensures |slots| == |old(slots)| && rest != []
      ensures Midway(all, slots, done + [slots[i]], rest[1..], toErase + names, end,
                     now, retryLimit, abortOnFailure, old(interrupt).Some?)
      ensures interrupt == if end.Diverted? then Some(end.interrupt) else old(interrupt)
      ensures disconnected == old(disconnected) + names
    {
      MidwayNext(all, slots, done, rest, toErase, now, retryLimit, abortOnFailure, interrupt.Some?);
      var h := StepController(slots[i].controller, now);
      slots := slots[i := slots[i].(controller := h.controller)];
      names, end := Names(h), h.end;
    }

    /** Step one controller after the other until one of them ends the round. */
    method ForEachController(now: int) returns (toErase: seq<string>, end: End)
      requires AllEnd(slots, now, retryLimit)
      modifies this
      ensures Visit(slots, toErase, end) == Visits(old(slots), now, retryLimit, abortOnFailure, old(interrupt).Some?)
      ensures disconnected == old(disconnected) + toErase
      ensures interrupt == if end.Diverted? then Some(end.interrupt) else old(interrupt)
    {
      ghost var all := Visits(slots, now, retryLimit, abortOnFailure, interrupt.Some?);
      ghost var done, rest := [], slots;
      toErase, end := [], Finished;
      var i := 0;
      MidwayStarts(all, slots, now, retryLimit, abortOnFailure, interrupt.Some?);
      while i < |slots| && end == Finished
        invariant i == |done| <= |slots|
        invariant Midway(all, slots, done, rest, toErase, end, now, retryLimit, abortOnFailure, old(interrupt).Some?)
        invariant disconnected == old(disconnected) + toErase
        invariant interrupt == if end.Diverted? then Some(end.interrupt) else old(interrupt)
        decreases |slots| - i
      {
        var names;
        names, end := StepSlot(i, now, toErase, all, done, rest);
        Regroup(old(disconnected), toErase, names);
        done, rest := done + [slots[i]], rest[1..];
        toErase := toErase + names;
        i := i + 1;
      }
      MidwayEnds(all, slots, done, rest, toErase, end, now, retryLimit, abortOnFailure, old(interrupt).Some?);
    }
  }

  /** Where a round is that has come past `done` and makes `all` of the controllers. */
  ghost predicate Midway(all: Visit, slots: seq<Slot>, done: seq<Slot>, rest: seq<Slot>, toErase: seq<string>, end: End,
                         now: int, limit: int, strict: bool, busy: bool)
  {
    && slots == done + rest && AllEnd(rest, now, limit)
    && all == if end != Finished then Visit(slots, toErase, end)
              else Before(done, toErase, Visits(rest, now, limit, strict, busy))
  }

  lemma Regroup(a: seq<string>, b: seq<string>, c: seq<string>)
    ensures a + b + c == a + (b + c)
  {
  }

  lemma MidwayStarts(all: Visit, slots: seq<Slot>, now: int, limit: int, strict: bool, busy: bool)
    requires AllEnd(slots, now, limit) && all == Visits(slots, now, limit, strict, busy)
    ensures Midway(all, slots, [], slots, [], Finished, now, limit, strict, busy)
  {
    assert [] + slots == slots && [] + all.slots == all.slots && [] + all.failed == all.failed;
  }

  lemma MidwayEnds(all: Visit, slots: seq<Slot>, done: seq<Slot>, rest: seq<Slot>, toErase: seq<string>, end: End,
                   now: int, limit: int, strict: bool, busy: bool)
    requires Midway(all, slots, done, rest, toErase, end, now, limit, strict, busy)
    requires end != Finished || |done| == |slots|
    ensures all == Visit(slots, toErase, end)
  {
    if end == Finished {
      assert rest == [];
      assert done + [] == done && toErase + [] == toErase;
    }
  }

  lemma MidwayNext(all: Visit, slots: seq<Slot>, done: seq<Slot>, rest: seq<Slot>, toErase: seq<string>,
                   now: int, limit: int, strict: bool, busy: bool)
    requires Midway(all, slots, done, rest, toErase, Finished, now, limit, strict, busy) && |done| < |slots|
    ensures rest != [] && slots[|done|] == rest[0]
    ensures rest[0].controller.hasVehicle ==> Ends(rest[0].controller, now, limit)
    ensures var h := Handle(rest[0].controller, now, limit, strict, busy);
      var slot := rest[0].(controller := h.controller);
      Midway(all, slots[|done| := slot], done + [slot], rest[1..], toErase + Names(h), h.end, now, limit, strict, busy)
  {
    AllEndRest(rest, now, limit);
    VisitNext(done, toErase, rest, now, limit, strict, busy);
    var h := Handle(rest[0].controller, now, limit, strict, busy);
    Put(done, rest, rest[0].(controller := h.controller));
  }

  lemma Put(done: seq<Slot>, rest: seq<Slot>, slot: Slot)
    requires rest != []
    ensures (done + rest)[|done| := slot] == done + [slot] + rest[1..]
  {
  }

  lemma AllEndRest(slots: seq<Slot>, now: int, limit: int)
    requires slots != [] && AllEnd(slots, now, limit)
    ensures AllEnd(slots[1..], now, limit)
    ensures slots[0].controller.hasVehicle ==> Ends(slots[0].controller, now, limit)
  {
    assert forall i | 0 <= i < |slots[1..]| :: slots[1..][i] == slots[i + 1];
  }

  // ----- What a round achieves -----

  /** A controller is called at least once and at most once more than the retry limit; every call but
      the last returns a time before now, and the last one does so only if the limit is used up.
      The last call is the verdict, and to be still behind is to fail. */
  lemma CallsAreBounded(c: Controller, now: int, limit: nat)
    ensures Ends(c, now, limit)
    ensures var n := Called(c, now, limit).calls - c.calls;
      && 1 <= n <= limit + 1
      && (forall j | c.calls <= j < c.calls + n - 1 :: ReplyOf(c, j).At? && ReplyOf(c, j).time < now)
      && var last := ReplyOf(c, c.calls + n - 1);
         if last.At? && last.time < now then n == limit + 1 && Verdict(c, now, limit) == Fails
         else Verdict(c, now, limit) == last
  {
    EndsIff(c, now, limit);
    var k := Retries(c, now, limit);
    assert k <= limit || Late(c, now, limit);
    forall j | c.calls <= j < c.calls + k ensures ReplyOf(c, j).At? && ReplyOf(c, j).time < now {
      assert Late(c, now, j - c.calls);
    }
    assert Late(c, now, k) == Behind(ReplyOf(c, c.calls + k), now);
  }

  /** The round comes to the i-th controller. */
  ghost predicate ComesTo(slots: seq<Slot>, now: int, limit: int, strict: bool, busy: bool, i: nat)
    requires i <= |slots|
  {
    forall j | 0 <= j < i :: Handle(slots[j].controller, now, limit, strict, busy).end == Finished
  }

  lemma ComesToRest(slots: seq<Slot>, now: int, limit: int, strict: bool, busy: bool, i: nat)
    requires 0 < i <= |slots|
    ensures ComesTo(slots, now, limit, strict, busy, i) <==>
      && Handle(slots[0].controller, now, limit, strict, busy).end == Finished
      && ComesTo(slots[1..], now, limit, strict, busy, i - 1)
  {
    if ComesTo(slots, now, limit, strict, busy, i) {
      forall j | 0 <= j < i - 1 ensures Handle(slots[1..][j].controller, now, limit, strict, busy).end == Finished {
        assert slots[1..][j] == slots[j + 1];
      }
    } else {
      var j :| 0 <= j < i && Handle(slots[j].controller, now, limit, strict, busy).end != Finished;
      if j > 0 {
        assert slots[1..][j - 1] == slots[j];
      }
    }
  }

  /** The controllers that the round comes to are handled, the others are left as they were. */
  lemma {:induction false} VisitsAt(slots: seq<Slot>, now: int, limit: int, strict: bool, busy: bool, i: nat)
    requires i < |slots|
    ensures var v := Visits(slots, now, limit, strict, busy);
      && |v.slots| == |slots|
      && v.slots[i] ==
           if ComesTo(slots, now, limit, strict, busy, i)
           then slots[i].(controller := Handle(slots[i].controller, now, limit, strict, busy).controller)
           else slots[i]
  {
    var h := Handle(slots[0].controller, now, limit, strict, busy);
    VisitsLength(slots, now, limit, strict, busy);
    if i > 0 {
      ComesToRest(slots, now, limit, strict, busy, i);
      if h.end == Finished {
        VisitsAt(slots[1..], now, limit, strict, busy, i - 1);
      }
    }
  }

  lemma {:induction false} VisitsLength(slots: seq<Slot>, now: int, limit: int, strict: bool, busy: bool)
    ensures |Visits(slots, now, limit, strict, busy).slots| == |slots|
  {
    if slots != [] && Handle(slots[0].controller, now, limit, strict, busy).end == Finished {
      VisitsLength(slots[1..], now, limit, strict, busy);
    }
  }

  /** The round ends as the first controller that does not let it go on says. */
  lemma {:induction false} VisitsEnd(slots: seq<Slot>, now: int, limit: int, strict: bool, busy: bool, i: nat)
    requires i <= |slots| && ComesTo(slots, now, limit, strict, busy, i)
    ensures i == |slots| ==> Visits(slots, now, limit, strict, busy).end == Finished
    ensures i < |slots| ==>
      var end := Handle(slots[i].controller, now, limit, strict, busy).end;
      end != Finished ==> Visits(slots, now, limit, strict, busy).end == end
  {
    if slots != [] {
      if i > 0 {
        ComesToRest(slots, now, limit, strict, busy, i);
        VisitsEnd(slots[1..], now, limit, strict, busy, i - 1);
      }
    }
  }

  /** Exactly those are to be erased that the round came to and that failed. */
  lemma {:induction false} VisitsFailed(slots: seq<Slot>, now: int, limit: int, strict: bool, busy: bool, name: string)
    ensures name in Visits(slots, now, limit, strict, busy).failed <==>
      exists i | 0 <= i < |slots| :: Fell(slots, now, limit, strict, busy, i, name)
  {
    if slots != [] {
      var h := Handle(slots[0].controller, now, limit, strict, busy);
      assert Fell(slots, now, limit, strict, busy, 0, name) <==> name in Names(h);
      VisitsFailed(slots[1..], now, limit, strict, busy, name);
      forall i | 0 < i < |slots|
        ensures Fell(slots, now, limit, strict, busy, i, name) <==>
          h.end == Finished && Fell(slots[1..], now, limit, strict, busy, i - 1, name)
      {
        ComesToRest(slots, now, limit, strict, busy, i);
      }
      if h.end == Finished && name in Visits(slots[1..], now, limit, strict, busy).failed {
        var i :| 0 <= i < |slots[1..]| && Fell(slots[1..], now, limit, strict, busy, i, name);
        assert Fell(slots, now, limit, strict, busy, i + 1, name);
      }
    }
  }

  ghost predicate Fell(slots: seq<Slot>, now: int, limit: int, strict: bool, busy: bool, i: nat, name: string)
    requires i < |slots|
  {
    && ComesTo(slots, now, limit, strict, busy, i)
    && Handle(slots[i].controller, now, limit, strict, busy).failed && slots[i].controller.name == name
  }

  lemma {:induction false} WithoutMembers(slots: seq<Slot>, names: seq<string>, s: Slot)
    ensures s in Without(slots, names) <==> s in slots && s.key !in names
  {
    if slots != [] {
      WithoutMembers(slots[1..], names, s);
    }
  }

  lemma SlotsAssociate(a: seq<Slot>, b: seq<Slot>, c: seq<Slot>)
    ensures a + b + c == a + (b + c)
  {
  }

  function Kept(s: Slot, names: seq<string>): seq<Slot> { if s.key in names then [] else [s] }

  lemma WithoutFirst(slots: seq<Slot>, names: seq<string>)
    requires slots != []
    ensures Without(slots, names) == Kept(slots[0], names) + Without(slots[1..], names)
  {
  }

  /** What is left stays in order. */
  lemma {:induction false} WithoutInOrder(a: seq<Slot>, b: seq<Slot>, names: seq<string>)
    ensures Without(a + b, names) == Without(a, names) + Without(b, names)
    decreases |a|
  {
    if a == [] {
      assert a + b == b;
    } else {
      WithoutInOrder(a[1..], b, names);
      WithoutFirst(a + b, names);
      WithoutFirst(a, names);
      assert (a + b)[0] == a[0] && (a + b)[1..] == a[1..] + b;
      SlotsAssociate(Kept(a[0], names), Without(a[1..], names), Without(b, names));
    }
  }

  /** Controllers are kept under their own names. */
  predicate Keyed(slots: seq<Slot>) {
    && (forall i | 0 <= i < |slots| :: slots[i].key == slots[i].controller.name)
    && forall i, j | 0 <= i < j < |slots| :: slots[i].key != slots[j].key
  }

  /** The controller was called last when it came up to the simulation. */
  predicate CaughtUp(c: Controller, now: int) {
    c.calls > 0 && ReplyOf(c, c.calls - 1).At? && ReplyOf(c, c.calls - 1).time >= now
  }

  /** Since names are keys, a controller's own failure decides whether its key is erased. */
  lemma FailedKey(slots: seq<Slot>, now: int, limit: int, strict: bool, busy: bool, i: nat)
    requires Keyed(slots) && i < |slots|
    ensures slots[i].key in Visits(slots, now, limit, strict, busy).failed <==>
      Fell(slots, now, limit, strict, busy, i, slots[i].key)
  {
    VisitsFailed(slots, now, limit, strict, busy, slots[i].key);
    forall j | 0 <= j < |slots| && Fell(slots, now, limit, strict, busy, j, slots[i].key) ensures j == i {
      assert slots[j].key == slots[i].key;
    }
  }

  lemma HandledController(c: Controller, now: int, limit: int, strict: bool, busy: bool)
    requires c.hasVehicle ==> Ends(c, now, limit)
    ensures var h := Handle(c, now, limit, strict, busy);
      && (h.failed <==> c.hasVehicle && !strict && Verdict(c, now, limit) == Fails)
      && (h.end == Finished && c.hasVehicle && !h.failed ==> CaughtUp(h.controller, now))
  {
    if c.hasVehicle {
      var k := Retries(c, now, limit);
      assert Called(c, now, limit).calls - 1 == c.calls + k;
      assert Behind(ReplyOf(c, c.calls + k), now) == Late(c, now, k);
    }
  }

  /** The main result, for the i-th controller.  When the round comes to its end without an
      interrupt or a fatal exception, the controller is still there exactly if it did not fail,
      and then, if it has a vehicle, it has reached the current time. */
  lemma FinishedRound(slots: seq<Slot>, now: int, limit: int, strict: bool, busy: bool, i: nat)
    requires AllEnd(slots, now, limit) && Keyed(slots) && i < |slots|
    requires Visits(slots, now, limit, strict, busy).end == Finished
    ensures var v := Visits(slots, now, limit, strict, busy);
      var c := slots[i].controller;
      && |v.slots| == |slots|
      && (v.slots[i] in Without(v.slots, v.failed) <==> !(c.hasVehicle && Verdict(c, now, limit) == Fails))
      && (v.slots[i] in Without(v.slots, v.failed) && c.hasVehicle ==> CaughtUp(v.slots[i].controller, now))
  {
    var v := Visits(slots, now, limit, strict, busy);
    FinishedComesToAll(slots, now, limit, strict, busy, |slots|);
    FinishedSlot(slots, now, limit, strict, busy, i);
    HandledController(slots[i].controller, now, limit, strict, busy);
    WithoutMembers(v.slots, v.failed, v.slots[i]);
  }

  lemma FinishedSlot(slots: seq<Slot>, now: int, limit: int, strict: bool, busy: bool, i: nat)
    requires Keyed(slots) && i < |slots|
    requires ComesTo(slots, now, limit, strict, busy, |slots|)
    ensures var v := Visits(slots, now, limit, strict, busy);
      var h := Handle(slots[i].controller, now, limit, strict, busy);
      && h.end == Finished && |v.slots| == |slots|
      && v.slots[i] == slots[i].(controller := h.controller)
      && (slots[i].key in v.failed <==> h.failed)
      && (slots[i].controller.hasVehicle && strict ==> Verdict(slots[i].controller, now, limit) != Fails)
  {
    VisitsAt(slots, now, limit, strict, busy, i);
    FailedKey(slots, now, limit, strict, busy, i);
  }

  lemma {:induction false} FinishedComesToAll(slots: seq<Slot>, now: int, limit: int, strict: bool, busy: bool, n: nat)
    requires n <= |slots|
    requires Visits(slots, now, limit, strict, busy).end == Finished
    ensures ComesTo(slots, now, limit, strict, busy, n)
  {
    if n > 0 {
      FinishedComesToAll(slots, now, limit, strict, busy, n - 1);
      VisitsEnd(slots, now, limit, strict, busy, n - 1);
    }
  }

  /** The controller lets the round go on: it has no vehicle, it has caught up, or it has failed and
      that is tolerated. */
  ghost predicate Passes(c: Controller, now: int, limit: int, strict: bool) {
    !c.hasVehicle || Verdict(c, now, limit).At? || (Verdict(c, now, limit) == Fails && !strict)
  }

  /** The first controller that does not pass says how the round ends: with the interrupt that it asks
      for, if no other one is pending, and with an exception otherwise. */
  lemma RoundEndsWith(slots: seq<Slot>, now: int, limit: int, strict: bool, busy: bool, m: nat)
    requires m <= |slots| && forall j | 0 <= j < m :: Passes(slots[j].controller, now, limit, strict)
    requires m < |slots| ==> !Passes(slots[m].controller, now, limit, strict)
    ensures var end := Visits(slots, now, limit, strict, busy).end;
      if m == |slots| then end == Finished
      else
        match Verdict(slots[m].controller, now, limit)
        case Resets => end == if busy then Broke(Fatal) else Diverted(RESET)
        case Stops => end == if busy then Broke(Fatal) else Diverted(STOP)
        case AbortsAsync => end == Broke(AsyncAbort)
        case Fatally => end == Broke(Fatal)
        case _ => end == if busy then Broke(Fatal) else Diverted(ABORT)
  {
    forall j | 0 <= j < m ensures Handle(slots[j].controller, now, limit, strict, busy).end == Finished {
      assert Passes(slots[j].controller, now, limit, strict);
    }
    VisitsEnd(slots, now, limit, strict, busy, m);
  }

  /** Every controller with a vehicle up to that one has been called, and no other one. */
  lemma RoundCalls(slots: seq<Slot>, now: int, limit: int, strict: bool, busy: bool, m: nat, i: nat)
    requires i < |slots| && m <= |slots|
    requires forall j | 0 <= j < m :: Passes(slots[j].controller, now, limit, strict)
    requires m < |slots| ==> !Passes(slots[m].controller, now, limit, strict)
    ensures var v := Visits(slots, now, limit, strict, busy);
      && |v.slots| == |slots| && v.slots[i].key == slots[i].key
      && v.slots[i].controller == if i <= m && slots[i].controller.hasVehicle
                                  then Called(slots[i].controller, now, limit) else slots[i].controller
  {
    VisitsAt(slots, now, limit, strict, busy, i);
    if i <= m {
      forall j | 0 <= j < i ensures Handle(slots[j].controller, now, limit, strict, busy).end == Finished {
        assert Passes(slots[j].controller, now, limit, strict);
      }
    } else {
      assert Handle(slots[m].controller, now, limit, strict, busy).end != Finished;
    }
  }

  /** When the m-th controller diverts the simulation, it asked for it (or failed, where failures
      are not tolerated), and no later one is called or erased. */
  lemma DivertedRound(slots: seq<Slot>, now: int, limit: int, strict: bool, busy: bool, m: nat, i: nat)
    requires Keyed(slots) && m < i < |slots|
    requires ComesTo(slots, now, limit, strict, busy, m)
    requires Handle(slots[m].controller, now, limit, strict, busy).end != Finished
    ensures var v := Visits(slots, now, limit, strict, busy);
      && v.end == Handle(slots[m].controller, now, limit, strict, busy).end
      && (v.end.Diverted? ==>
            && slots[m].controller.hasVehicle && !busy
            && v.end.interrupt == InterruptFor(ThrownFor(Verdict(slots[m].controller, now, limit))))
      && |v.slots| == |slots| && v.slots[i] == slots[i]
      && slots[i] in Without(v.slots, v.failed)
  {
    var v := Visits(slots, now, limit, strict, busy);
    VisitsEnd(slots, now, limit, strict, busy, m);
    DivertedEnd(slots[m].controller, now, limit, strict, busy);
    UntouchedSlot(slots, now, limit, strict, busy, i);
    WithoutMembers(v.slots, v.failed, slots[i]);
  }

  lemma DivertedEnd(c: Controller, now: int, limit: int, strict: bool, busy: bool)
    ensures var end := Handle(c, now, limit, strict, busy).end;
      end.Diverted? ==> c.hasVehicle && !busy && end.interrupt == InterruptFor(ThrownFor(Verdict(c, now, limit)))
  {
  }

  lemma UntouchedSlot(slots: seq<Slot>, now: int, limit: int, strict: bool, busy: bool, i: nat)
    requires Keyed(slots) && i < |slots|
    requires !ComesTo(slots, now, limit, strict, busy, i)
    ensures var v := Visits(slots, now, limit, strict, busy);
      |v.slots| == |slots| && v.slots[i] == slots[i] && slots[i].key !in v.failed
  {
    VisitsAt(slots, now, limit, strict, busy, i);
    FailedKey(slots, now, limit, strict, busy, i);
  }

  /** What the exception would do if it reached the machine's main loop. */
  function ThrownFor(r: Reply): Thrown {
    match r
    case Resets => ModelReset
    case Stops => ModelStop
    case Aborts => ModelAbort
    case _ => ModelError
  }
}

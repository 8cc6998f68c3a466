/**
 The two worklists of the CONNECT state (engine/src/simulation_state_connect.cpp, section 6):
 components inside a vehicle, and vehicles among each other.
 */
module Connect {
  import opened Prelude
  import opened Dependencies

  /** A component is one the simulator brought, or it records which vehicle it was made for,
      under which name, and from which inputs. */
  datatype Component =
    | Foreign(id: nat)
    | Made(vehicle: Name, name: Name, inputs: seq<Component>)

  type Parts = map<Name, Component>

  class Vehicle {
    const name: Name
    var components: Parts

    /** A clone starts with the components of its prototype. */
    constructor Clone(name: Name, prototype: Parts)
      ensures this.name == name && this.components == prototype
    {
      this.name := name;
      this.components := prototype;
    }

    method SetComponent(key: Name, component: Component)
      modifies this
      ensures components == old(components)[key := component]
    {
      components := components[key := component];
    }
  }

  function Inputs(have: Parts, from: seq<Name>): (inputs: seq<Component>)
    requires forall f | f in from :: f in have
    ensures |inputs| == |from| && forall i | 0 <= i < |from| :: inputs[i] == have[from[i]]
  {
    if from == [] then [] else [have[from[0]]] + Inputs(have, from[1..])
  }

  /** The components of vehicle `owner` after its names were configured in the order `d`. */
  function Build(owner: Name, from: Config, base: Parts, d: seq<Name>): (m: Parts)
    requires Derivation(from, base.Keys, d)
    ensures m.Keys == base.Keys + Elems(d)
    decreases |d|
  {
    if d == [] then base
    else
      var last := |d| - 1;
      var m := Build(owner, from, base, d[..last]);
      assert Elems(d) == Elems(d[..last]) + {d[last]} by { assert d == d[..last] + [d[last]]; }
      assert Available(from, base.Keys, Elems(d[..last]), d[last]);
      m[d[last] := Made(owner, d[last], Inputs(m, from[d[last]]))]
  }

  /** Fetch the inputs of a component; give up at the first one the vehicle does not have. */
  method NewComponent(v: Vehicle, name: Name, from: seq<Name>) returns (k: Option<Component>)
    ensures (exists f :: f in from && f !in v.components) ==> k == None
    ensures (forall f | f in from :: f in v.components)
        ==> k == Some(Made(v.name, name, Inputs(v.components, from)))
  {
    var inputs: seq<Component> := [];
    for i := 0 to |from|
      invariant forall f | f in from[..i] :: f in v.components
      invariant inputs == Inputs(v.components, from[..i])
    {
      if from[i] !in v.components {
        return None;
      }
      inputs := inputs + [v.components[from[i]]];
      assert from[..i + 1] == from[..i] + [from[i]];
      InputsSnoc(v.components, from[..i], from[i]);
    }
    assert from[..|from|] == from;
    return Some(Made(v.name, name, inputs));
  }

  lemma {:induction false} InputsSnoc(have: Parts, from: seq<Name>, f: Name)
    requires f in have && forall g | g in from :: g in have
    ensures Inputs(have, from + [f]) == Inputs(have, from) + [have[f]]
  {
    if from == [] {
      assert [f][1..] == [];
    } else {
      assert (from + [f])[1..] == from[1..] + [f];
      InputsSnoc(have, from[1..], f);
    }
  }

  datatype Unresolved = Unresolved(name: Name, dependency: Name)

  /** The error names the first component in configuration order that is left over, and the
      first of its inputs that the vehicle does not have. */
  predicate Reports(order: seq<Name>, from: Config, base: set<Name>, done: set<Name>, u: Unresolved) {
    exists i | 0 <= i < |order| ::
      && order[i] == u.name && u.name !in done && (forall j | 0 <= j < i :: order[j] in done)
      && u.name in from && u.dependency == Missing(from, base, done, u.name)
      && u.dependency in from[u.name] && u.dependency !in base && u.dependency !in done
  }

  lemma {:induction false} FirstMissingAt(names: seq<Name>, known: set<Name>, default: Name, k: nat)
    requires k < |names| && names[k] !in known && forall j | 0 <= j < k :: names[j] in known
    ensures FirstMissing(names, known, default) == names[k]
  {
    if k > 0 {
      FirstMissingAt(names[1..], known, default, k - 1);
    }
  }

  /** The two loops behind the error: skip what is configured and inputs that are there. */
  method ReportUnresolved(x: Vehicle, order: seq<Name>, from: Config, ghost base: set<Name>, configured: set<Name>)
    returns (u: Option<Unresolved>)
    requires Elems(order) == from.Keys && x.components.Keys == base + configured
    ensures (exists n | n in order :: n !in configured && !Available(from, base, configured, n)) ==> u.Some?
    ensures u.Some? && Closed(from, base, configured) ==> Reports(order, from, base, configured, u.value)
  {
    for i := 0 to |order|
      invariant forall j | 0 <= j < i :: order[j] in configured || Available(from, base, configured, order[j])
    {
      var n := order[i];
      assert n in Elems(order);
      if n !in configured {
        for k := 0 to |from[n]|
          invariant forall j | 0 <= j < k :: from[n][j] in x.components
        {
          if from[n][k] !in x.components {
            FirstMissingAt(from[n], base + configured, n, k);
            assert !Available(from, base, configured, n);
            return Some(Unresolved(n, from[n][k]));
          }
        }
      }
    }
    return None;
  }

  /** The vehicle is what configuring the names of `done`, in that order, makes of it. */
  ghost predicate Configured(x: Vehicle, from: Config, base: Parts, done: seq<Name>)
    reads x
  {
    Derivation(from, base.Keys, done) && x.components == Build(x.name, from, base, done)
  }

  lemma ConfigureOne(x: Vehicle, from: Config, base: Parts, done: seq<Name>, n: Name)
    requires Configured(x, from, base, done) && n in from && n !in Elems(done)
    requires Available(from, base.Keys, Elems(done), n)
    ensures Derivation(from, base.Keys, done + [n]) && Elems(done + [n]) == Elems(done) + {n}
    ensures Build(x.name, from, base, done + [n])
         == x.components[n := Made(x.name, n, Inputs(x.components, from[n]))]
  {
    DerivationExtends(from, base.Keys, done, n);
    assert (done + [n])[..|done|] == done;
  }

  lemma SeenOneMore(order: seq<Name>, i: nat)
    requires Distinct(order) && i < |order|
    ensures Elems(order[..i + 1]) == Elems(order[..i]) + {order[i]}
    ensures order[i] in Elems(order) && order[i] !in Elems(order[..i])
  {
    assert order[..i + 1] == order[..i] + [order[i]];
  }

  /** Try one component that is not configured yet. */
  method TryComponent(x: Vehicle, n: Name, from: Config, ghost base: Parts, start: seq<Name>) returns (done: seq<Name>)
    requires Configured(x, from, base, start) && n in from && n !in Elems(start)
    modifies x
    ensures Configured(x, from, base, done)
    ensures if Available(from, base.Keys, Elems(start), n)
            then Elems(done) == Elems(start) + {n} else done == start
  {
    done := start;
    var k := NewComponent(x, n, from[n]);
    if k.Some? {
      ConfigureOne(x, from, base, start, n);
      x.SetComponent(n, k.value);
      done := start + [n];
    }
  }

  /** The names in `seen` are configured, or were not available at the start of the round. */
  predicate Tried(from: Config, base: set<Name>, start: set<Name>, done: set<Name>, seen: set<Name>) {
    forall n | n in seen && n in from :: n in done || !Available(from, base, start, n)
  }

  lemma TriedOneMore(from: Config, base: set<Name>, start: set<Name>, less: set<Name>, more: set<Name>, seen: set<Name>, n: Name)
    requires Tried(from, base, start, less, seen) && start <= less <= more && n in from
    requires n in more || !Available(from, base, less, n)
    ensures Tried(from, base, start, more, seen + {n})
  {
    AvailableGrows(from, base, start, less, n);
  }

  lemma FruitlessRoundIsClosed(from: Config, base: set<Name>, done: set<Name>)
    requires Tried(from, base, done, done, from.Keys)
    ensures Closed(from, base, done)
  {
  }

  /** Where a round is that began with `begun` configured and has come past `seen`. */
  ghost predicate Midway(x: Vehicle, from: Config, base: Parts, begun: set<Name>, seen: set<Name>, done: seq<Name>, attempts: nat)
    reads x
  {
    && Configured(x, from, base, done)
    && begun <= Elems(done) <= from.Keys && Elems(done) <= begun + seen
    && Tried(from, base.Keys, begun, Elems(done), seen)
    && attempts == |seen - begun|
  }

  lemma OneMoreAttempt(seen: set<Name>, begun: set<Name>, n: Name)
    requires n !in seen
    ensures |seen + {n} - begun| == |seen - begun| + (if n in begun then 0 else 1)
  {
    assert seen + {n} - begun == seen - begun + (if n in begun then {} else {n});
  }

  /** Try the next component unless it is configured. */
  method TryNext(x: Vehicle, n: Name, from: Config, ghost base: Parts, ghost begun: set<Name>, ghost seen: set<Name>,
                 start: seq<Name>, attempts: nat) returns (done: seq<Name>, attempts': nat)
    requires Midway(x, from, base, begun, seen, start, attempts) && n in from && n !in seen
    modifies x
    ensures Midway(x, from, base, begun, seen + {n}, done, attempts')
  {
    done, attempts' := start, attempts;
    OneMoreAttempt(seen, begun, n);
    if n !in Elems(done) {
      done := TryComponent(x, n, from, base, done);
      attempts' := attempts + 1;
    }
    TriedOneMore(from, base.Keys, begun, Elems(start), Elems(done), seen, n);
  }

  /** One round over all components; every one not configured before it is tried once. */
  method ComponentRound(x: Vehicle, order: seq<Name>, from: Config, ghost base: Parts, start: seq<Name>)
    returns (done: seq<Name>, attempts: nat)
    requires Distinct(order) && Elems(order) == from.Keys && Configured(x, from, base, start)
    requires Elems(start) <= from.Keys
    modifies x
    ensures Configured(x, from, base, done) && Elems(start) <= Elems(done) <= from.Keys
    ensures Elems(done) == Elems(start) ==> Closed(from, base.Keys, Elems(start))
    ensures attempts == |from.Keys - Elems(start)|
  {
    done, attempts := start, 0;
    ghost var begun, seen := Elems(start), {};
    MidwayStarts(x, from, base, start);
    for i := 0 to |order|
      invariant seen == Elems(order[..i])
      invariant Midway(x, from, base, begun, seen, done, attempts)
    {
      SeenOneMore(order, i);
      done, attempts := TryNext(x, order[i], from, base, begun, seen, done, attempts);
      seen := seen + {order[i]};
    }
    assert order[..|order|] == order;
    MidwayEnds(x, from, base, begun, done, attempts);
  }

  lemma MidwayStarts(x: Vehicle, from: Config, base: Parts, start: seq<Name>)
    requires Configured(x, from, base, start) && Elems(start) <= from.Keys
    ensures Midway(x, from, base, Elems(start), {}, start, 0)
  {
  }

  lemma MidwayEnds(x: Vehicle, from: Config, base: Parts, begun: set<Name>, done: seq<Name>, attempts: nat)
    requires Midway(x, from, base, begun, from.Keys, done, attempts)
    ensures Configured(x, from, base, done) && begun <= Elems(done) <= from.Keys
    ensures Elems(done) == begun ==> Closed(from, base.Keys, begun)
    ensures attempts == |from.Keys - begun|
  {
    if Elems(done) == begun {
      FruitlessRoundIsClosed(from, base.Keys, begun);
    }
  }

  /** 1 + 2 + ... + n: the tries that can still come when `n` components are left. */
  function Triangle(n: nat): nat {
    if n == 0 then 0 else n + Triangle(n - 1)
  }

  lemma {:induction false} TriangleGrows(m: nat, n: nat)
    requires m <= n
    ensures Triangle(m) <= Triangle(n)
  {
    if m < n {
      TriangleGrows(m, n - 1);
    }
  }

  lemma {:induction false} TriangleIs(n: nat)
    ensures 2 * Triangle(n) == n * (n + 1)
  {
    if n > 0 {
      TriangleIs(n - 1);
    }
  }

  lemma ComplementSize(all: set<Name>, part: set<Name>)
    requires part <= all
    ensures |all - part| == |all| - |part|
  {
    assert all == part + (all - part);
  }

  /** The tries of a round that brings something are paid for by what it brings. */
  lemma RoundPays(left: nat, next: nat)
    requires next <= left
    ensures left <= Triangle(left)
    ensures next < left ==> left + Triangle(next) <= Triangle(left)
  {
    if next < left {
      TriangleGrows(next, left - 1);
    }
  }

  lemma SomethingIsMissing(order: seq<Name>, from: Config, base: set<Name>, done: set<Name>)
    requires Elems(order) == from.Keys && done <= from.Keys && done != from.Keys && Closed(from, base, done)
    ensures exists n | n in order :: n !in done && !Available(from, base, done, n)
  {
    var n :| n in from.Keys && n !in done;
    assert n in order;
  }

  /** Keep going through the components until all are configured or a round brings nothing.
      `attempts` counts the calls of `NewComponent`. */
  method ConfigureComponents(x: Vehicle, order: seq<Name>, from: Config)
    returns (done: seq<Name>, failure: Option<Unresolved>, attempts: nat)
    requires Distinct(order) && Elems(order) == from.Keys
    modifies x
    ensures Configured(x, from, old(x.components), done)
    ensures Closed(from, old(x.components).Keys, Elems(done))
    ensures failure.None? <==> Elems(done) == from.Keys
    ensures failure.Some? ==> Reports(order, from, old(x.components).Keys, Elems(done), failure.value)
    ensures attempts <= Triangle(|order|)
  {
    ghost var base := x.components;
    var n := |order|;
    done, failure, attempts := [], None, 0;
    ghost var left := n;
    SizeOfElems(order);
    while |Elems(done)| != n
      invariant Configured(x, from, base, done) && Elems(done) <= from.Keys
      invariant failure.None?
      invariant 0 <= left == n - |Elems(done)| && attempts + Triangle(left) <= Triangle(n)
      decreases left
    {
      var m := |Elems(done)|;
      var more, tried := ComponentRound(x, order, from, base, done);
      ComplementSize(from.Keys, Elems(done));
      SubsetSize(Elems(done), Elems(more));
      SubsetSize(Elems(more), from.Keys);
      ghost var next := n - |Elems(more)|;
      RoundPays(left, next);
      done, attempts, left := more, attempts + tried, next;
      if |Elems(done)| == m {
        failure := ReportUnresolved(x, order, from, base.Keys, Elems(done));
        SomethingIsMissing(order, from, base.Keys, Elems(done));
        return;
      }
    }
    SubsetSize(Elems(done), from.Keys);
  }

  // ----- Vehicles -----

  datatype VehicleKey = ByName(key: Name) | ByIndex(index: nat)

  datatype Source = FromSimulator(simulator: Name, vehicle: VehicleKey) | FromVehicle(vehicle_: Name)

  datatype VehicleConf = VehicleConf(name: Name, source: Source, order: seq<Name>, from: Config)
  {
    predicate Valid() { Distinct(order) && Elems(order) == from.Keys }
  }

  /** What a simulator answers when it is asked for a vehicle.  Nothing changes a vehicle once
      it is configured, so from here on a vehicle is the value of its components. */
  datatype Simulator = Simulator(byName: map<Name, Parts>, byIndex: seq<Parts>)

  datatype ModelError = NoVehicle(simulator: Name, vehicle: VehicleKey) | CannotResolve(what: Unresolved)

  datatype NewVehicleResult =
    | Created(parts: Parts)
    | Waiting
    | Failed(error: ModelError)
    | UnknownSimulator

  /** The prototype of a vehicle, or why there is none (yet). */
  function Prototype(c: VehicleConf, simulators: map<Name, Simulator>, vehicles: map<Name, Parts>): NewVehicleResult {
    match c.source
    case FromVehicle(v) => if v in vehicles then Created(vehicles[v]) else Waiting
    case FromSimulator(s, key) =>
      if s !in simulators then UnknownSimulator
      else
        match key
        case ByName(n) =>
          if n in simulators[s].byName then Created(simulators[s].byName[n]) else Failed(NoVehicle(s, key))
        case ByIndex(i) =>
          if i < |simulators[s].byIndex| then Created(simulators[s].byIndex[i]) else Failed(NoVehicle(s, key))
  }

  /** `v` is the configured clone of `proto`: all components of the configuration, in some
      order in which each was made after its inputs. */
  ghost predicate IsConfigured(c: VehicleConf, proto: Parts, v: Parts) {
    exists d: seq<Name> ::
      Derivation(c.from, proto.Keys, d) && Elems(d) == c.from.Keys && v == Build(c.name, c.from, proto, d)
  }

  /** Why the components of `c` cannot be configured: `u` names the first one that is not
      derivable, and an input of it that is neither there nor derivable. */
  ghost predicate IsStuck(c: VehicleConf, proto: Parts, u: Unresolved) {
    var base := proto.Keys;
    && u.name in c.from && u.dependency in c.from[u.name] && u.dependency !in base
    && !Derivable(c.from, base, u.name) && !Derivable(c.from, base, u.dependency)
    && exists i | 0 <= i < |c.order| :: c.order[i] == u.name && forall j | 0 <= j < i :: Derivable(c.from, base, c.order[j])
  }

  /** The simulator has no vehicle under this name or at this index. */
  predicate Lacks(simulator: Simulator, key: VehicleKey) {
    match key
    case ByName(n) => n !in simulator.byName
    case ByIndex(i) => i >= |simulator.byIndex|
  }

  /** `x` is the configured clone of the vehicle that `c` asks for: of this name in the simulator,
      at this index in the simulator, or the vehicle of this name. */
  ghost predicate IsClone(c: VehicleConf, simulators: map<Name, Simulator>, vehicles: map<Name, Parts>, x: Parts) {
    match c.source
    case FromVehicle(v) => v in vehicles && IsConfigured(c, vehicles[v], x)
    case FromSimulator(s, ByName(n)) =>
      s in simulators && n in simulators[s].byName && IsConfigured(c, simulators[s].byName[n], x)
    case FromSimulator(s, ByIndex(i)) =>
      s in simulators && i < |simulators[s].byIndex| && IsConfigured(c, simulators[s].byIndex[i], x)
  }

  /** The vehicle that `c` asks for is there, but `u` keeps its clone from being configured. */
  ghost predicate IsStuckClone(c: VehicleConf, simulators: map<Name, Simulator>, vehicles: map<Name, Parts>, u: Unresolved)
  {
    match c.source
    case FromVehicle(v) => v in vehicles && IsStuck(c, vehicles[v], u)
    case FromSimulator(s, ByName(n)) =>
      s in simulators && n in simulators[s].byName && IsStuck(c, simulators[s].byName[n], u)
    case FromSimulator(s, ByIndex(i)) =>
      s in simulators && i < |simulators[s].byIndex| && IsStuck(c, simulators[s].byIndex[i], u)
  }

  /** Why there is no vehicle for `c`. */
  ghost predicate Rejected(c: VehicleConf, simulators: map<Name, Simulator>, vehicles: map<Name, Parts>, error: ModelError)
  {
    match error
    case NoVehicle(s, key) => c.source == FromSimulator(s, key) && s in simulators && Lacks(simulators[s], key)
    case CannotResolve(u) => IsStuckClone(c, simulators, vehicles, u)
  }

  predicate AsksUnknown(c: VehicleConf, simulators: map<Name, Simulator>) {
    c.source.FromSimulator? && c.source.simulator !in simulators
  }

  predicate Waits(c: VehicleConf, vehicles: map<Name, Parts>) {
    c.source.FromVehicle? && c.source.vehicle_ !in vehicles
  }

  /** The answers exclude each other. */
  method NewVehicle(c: VehicleConf, simulators: map<Name, Simulator>, vehicles: map<Name, Parts>)
    returns (r: NewVehicleResult)
    requires c.Valid()
    ensures match r
      case Created(x) => IsClone(c, simulators, vehicles, x)
      case Waiting => Waits(c, vehicles)
      case Failed(error) => Rejected(c, simulators, vehicles, error)
      case UnknownSimulator => AsksUnknown(c, simulators)
  {
    r := Prototype(c, simulators, vehicles);
    if !r.Created? {
      return;
    }
    var proto := r.parts;
    var x := new Vehicle.Clone(c.name, proto);
    var done, failure, _ := ConfigureComponents(x, c.order, c.from);
    if failure.None? {
      assert IsConfigured(c, proto, x.components);
      r := Created(x.components);
    } else {
      LeastFixpoint(c.from, proto.Keys, done);
      assert IsStuck(c, proto, failure.value);
      r := Failed(CannotResolve(failure.value));
    }
  }

  function Names(confs: seq<VehicleConf>): seq<Name> {
    seq(|confs|, i requires 0 <= i < |confs| => confs[i].name)
  }

  function Find(confs: seq<VehicleConf>, n: Name): (c: VehicleConf)
    requires n in Names(confs)
    ensures c in confs && c.name == n
  {
    if confs[0].name == n then confs[0]
    else
      assert n in Names(confs[1..]) by {
        var i :| 0 <= i < |confs| && Names(confs)[i] == n;
        assert Names(confs[1..])[i - 1] == n;
      }
      Find(confs[1..], n)
  }

  function Asked(c: VehicleConf): seq<Name> {
    if c.source.FromVehicle? then [c.source.vehicle_] else []
  }

  /** Which vehicle asks for which. */
  function Graph(confs: seq<VehicleConf>): Config {
    map n | n in Elems(Names(confs)) :: Asked(Find(confs, n))
  }

  lemma GraphAt(confs: seq<VehicleConf>, i: nat)
    requires Distinct(Names(confs)) && i < |confs|
    ensures confs[i].name in Graph(confs) && Graph(confs)[confs[i].name] == Asked(confs[i])
  {
    var n := confs[i].name;
    assert Names(confs)[i] == n;
    var c := Find(confs, n);
    var j :| 0 <= j < |confs| && confs[j] == c;
    assert Names(confs)[j] == n;
    assert i == j;
  }

  /** A vehicle that is there is the configured clone of the one it asks for. */
  ghost predicate WiredOne(c: VehicleConf, simulators: map<Name, Simulator>, vehicles: map<Name, Parts>) {
    c.name in vehicles ==> IsClone(c, simulators, vehicles, vehicles[c.name])
  }

  ghost predicate Wired(confs: seq<VehicleConf>, simulators: map<Name, Simulator>, vehicles: map<Name, Parts>) {
    confs == [] || (WiredOne(confs[0], simulators, vehicles) && Wired(confs[1..], simulators, vehicles))
  }

  lemma {:induction false} WiredMeans(confs: seq<VehicleConf>, simulators: map<Name, Simulator>, vehicles: map<Name, Parts>)
    ensures Wired(confs, simulators, vehicles) <==> forall c | c in confs :: WiredOne(c, simulators, vehicles)
    ensures Wired(confs, simulators, vehicles) <==> AllClones(confs, simulators, vehicles)
  {
    if confs != [] {
      WiredMeans(confs[1..], simulators, vehicles);
    }
  }

  datatype Connected =
    | Ready
    | ReturnAbort(vehicle: Name, error: ModelError)   // caught, CONNECT returns ABORT
    | ThrowModelError(what: Unresolved)               // leaves CONNECT as an exception
    | ThrowOutOfRange(vehicle: Name)

  /** Where the worklist is: `done` tells the order, and everything made is as configured. */
  ghost predicate Progressed(confs: seq<VehicleConf>, simulators: map<Name, Simulator>, vehicles: map<Name, Parts>, done: seq<Name>)
  {
    Derivation(Graph(confs), {}, done) && vehicles.Keys == Elems(done) && Wired(confs, simulators, vehicles)
  }

  /** What the program's answer means for the vehicle it names. */
  ghost predicate Explained(confs: seq<VehicleConf>, simulators: map<Name, Simulator>, vehicles: map<Name, Parts>, r: Connected)
  {
    match r
    case Ready => true
    case ReturnAbort(name, error) => exists c | c in confs ::
      c.name == name && name !in vehicles && Rejected(c, simulators, vehicles, error)
    case ThrowOutOfRange(name) => exists c | c in confs ::
      c.name == name && name !in vehicles && AsksUnknown(c, simulators)
    case ThrowModelError(what) => exists c | c in confs ::
      && c.name == what.name && c.source == FromVehicle(what.dependency)
      && !Derivable(Graph(confs), {}, what.name) && !Derivable(Graph(confs), {}, what.dependency)
  }

  /** Try one vehicle that is not there yet. */
  method TryVehicle(confs: seq<VehicleConf>, simulators: map<Name, Simulator>, i: nat, start: map<Name, Parts>, begun: seq<Name>)
    returns (r: Connected, vehicles: map<Name, Parts>, done: seq<Name>)
    requires (forall c | c in confs :: c.Valid()) && Distinct(Names(confs)) && i < |confs|
    requires Progressed(confs, simulators, start, begun) && confs[i].name !in start
    ensures Progressed(confs, simulators, vehicles, done) && Explained(confs, simulators, vehicles, r)
    ensures !r.ThrowModelError? && (!r.Ready? ==> vehicles == start)
    ensures start.Keys <= vehicles.Keys
    ensures r.Ready? ==> confs[i].name in Graph(confs)
    ensures r.Ready? ==> confs[i].name in vehicles || !Available(Graph(confs), {}, start.Keys, confs[i].name)
  {
    var c := confs[i];
    r, vehicles, done := Ready, start, begun;
    GraphAt(confs, i);
    var v := NewVehicle(c, simulators, start);
    if v.Failed? {
      r := ReturnAbort(c.name, v.error);
    } else if v.UnknownSimulator? {
      r := ThrowOutOfRange(c.name);
    } else if v.Created? {
      Progress(confs, simulators, start, begun, i, v.parts);
      vehicles := start[c.name := v.parts];
      done := begun + [c.name];
    }
  }

  lemma Progress(confs: seq<VehicleConf>, simulators: map<Name, Simulator>, start: map<Name, Parts>, begun: seq<Name>, i: nat, x: Parts)
    requires Distinct(Names(confs)) && i < |confs| && confs[i].name !in start
    requires Progressed(confs, simulators, start, begun) && IsClone(confs[i], simulators, start, x)
    ensures Progressed(confs, simulators, start[confs[i].name := x], begun + [confs[i].name])
  {
    GraphAt(confs, i);
    DerivationExtends(Graph(confs), {}, begun, confs[i].name);
    AddVehicle(confs, simulators, start, confs[i], x);
  }

  /** One round over all vehicle configurations. */
  method VehicleRound(confs: seq<VehicleConf>, simulators: map<Name, Simulator>, start: map<Name, Parts>, begun: seq<Name>)
    returns (r: Connected, vehicles: map<Name, Parts>, done: seq<Name>)
    requires (forall c | c in confs :: c.Valid()) && Distinct(Names(confs))
    requires Progressed(confs, simulators, start, begun)
    ensures Progressed(confs, simulators, vehicles, done) && Explained(confs, simulators, vehicles, r)
    ensures start.Keys <= vehicles.Keys && !r.ThrowModelError?
    ensures r.Ready? && vehicles.Keys == start.Keys ==> Closed(Graph(confs), {}, start.Keys)
  {
    r, vehicles, done := Ready, start, begun;
    for i := 0 to |confs|
      invariant r.Ready? && Progressed(confs, simulators, vehicles, done)
      invariant start.Keys <= vehicles.Keys
      invariant forall n | n in Names(confs)[..i] :: n in vehicles || !Available(Graph(confs), {}, start.Keys, n)
    {
      assert Names(confs)[..i + 1] == Names(confs)[..i] + [confs[i].name];
      GraphAt(confs, i);
      if confs[i].name !in vehicles {
        ghost var before := vehicles.Keys;
        r, vehicles, done := TryVehicle(confs, simulators, i, vehicles, done);
        if !r.Ready? {
          return;
        }
        AvailableGrows(Graph(confs), {}, start.Keys, before, confs[i].name);
      }
    }
    assert Names(confs)[..|confs|] == Names(confs);
  }

  lemma AvailableGrows(from: Config, base: set<Name>, less: set<Name>, more: set<Name>, n: Name)
    requires n in from && less <= more
    ensures Available(from, base, less, n) ==> Available(from, base, more, n)
  {
  }

  lemma AddVehicle(confs: seq<VehicleConf>, simulators: map<Name, Simulator>, vehicles: map<Name, Parts>, c: VehicleConf, x: Parts)
    requires Distinct(Names(confs)) && c in confs && c.name !in vehicles && Wired(confs, simulators, vehicles)
    requires IsClone(c, simulators, vehicles, x)
    ensures Wired(confs, simulators, vehicles[c.name := x])
  {
    WiredMeans(confs, simulators, vehicles);
    WiredMeans(confs, simulators, vehicles[c.name := x]);
    forall d | d in confs ensures WiredOne(d, simulators, vehicles[c.name := x]) {
      if d.name == c.name {
        SameName(confs, c, d);
        CloneKept(c, simulators, vehicles, c.name, x, x);
      } else if d.name in vehicles {
        CloneKept(d, simulators, vehicles, c.name, x, vehicles[d.name]);
      }
    }
  }

  lemma SameName(confs: seq<VehicleConf>, c: VehicleConf, d: VehicleConf)
    requires Distinct(Names(confs)) && c in confs && d in confs && c.name == d.name
    ensures c == d
  {
    var i, j :| 0 <= i < |confs| && confs[i] == c && 0 <= j < |confs| && confs[j] == d;
    assert Names(confs)[i] == c.name && Names(confs)[j] == d.name;
  }

  lemma CloneKept(c: VehicleConf, simulators: map<Name, Simulator>, vehicles: map<Name, Parts>, n: Name, new_: Parts, x: Parts)
    requires n !in vehicles && IsClone(c, simulators, vehicles, x)
    ensures IsClone(c, simulators, vehicles[n := new_], x)
  {
  }

  /** Every vehicle that is asked of a simulator is there. */
  predicate AllServed(confs: seq<VehicleConf>, simulators: map<Name, Simulator>) {
    forall c | c in confs && c.source.FromSimulator? ::
      c.source.simulator in simulators && !Lacks(simulators[c.source.simulator], c.source.vehicle)
  }

  /** The vehicles that are there, as what they were made from. */
  ghost predicate AllClones(confs: seq<VehicleConf>, simulators: map<Name, Simulator>, vehicles: map<Name, Parts>) {
    forall c | c in confs && c.name in vehicles :: IsClone(c, simulators, vehicles, vehicles[c.name])
  }

  /** A vehicle asked of a simulator never waits. */
  lemma ClosedIsServed(confs: seq<VehicleConf>, simulators: map<Name, Simulator>, vehicles: map<Name, Parts>)
    requires Distinct(Names(confs)) && AllClones(confs, simulators, vehicles)
    requires Closed(Graph(confs), {}, vehicles.Keys)
    ensures AllServed(confs, simulators)
  {
    forall c | c in confs && c.source.FromSimulator?
      ensures c.source.simulator in simulators && !Lacks(simulators[c.source.simulator], c.source.vehicle)
    {
      var i :| 0 <= i < |confs| && confs[i] == c;
      GraphAt(confs, i);
      assert Available(Graph(confs), {}, vehicles.Keys, c.name);
      assert IsClone(c, simulators, vehicles, vehicles[c.name]);
    }
  }

  lemma AllIsClosed(confs: seq<VehicleConf>, vehicles: map<Name, Parts>)
    requires vehicles.Keys == Elems(Names(confs))
    ensures Closed(Graph(confs), {}, vehicles.Keys)
  {
  }

  /** Keep going through the vehicles until all are configured, one fails, or a round brings
      nothing. */
  method VehicleLoop(confs: seq<VehicleConf>, simulators: map<Name, Simulator>)
    returns (r: Connected, vehicles: map<Name, Parts>, done: seq<Name>)
    requires (forall c | c in confs :: c.Valid()) && Distinct(Names(confs))
    ensures Progressed(confs, simulators, vehicles, done) && Explained(confs, simulators, vehicles, r)
    ensures r.Ready? ==> Elems(done) == Elems(Names(confs))
    ensures r.ThrowModelError? ==> Closed(Graph(confs), {}, vehicles.Keys)
  {
    var n := |confs|;
    r, vehicles, done := Ready, map[], [];
    WiredMeans(confs, simulators, vehicles);
    ghost var left := n;
    while |vehicles.Keys| != n
      invariant r.Ready? && Progressed(confs, simulators, vehicles, done)
      invariant 0 <= left == n - |vehicles.Keys|
      decreases left
    {
      var m := |vehicles.Keys|;
      ghost var start := vehicles.Keys;
      r, vehicles, done := VehicleRound(confs, simulators, vehicles, done);
      VehicleSizes(confs, done, start, vehicles.Keys);
      left := n - |vehicles.Keys|;
      if !r.Ready? {
        return;
      }
      if |vehicles.Keys| == m {
        r := ReportVehicle(confs, simulators, vehicles, done);
        return;
      }
    }
    VehicleSizes(confs, done, {}, vehicles.Keys);
  }

  /** The vehicles that are there are what they were asked to be; the loop ends well, or with
      vehicles that wait for each other, only if every simulator has what is asked of it. */
  method ConnectVehicles(confs: seq<VehicleConf>, simulators: map<Name, Simulator>)
    returns (r: Connected, vehicles: map<Name, Parts>, done: seq<Name>)
    requires (forall c | c in confs :: c.Valid()) && Distinct(Names(confs))
    ensures Progressed(confs, simulators, vehicles, done) && AllClones(confs, simulators, vehicles)
    ensures Explained(confs, simulators, vehicles, r)
    ensures r.Ready? ==> Elems(done) == Elems(Names(confs)) == vehicles.Keys
    ensures r.Ready? || r.ThrowModelError? ==> AllServed(confs, simulators)
  {
    r, vehicles, done := VehicleLoop(confs, simulators);
    WiredMeans(confs, simulators, vehicles);
    if r.Ready? {
      AllIsClosed(confs, vehicles);
    }
    if r.Ready? || r.ThrowModelError? {
      ClosedIsServed(confs, simulators, vehicles);
    }
  }

  lemma VehicleSizes(confs: seq<VehicleConf>, done: seq<Name>, start: set<Name>, names: set<Name>)
    requires Distinct(Names(confs)) && Derivation(Graph(confs), {}, done) && names == Elems(done) && start <= names
    ensures names <= Graph(confs).Keys && |Graph(confs).Keys| == |confs|
    ensures |start| <= |names| <= |confs|
    ensures |names| == |start| ==> names == start
    ensures |names| == |confs| ==> names == Elems(Names(confs))
  {
    SizeOfElems(Names(confs));
    assert Graph(confs).Keys == Elems(Names(confs));
    DerivationIsGrounded(Graph(confs), {}, done);
    SubsetSize(start, names);
    SubsetSize(names, Graph(confs).Keys);
  }

  /** The loop behind the error: the first vehicle that is not there is reported, with the
      vehicle it waits for (a vehicle from a simulator never waits). */
  method ReportVehicle(confs: seq<VehicleConf>, simulators: map<Name, Simulator>, vehicles: map<Name, Parts>, ghost done: seq<Name>)
    returns (r: Connected)
    requires Distinct(Names(confs)) && Derivation(Graph(confs), {}, done) && vehicles.Keys == Elems(done)
    requires Closed(Graph(confs), {}, Elems(done))
    ensures r.Ready? ==> Graph(confs).Keys <= vehicles.Keys
    ensures r.Ready? || r.ThrowModelError?
    ensures Explained(confs, simulators, vehicles, r)
  {
    for i := 0 to |confs|
      invariant forall n | n in Names(confs)[..i] :: n in vehicles
    {
      var c := confs[i];
      assert Names(confs)[..i + 1] == Names(confs)[..i] + [c.name];
      if c.name !in vehicles {
        GraphAt(confs, i);
        assert !Available(Graph(confs), {}, Elems(done), c.name);
        LeastFixpoint(Graph(confs), {}, done);
        return ThrowModelError(Unresolved(c.name, c.source.vehicle_));
      }
    }
    assert Names(confs)[..|confs|] == Names(confs);
    return Ready;
  }

  // ----- Repeated names -----

  /** Why the names must be distinct: the loop's guard compares a map's size with a list's. */
  lemma {:induction false} AllConfiguredEndsLoopIff(confs: seq<VehicleConf>, vehicles: map<Name, Parts>)
    requires vehicles.Keys == Elems(Names(confs))
    ensures |vehicles.Keys| == |confs| <==> Distinct(Names(confs))
  {
    SizeOfElems(Names(confs));
  }

  /** All vehicles that are not there wait for another one. */
  predicate OthersWait(confs: seq<VehicleConf>, simulators: map<Name, Simulator>, vehicles: map<Name, Parts>) {
    forall c | c in confs :: c.name in vehicles || Waits(c, vehicles)
  }

  /** One round over all vehicle configurations, whatever their names. */
  method AnyRound(confs: seq<VehicleConf>, simulators: map<Name, Simulator>, start: map<Name, Parts>)
    returns (r: Connected, vehicles: map<Name, Parts>)
    requires forall c | c in confs :: c.Valid()
    ensures start.Keys <= vehicles.Keys <= start.Keys + Elems(Names(confs))
    ensures r.Ready? && vehicles.Keys == start.Keys ==> OthersWait(confs, simulators, vehicles)
  {
    r, vehicles := Ready, start;
    for i := 0 to |confs|
      invariant r.Ready? && start.Keys <= vehicles.Keys <= start.Keys + Elems(Names(confs))
      invariant vehicles.Keys == start.Keys ==> vehicles == start && OthersWait(confs[..i], simulators, start)
    {
      var c := confs[i];
      assert confs[..i + 1] == confs[..i] + [c];
      assert Names(confs)[i] == c.name;
      if c.name !in vehicles {
        var v := NewVehicle(c, simulators, vehicles);
        if v.Failed? {
          return ReturnAbort(c.name, v.error), vehicles;
        } else if v.UnknownSimulator? {
          return ThrowOutOfRange(c.name), vehicles;
        } else if v.Created? {
          vehicles := vehicles[c.name := v.parts];
        }
      }
    }
    assert confs[..|confs|] == confs;
  }

  /** The first vehicle that is not there, if any. */
  method FindMissing(confs: seq<VehicleConf>, vehicles: map<Name, Parts>) returns (c: Option<VehicleConf>)
    ensures c.Some? ==> c.value in confs && c.value.name !in vehicles
    ensures c.None? ==> Elems(Names(confs)) <= vehicles.Keys
  {
    for i := 0 to |confs|
      invariant forall j | 0 <= j < i :: Names(confs)[j] in vehicles
    {
      assert Names(confs)[i] == confs[i].name;
      if confs[i].name !in vehicles {
        return Some(confs[i]);
      }
    }
    return None;
  }

  /** The loop over the vehicles for any configuration, followed for a number of rounds: `None`
      says that it is still going then.  It ends well only if no name occurs twice; so with a
      repeated name it ends only if a vehicle fails or vehicles wait for each other, and once it
      has gone on for more rounds than there are names, it has configured them all and a name
      does occur twice: then it goes on for ever. */
  method VehicleRounds(confs: seq<VehicleConf>, simulators: map<Name, Simulator>, rounds: nat)
    returns (r: Option<Connected>, vehicles: map<Name, Parts>)
    requires forall c | c in confs :: c.Valid()
    ensures r == Some(Ready) ==> Distinct(Names(confs)) && vehicles.Keys == Elems(Names(confs))
    ensures r.None? && rounds > |Elems(Names(confs))| ==>
      vehicles.Keys == Elems(Names(confs)) && !Distinct(Names(confs))
  {
    vehicles := map[];
    ghost var names := Elems(Names(confs));
    var k := 0;
    while |vehicles.Keys| != |confs|
      invariant vehicles.Keys <= names && k <= rounds
      invariant vehicles.Keys == names || k <= |vehicles.Keys|
      decreases rounds - k
    {
      if k == rounds {
        SubsetSize(vehicles.Keys, names);
        SizeOfElems(Names(confs));
        return None, vehicles;
      }
      k := k + 1;
      ghost var start := vehicles.Keys;
      var m, one := |vehicles.Keys|, Ready;
      one, vehicles := AnyRound(confs, simulators, vehicles);
      SubsetSize(start, vehicles.Keys);
      if !one.Ready? {
        return Some(one), vehicles;
      }
      if |vehicles.Keys| == m {
        var missing := FindMissing(confs, vehicles);
        if missing.Some? {
          return Some(ThrowModelError(Unresolved(missing.value.name, missing.value.source.vehicle_))), vehicles;
        }
      }
    }
    SubsetSize(vehicles.Keys, names);
    SizeOfElems(Names(confs));
    return Some(Ready), vehicles;
  }
}

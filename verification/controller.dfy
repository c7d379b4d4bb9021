/**
  The `VehicleGen` controller: strategy selection at construction, and the
  per-tick `run` step that dispatches to single-vehicle spawning, the
  precomputed dynamic schedule, or the one-off burst load of a recorded
  demand file. Simulator calls are replaced by a log of insertions; what the
  simulator reports back (vehicle count, route ids) and the random draws of
  one step arrive in an `Env` value.
 */
module Controller {
  import opened Common
  import opened Router
  import Schedule

  /** The generation function `__init__` assigns to `gen_vehicles`, with its private state. */
  datatype Strategy =
    | Single
    | Dynamic(schedule: seq<seq<Edge>>, cursor: nat)
    | LinearCycle
    | RealCycle
    | Unassigned

  /** One vehicle handed to the simulator. */
  datatype Insertion =
    // `vehicle.addFull` on the origin's own route, then `setRoute` with the random walk
    | Spawned(id: string, origin: Edge, route: seq<Edge>)
    // `vehicle.add` on a recorded route with a recorded departure time
    | Scheduled(id: string, routeId: string, depart: real)

  /** The controller's state: clock `t`, `stop_gen`, the `vehicles_created` counter and the insertions so far. */
  datatype VehicleGen = VehicleGen(
    net: Network,
    strategy: Strategy,
    t: nat,
    stopGen: bool,
    created: nat,
    log: seq<Insertion>)

  /** What one `run` call reads from outside: simulator answers, random draws, the loaded recording. */
  datatype Env = Env(
    liveVehicles: nat,                 // conn.vehicle.getIDCount()
    originPick: nat,                   // np.random.choice(self.origins)
    routePicks: seq<nat>,              // np.random.choice over outgoing edges, one per routing step
    routeIds: seq<string>,             // conn.route.getIDList()
    recording: map<string, seq<real>>) // the unpickled start times per route

  // ---------------------------------------------------------------------------
  // Strategy selection
  // ---------------------------------------------------------------------------

  datatype Kind = SingleKind | DynamicKind | LinearKind | RealKind | NoKind

  /** `demand[:6] == 'linear'`; a shorter string is its own slice. */
  predicate IsLinearDemand(demand: string) {
    |demand| >= 6 && demand[..6] == "linear"
  }

  /**
    The `if/elif` chain of `__init__`. `single` wins; then `dynamic` demand or
    train mode; then a `linear` prefix; then `real`. Any other demand leaves
    `gen_vehicles` unassigned.
   */
  function Dispatch(demand: string, mode: string): (k: Kind)
    ensures k == SingleKind <==> demand == "single"
    ensures k == DynamicKind <==> demand != "single" && (demand == "dynamic" || mode == "train")
    ensures k == LinearKind <==> demand != "single" && demand != "dynamic" && mode != "train" && IsLinearDemand(demand)
    ensures k == RealKind <==> demand == "real" && mode != "train"
    ensures k == NoKind <==>
      demand !in {"single", "dynamic", "real"} && mode != "train" && !IsLinearDemand(demand)
  {
    if demand == "single" then SingleKind
    else if demand == "dynamic" || mode == "train" then DynamicKind
    else if IsLinearDemand(demand) then LinearKind
    else if demand == "real" then RealKind
    else NoKind
  }

  function KindOf(s: Strategy): Kind {
    match s
    case Single => SingleKind
    case Dynamic(_, _) => DynamicKind
    case LinearCycle => LinearKind
    case RealCycle => RealKind
    case Unassigned => NoKind
  }

  /** Training always runs on the synthetic schedule, whatever the demand, unless it is `single`. */
  lemma TrainModeUsesDynamic(demand: string)
    requires demand != "single"
    ensures Dispatch(demand, "train") == DynamicKind
  {
  }

  // ---------------------------------------------------------------------------
  // Vehicle ids
  // ---------------------------------------------------------------------------

  /** `e + str(self.vehicles_created)` in `gen_veh`. */
  function VehicleId(e: Edge, n: nat): string {
    e + NatToString(n)
  }

  /** `'v_' + id_route + '_' + str(self.vehicles_created)` in `addVehicle`. */
  function RecordedId(routeId: string, n: nat): string {
    "v_" + routeId + "_" + NatToString(n)
  }

  /** The id an insertion gets when the counter stands at `n`. */
  function ExpectedId(ins: Insertion, n: nat): string {
    match ins
    case Spawned(_, origin, _) => VehicleId(origin, n)
    case Scheduled(_, routeId, _) => RecordedId(routeId, n)
  }

  /** Each insertion carries the id built from the counter value at its position. */
  ghost predicate WellNumbered(log: seq<Insertion>) {
    forall k :: 0 <= k < |log| ==> log[k].id == ExpectedId(log[k], k)
  }

  /** Spawned vehicles start on their origin edge and follow a well-formed route. */
  ghost predicate WellRouted(net: Network, log: seq<Insertion>) {
    forall k :: 0 <= k < |log| && log[k].Spawned? ==>
      log[k].origin in net.origins && IsRouteFrom(net, log[k].origin, log[k].route)
  }

  /** The state invariant `run` keeps. */
  ghost predicate Valid(g: VehicleGen) {
    && g.created == |g.log|
    && WellNumbered(g.log)
    && WellRouted(g.net, g.log)
    && (g.strategy.Dynamic? ==> g.strategy.cursor <= |g.strategy.schedule|)
  }

  predicate EndsInDigit(s: string) {
    |s| > 0 && IsDigit(s[|s| - 1])
  }

  /** A digit string glued after a prefix that does not end in a digit can be split off again. */
  lemma SplitDigitSuffix(a1: string, d1: string, a2: string, d2: string)
    requires a1 + d1 == a2 + d2
    requires AllDigits(d1) && AllDigits(d2)
    requires !EndsInDigit(a1) && !EndsInDigit(a2)
    ensures a1 == a2 && d1 == d2
  {
    var s := a1 + d1;
    assert a1 == s[..|a1|] && a2 == s[..|a2|];
    assert d1 == s[|a1|..] && d2 == s[|a2|..];
  }

  /** Recorded-demand ids never collide: the `_` separator keeps route name and counter apart. */
  lemma RecordedIdInjective(r1: string, n1: nat, r2: string, n2: nat)
    requires RecordedId(r1, n1) == RecordedId(r2, n2)
    ensures r1 == r2 && n1 == n2
  {
    assert ("v_" + r1 + "_") + NatToString(n1) == ("v_" + r2 + "_") + NatToString(n2);
    SplitDigitSuffix("v_" + r1 + "_", NatToString(n1), "v_" + r2 + "_", NatToString(n2));
    NatToStringInjective(n1, n2);
    assert r1 == ("v_" + r1 + "_")[2..|r1| + 2];
  }

  /** Random-walk ids are unique when no origin name ends in a digit. */
  lemma VehicleIdInjective(e1: Edge, n1: nat, e2: Edge, n2: nat)
    requires VehicleId(e1, n1) == VehicleId(e2, n2)
    requires !EndsInDigit(e1) && !EndsInDigit(e2)
    ensures e1 == e2 && n1 == n2
  {
    SplitDigitSuffix(e1, NatToString(n1), e2, NatToString(n2));
    NatToStringInjective(n1, n2);
  }

  /** Without that naming condition two vehicles can share an id: vehicle 0 on `e1` and vehicle 10 on `e`. */
  lemma VehicleIdCollision()
    ensures VehicleId("e1", 0) == VehicleId("e", 10)
  {
    assert NatToString(0) == "0";
    assert NatToString(1) == "1";
    assert NatToString(10) == NatToString(1) + [DigitChar(0)] == "10";
  }

  /** Distinct insertions of a numbered log have distinct ids, provided no origin name ends in a digit. */
  lemma LogIdsUnique(log: seq<Insertion>, i: nat, j: nat)
    requires WellNumbered(log)
    requires i < j < |log|
    requires log[i].Spawned? == log[j].Spawned?
    requires log[i].Spawned? ==> !EndsInDigit(log[i].origin) && !EndsInDigit(log[j].origin)
    ensures log[i].id != log[j].id
  {
    if log[i].id == log[j].id {
      if log[i].Spawned? {
        VehicleIdInjective(log[i].origin, i, log[j].origin, j);
      } else {
        RecordedIdInjective(log[i].routeId, i, log[j].routeId, j);
      }
    }
  }

  // ---------------------------------------------------------------------------
  // gen_veh, gen_single, gen_dynamic
  // ---------------------------------------------------------------------------

  /**
    `gen_veh`: one vehicle per edge, in order, numbered from the counter, each
    routed by a random walk from the first edge of its registered route. The
    walks share the oracle: each takes the indices the previous one left.
   */
  function GenVeh(net: Network, created: nat, edges: seq<Edge>, picks: seq<nat>): (r: Result<seq<Insertion>, Error>)
    ensures r.Success? ==> |r.value| == |edges|
    ensures r.Success? ==> SpawnedBatch(net, created, edges, r.value)
    ensures r.Success? ==> WalksFrom(net, edges, picks, RoutesOf(r.value))
    decreases |edges|
  {
    if |edges| == 0 then Success([])
    else
      var e := edges[0];
      var routes := OriginRoutes(net.origins);
      if e !in routes then Failure(UnknownRoute(e))
      else
        var route :- Walk(net, routes[e][0], picks);
        var rest :- GenVeh(net, created + 1, edges[1..], picks[|route| - 1..]);
        ConsSpawned(net, created, edges, picks, route, rest);
        Success([Spawned(VehicleId(e, created), e, route)] + rest)
  }

  /** The route an insertion follows; a recorded vehicle's route lives in the simulator and is not modelled. */
  function RouteOf(ins: Insertion): seq<Edge> {
    match ins
    case Spawned(_, _, route) => route
    case Scheduled(_, _, _) => []
  }

  function RoutesOf(batch: seq<Insertion>): (routes: seq<seq<Edge>>)
    ensures |routes| == |batch|
    ensures forall k :: 0 <= k < |batch| ==> routes[k] == RouteOf(batch[k])
  {
    seq(|batch|, k requires 0 <= k < |batch| => RouteOf(batch[k]))
  }

  /** Oracle indices a walk along `p` consumes: one per step. */
  function Steps(p: seq<Edge>): nat {
    if |p| == 0 then 0 else |p| - 1
  }

  /** Where the walk of vehicle `k` starts reading the shared oracle: after the steps of all vehicles before it. */
  function Offset(routes: seq<seq<Edge>>, k: nat): nat
    requires k <= |routes|
    decreases k
  {
    if k == 0 then 0 else Steps(routes[0]) + Offset(routes[1..], k - 1)
  }

  /**
    `routes` are the walks of a batch spawned on `edges`: each edge is an
    origin, and vehicle `k` walks from its edge on the oracle from the first
    index the vehicles before it left unread.
   */
  ghost predicate WalksFrom(net: Network, edges: seq<Edge>, picks: seq<nat>, routes: seq<seq<Edge>>) {
    && |routes| == |edges|
    && forall k :: 0 <= k < |edges| ==> edges[k] in net.origins && WalksAt(net, edges[k], routes[k], picks, Offset(routes, k))
  }

  /** `route` is a well-formed route from `e` that follows the oracle from index `off` on. */
  ghost predicate WalksAt(net: Network, e: Edge, route: seq<Edge>, picks: seq<nat>, off: nat) {
    off <= |picks| && IsRouteFrom(net, e, route) && FollowsPicks(net, route, picks[off..])
  }

  /** A batch on `edges` can be routed with the oracle `picks`. */
  ghost predicate Routable(net: Network, edges: seq<Edge>, picks: seq<nat>) {
    exists routes :: WalksFrom(net, edges, picks, routes)
  }

  /** Reading from `s + o` is reading the oracle left after the first `s` indices from `o`. */
  lemma WalksAtShift(net: Network, e: Edge, route: seq<Edge>, picks: seq<nat>, s: nat, o: nat)
    requires s <= |picks|
    ensures WalksAt(net, e, route, picks, s + o) <==> WalksAt(net, e, route, picks[s..], o)
  {
    if s + o <= |picks| {
      assert picks[s..][o..] == picks[s + o..];
    }
  }

  lemma ConsWalks(net: Network, edges: seq<Edge>, picks: seq<nat>, route: seq<Edge>, rest: seq<seq<Edge>>)
    requires |edges| > 0 && edges[0] in net.origins
    requires IsRouteFrom(net, edges[0], route) && FollowsPicks(net, route, picks)
    requires WalksFrom(net, edges[1..], picks[Steps(route)..], rest)
    ensures WalksFrom(net, edges, picks, [route] + rest)
  {
    var routes := [route] + rest;
    assert routes[1..] == rest;
    forall k | 0 <= k < |edges|
      ensures edges[k] in net.origins && WalksAt(net, edges[k], routes[k], picks, Offset(routes, k))
    {
      if k == 0 {
        assert picks[0..] == picks;
      } else {
        assert edges[k] == edges[1..][k - 1] && routes[k] == rest[k - 1];
        WalksAtShift(net, edges[k], routes[k], picks, Steps(route), Offset(rest, k - 1));
      }
    }
  }

  lemma TailWalks(net: Network, edges: seq<Edge>, picks: seq<nat>, routes: seq<seq<Edge>>)
    requires |edges| > 0 && WalksFrom(net, edges, picks, routes)
    ensures Steps(routes[0]) <= |picks|
    ensures WalksFrom(net, edges[1..], picks[Steps(routes[0])..], routes[1..])
  {
    assert WalksAt(net, edges[0], routes[0], picks, Offset(routes, 0));
    assert picks[0..] == picks;
    var s := Steps(routes[0]);
    forall k | 0 <= k < |edges| - 1
      ensures edges[1..][k] in net.origins && WalksAt(net, edges[1..][k], routes[1..][k], picks[s..], Offset(routes[1..], k))
    {
      assert edges[1..][k] == edges[k + 1] && routes[1..][k] == routes[k + 1];
      assert WalksAt(net, edges[k + 1], routes[k + 1], picks, Offset(routes, k + 1));
      WalksAtShift(net, edges[k + 1], routes[k + 1], picks, s, Offset(routes[1..], k));
    }
  }

  /**
    The converse of `GenVeh`'s contract: when every vehicle of the batch has a
    walk on its share of the oracle, `gen_veh` succeeds with exactly those routes.
   */
  lemma {:induction false} GenVehComplete(net: Network, created: nat, edges: seq<Edge>, picks: seq<nat>, routes: seq<seq<Edge>>)
    requires WalksFrom(net, edges, picks, routes)
    ensures GenVeh(net, created, edges, picks).Success?
    ensures RoutesOf(GenVeh(net, created, edges, picks).value) == routes
    decreases |edges|
  {
    if |edges| > 0 {
      var e := edges[0];
      assert WalksAt(net, e, routes[0], picks, Offset(routes, 0)) && picks[0..] == picks;
      WalkComplete(net, e, routes[0], picks);
      TailWalks(net, edges, picks, routes);
      GenVehComplete(net, created + 1, edges[1..], picks[|routes[0]| - 1..], routes[1..]);
      var rest := GenVeh(net, created + 1, edges[1..], picks[|routes[0]| - 1..]).value;
      GenVehCons(net, created, edges, picks, routes[0], rest);
      ConsRoutes(Spawned(VehicleId(e, created), e, routes[0]), rest);
      assert [routes[0]] + routes[1..] == routes;
    }
  }

  /** One step of `gen_veh`: the first vehicle's walk, then the rest of the batch on the choices left. */
  lemma GenVehCons(net: Network, created: nat, edges: seq<Edge>, picks: seq<nat>, route: seq<Edge>, rest: seq<Insertion>)
    requires |edges| > 0 && edges[0] in net.origins
    requires Walk(net, edges[0], picks) == Success(route)
    requires GenVeh(net, created + 1, edges[1..], picks[|route| - 1..]) == Success(rest)
    ensures GenVeh(net, created, edges, picks) == Success([Spawned(VehicleId(edges[0], created), edges[0], route)] + rest)
  {
    assert OriginRoutes(net.origins)[edges[0]][0] == edges[0];
  }

  /** `gen_veh` succeeds exactly on the batches that can be routed. */
  lemma GenVehRoutable(net: Network, created: nat, edges: seq<Edge>, picks: seq<nat>)
    ensures GenVeh(net, created, edges, picks).Success? <==> Routable(net, edges, picks)
  {
    if Routable(net, edges, picks) {
      var routes :| WalksFrom(net, edges, picks, routes);
      GenVehComplete(net, created, edges, picks, routes);
    }
  }

  /**
    `batch` spawns one vehicle per edge of `edges`, in order, on that origin
    edge, numbered from `created`, each on a well-formed route from its origin.
   */
  ghost predicate SpawnedBatch(net: Network, created: nat, edges: seq<Edge>, batch: seq<Insertion>) {
    && |batch| == |edges|
    && forall k :: 0 <= k < |edges| ==>
         && batch[k].Spawned?
         && batch[k].origin == edges[k]
         && batch[k].id == VehicleId(edges[k], created + k)
         && edges[k] in net.origins
         && IsRouteFrom(net, edges[k], batch[k].route)
  }

  lemma ConsBatch(net: Network, created: nat, edges: seq<Edge>, first: Insertion, rest: seq<Insertion>)
    requires |edges| > 0 && edges[0] in net.origins
    requires first.Spawned? && first.id == VehicleId(edges[0], created) && first.origin == edges[0]
    requires IsRouteFrom(net, edges[0], first.route)
    requires SpawnedBatch(net, created + 1, edges[1..], rest)
    ensures SpawnedBatch(net, created, edges, [first] + rest)
  {
    var batch := [first] + rest;
    forall k | 1 <= k < |edges|
      ensures batch[k].Spawned? && batch[k].origin == edges[k]
      ensures batch[k].id == VehicleId(edges[k], created + k)
      ensures edges[k] in net.origins && IsRouteFrom(net, edges[k], batch[k].route)
    {
      assert batch[k] == rest[k - 1] && edges[k] == edges[1..][k - 1];
    }
  }

  /** The first vehicle on its walk, followed by the rest of the batch on theirs, is the whole batch. */
  lemma ConsSpawned(net: Network, created: nat, edges: seq<Edge>, picks: seq<nat>, route: seq<Edge>, rest: seq<Insertion>)
    requires |edges| > 0 && edges[0] in net.origins
    requires IsRouteFrom(net, edges[0], route) && FollowsPicks(net, route, picks)
    requires SpawnedBatch(net, created + 1, edges[1..], rest)
    requires WalksFrom(net, edges[1..], picks[Steps(route)..], RoutesOf(rest))
    ensures SpawnedBatch(net, created, edges, [Spawned(VehicleId(edges[0], created), edges[0], route)] + rest)
    ensures WalksFrom(net, edges, picks, RoutesOf([Spawned(VehicleId(edges[0], created), edges[0], route)] + rest))
  {
    var first := Spawned(VehicleId(edges[0], created), edges[0], route);
    ConsBatch(net, created, edges, first, rest);
    ConsRoutes(first, rest);
    ConsWalks(net, edges, picks, route, RoutesOf(rest));
  }

  lemma ConsRoutes(first: Insertion, rest: seq<Insertion>)
    ensures RoutesOf([first] + rest) == [RouteOf(first)] + RoutesOf(rest)
  {
    assert RoutesOf([first] + rest)[1..] == RoutesOf(rest);
  }

  /** A batch numbered from the end of a numbered log keeps it numbered. */
  lemma AppendNumbered(log: seq<Insertion>, batch: seq<Insertion>)
    requires WellNumbered(log)
    requires forall k :: 0 <= k < |batch| ==> batch[k].id == ExpectedId(batch[k], |log| + k)
    ensures WellNumbered(log + batch)
  {
    var log' := log + batch;
    forall k | 0 <= k < |log'|
      ensures log'[k].id == ExpectedId(log'[k], k)
    {
      if k >= |log| {
        assert log'[k] == batch[k - |log|];
      }
    }
  }

  /** A batch of well-routed spawns keeps the log well routed. */
  lemma AppendRouted(net: Network, log: seq<Insertion>, batch: seq<Insertion>)
    requires WellRouted(net, log) && WellRouted(net, batch)
    ensures WellRouted(net, log + batch)
  {
    var log' := log + batch;
    forall k | 0 <= k < |log'| && log'[k].Spawned?
      ensures log'[k].origin in net.origins && IsRouteFrom(net, log'[k].origin, log'[k].route)
    {
      if k >= |log| {
        assert log'[k] == batch[k - |log|];
      }
    }
  }

  /**
    `log'` is `log` followed by one spawned vehicle per edge of `edges`, in
    order, on that origin edge, numbered with the counter value at its position.
   */
  ghost predicate SpawnsBatch(log: seq<Insertion>, log': seq<Insertion>, edges: seq<Edge>) {
    && |log'| == |log| + |edges|
    && log'[..|log|] == log
    && forall k :: 0 <= k < |edges| ==>
         && log'[|log| + k].Spawned?
         && log'[|log| + k].origin == edges[k]
         && log'[|log| + k].id == VehicleId(edges[k], |log| + k)
  }

  /**
    `log'` is `log` followed by the spawned batch of `edges`, and each new
    vehicle is on the walk its share of the oracle `picks` selects.
   */
  ghost predicate AddsBatch(net: Network, log: seq<Insertion>, log': seq<Insertion>, edges: seq<Edge>, picks: seq<nat>) {
    && SpawnsBatch(log, log', edges)
    && WalksFrom(net, edges, picks, RoutesOf(log'[|log|..]))
  }

  /** Append a batch of spawned vehicles and advance the counter by the batch size. */
  function Spawn(g: VehicleGen, edges: seq<Edge>, picks: seq<nat>): (r: Result<VehicleGen, Error>)
    requires Valid(g)
    ensures r.Success? <==> Routable(g.net, edges, picks)
    ensures r.Success? ==> Valid(r.value)
    ensures r.Success? ==> r.value == g.(created := g.created + |edges|, log := r.value.log)
    ensures r.Success? ==> AddsBatch(g.net, g.log, r.value.log, edges, picks)
  {
    GenVehRoutable(g.net, g.created, edges, picks);
    var batch :- GenVeh(g.net, g.created, edges, picks);
    AppendSpawned(g, edges, batch);
    assert (g.log + batch)[|g.log|..] == batch;
    Success(g.(created := g.created + |batch|, log := g.log + batch))
  }

  /** Appending a spawned batch numbered from the counter keeps the state valid. */
  lemma AppendSpawned(g: VehicleGen, edges: seq<Edge>, batch: seq<Insertion>)
    requires Valid(g)
    requires SpawnedBatch(g.net, g.created, edges, batch)
    ensures Valid(g.(created := g.created + |batch|, log := g.log + batch))
    ensures SpawnsBatch(g.log, g.log + batch, edges)
  {
    SpawnedBatchNumbered(g.net, g.created, edges, batch);
    AppendNumbered(g.log, batch);
    SpawnedBatchRouted(g.net, g.created, edges, batch);
    AppendRouted(g.net, g.log, batch);
    SpawnedBatchAppended(g.net, g.log, edges, batch);
  }

  lemma SpawnedBatchNumbered(net: Network, created: nat, edges: seq<Edge>, batch: seq<Insertion>)
    requires SpawnedBatch(net, created, edges, batch)
    ensures forall k :: 0 <= k < |batch| ==> batch[k].id == ExpectedId(batch[k], created + k)
  {
  }

  lemma SpawnedBatchRouted(net: Network, created: nat, edges: seq<Edge>, batch: seq<Insertion>)
    requires SpawnedBatch(net, created, edges, batch)
    ensures WellRouted(net, batch)
  {
  }

  lemma SpawnedBatchAppended(net: Network, log: seq<Insertion>, edges: seq<Edge>, batch: seq<Insertion>)
    requires SpawnedBatch(net, |log|, edges, batch)
    ensures SpawnsBatch(log, log + batch, edges)
  {
    var log' := log + batch;
    assert log'[..|log|] == log;
    forall k | 0 <= k < |edges|
      ensures log'[|log| + k].Spawned? && log'[|log| + k].origin == edges[k]
      ensures log'[|log| + k].id == VehicleId(edges[k], |log| + k)
    {
      assert log'[|log| + k] == batch[k];
    }
  }

  /**
    `gen_single`: when the network is empty, spawn one vehicle on the origin
    the draw selects; otherwise do nothing.
   */
  function GenSingle(g: VehicleGen, env: Env): (r: Result<VehicleGen, Error>)
    requires Valid(g)
    ensures r.Success? ==> Valid(r.value)
    ensures env.liveVehicles != 0 ==> r == Success(g)
    ensures env.liveVehicles == 0 && |g.net.origins| == 0 ==> r == Failure(EmptyChoice)
    ensures env.liveVehicles == 0 && |g.net.origins| > 0 ==>
      (r.Success? <==> Routable(g.net, [Pick(g.net.origins, env.originPick)], env.routePicks))
    ensures env.liveVehicles == 0 && r.Success? ==>
      && |g.net.origins| > 0
      && r.value == g.(created := g.created + 1, log := r.value.log)
      && AddsBatch(g.net, g.log, r.value.log, [Pick(g.net.origins, env.originPick)], env.routePicks)
  {
    if env.liveVehicles == 0 then
      var e :- Choose(g.net.origins, env.originPick);
      Spawn(g, [e], env.routePicks)
    else Success(g)
  }

  /**
    `gen_dynamic`: spawn the next tick's batch of the schedule. An exhausted
    schedule is swallowed: nothing happens, and `stop_gen` stays as it was.
   */
  function GenDynamic(g: VehicleGen, env: Env): (r: Result<VehicleGen, Error>)
    requires Valid(g) && g.strategy.Dynamic?
    ensures r.Success? ==> Valid(r.value)
    ensures g.strategy.cursor >= |g.strategy.schedule| ==> r == Success(g)
    ensures g.strategy.cursor < |g.strategy.schedule| ==>
      (r.Success? <==> Routable(g.net, g.strategy.schedule[g.strategy.cursor], env.routePicks))
    ensures g.strategy.cursor < |g.strategy.schedule| && r.Success? ==>
      && r.value == g.(strategy := g.strategy.(cursor := g.strategy.cursor + 1),
                       created := g.created + |g.strategy.schedule[g.strategy.cursor]|,
                       log := r.value.log)
      && AddsBatch(g.net, g.log, r.value.log, g.strategy.schedule[g.strategy.cursor], env.routePicks)
  {
    var Dynamic(schedule, cursor) := g.strategy;
    if cursor < |schedule| then
      var next := g.(strategy := Dynamic(schedule, cursor + 1));
      assert next.log == g.log && next.created == g.created && next.net == g.net;
      Spawn(next, schedule[cursor], env.routePicks)
    else Success(g)
  }

  // ---------------------------------------------------------------------------
  // gen_fr_cycle: burst load of a recorded demand file
  // ---------------------------------------------------------------------------

  /** The colour table names the first twelve recorded routes. */
  const ColourSlots: nat := 12

  /** `[route for route in routes if route[0] == 'r']`, which fails on an empty id. */
  function RecordedRoutes(ids: seq<string>): (r: Result<seq<string>, Error>)
    ensures r.Success? <==> forall i :: 0 <= i < |ids| ==> |ids[i]| > 0
    ensures r.Success? ==> |r.value| <= |ids|
    decreases |ids|
  {
    if |ids| == 0 then Success([])
    else if |ids[0]| == 0 then Failure(EmptyRouteId)
    else
      var rest :- RecordedRoutes(ids[1..]);
      if ids[0][0] == 'r' then Success([ids[0]] + rest) else Success(rest)
  }

  /** The filter keeps exactly the ids that start with `r`. */
  lemma {:induction false} RecordedRoutesMembers(ids: seq<string>)
    requires RecordedRoutes(ids).Success?
    ensures forall x :: x in RecordedRoutes(ids).value <==> x in ids && x[0] == 'r'
    decreases |ids|
  {
    if |ids| > 0 {
      assert ids == [ids[0]] + ids[1..];
      RecordedRoutesCons(ids[0], ids[1..]);
      RecordedRoutesMembers(ids[1..]);
    }
  }

  /**
    The filter keeps the order of the ids: filtering a concatenation is the
    concatenation of the filtered parts. With the membership clauses of
    `RecordedRoutes` for a single id, this fixes the result completely.
   */
  lemma {:induction false} RecordedRoutesSplit(a: seq<string>, b: seq<string>)
    requires RecordedRoutes(a).Success? && RecordedRoutes(b).Success?
    ensures RecordedRoutes(a + b) == Success(RecordedRoutes(a).value + RecordedRoutes(b).value)
    decreases |a|
  {
    if |a| == 0 {
      assert a + b == b && RecordedRoutes(a) == Success([]);
      assert [] + RecordedRoutes(b).value == RecordedRoutes(b).value;
    } else {
      var x, a' := a[0], a[1..];
      assert a == [x] + a';
      RecordedRoutesCons(x, a');
      RecordedRoutesSplit(a', b);
      assert a + b == [x] + (a' + b);
      RecordedRoutesCons(x, a' + b);
      var head := if x[0] == 'r' then [x] else [];
      var ra, rb := RecordedRoutes(a').value, RecordedRoutes(b).value;
      assert head + (ra + rb) == (head + ra) + rb;
    }
  }

  lemma RecordedRoutesCons(x: string, ids: seq<string>)
    ensures RecordedRoutes([x] + ids).Success? <==> |x| > 0 && RecordedRoutes(ids).Success?
    ensures RecordedRoutes([x] + ids).Success? ==>
      RecordedRoutes([x] + ids).value == (if x[0] == 'r' then [x] else []) + RecordedRoutes(ids).value
  {
    assert ([x] + ids)[0] == x && ([x] + ids)[1..] == ids;
    if |x| > 0 && x[0] != 'r' && RecordedRoutes(ids).Success? {
      assert [] + RecordedRoutes(ids).value == RecordedRoutes(ids).value;
    }
  }

  /** An id starting with `r` stays, any other non-empty id is dropped. */
  lemma RecordedRoutesSingle(x: string)
    requires |x| > 0
    ensures RecordedRoutes([x]) == Success(if x[0] == 'r' then [x] else [])
  {
    var r := RecordedRoutes([x]).value;
    RecordedRoutesMembers([x]);
    if x[0] == 'r' {
      assert x in r && |r| <= 1;
      assert r == [x];
    } else {
      assert x !in r;
      assert r == [];
    }
  }

  /** Vehicles a recording defines for the given routes. */
  function Recorded(routes: seq<string>, rec: map<string, seq<real>>): nat
    decreases |routes|
  {
    if |routes| == 0 then 0
    else (if routes[0] in rec then |rec[routes[0]]| else 0) + Recorded(routes[1..], rec)
  }

  /**
    The burst loop: every start time of every route becomes one vehicle, route
    by route in order, numbered from the counter. A route missing from the
    recording, or a route with vehicles but no colour, fails.
   */
  function Burst(created: nat, routes: seq<string>, coloured: set<string>, rec: map<string, seq<real>>)
    : (r: Result<seq<Insertion>, Error>)
    ensures r.Success? <==> Loadable(routes, coloured, rec)
    ensures r.Success? ==> BurstOf(created, routes, rec, r.value)
    decreases |routes|
  {
    if |routes| == 0 then Success([])
    else
      var route := routes[0];
      LoadableCons(routes, coloured, rec);
      if route !in rec then Failure(MissingRecording(route))
      else
        var times := rec[route];
        if |times| > 0 && route !in coloured then Failure(NoColour(route))
        else
          var rest :- Burst(created + |times|, routes[1..], coloured, rec);
          ConsBurst(created, routes, rec, rest);
          Success(RouteBurst(created, route, times) + rest)
  }

  /** Every route has a recording, and every route with vehicles has a colour. */
  ghost predicate Loadable(routes: seq<string>, coloured: set<string>, rec: map<string, seq<real>>) {
    forall i :: 0 <= i < |routes| ==> routes[i] in rec && (|rec[routes[i]]| > 0 ==> routes[i] in coloured)
  }

  lemma LoadableCons(routes: seq<string>, coloured: set<string>, rec: map<string, seq<real>>)
    requires |routes| > 0
    ensures Loadable(routes, coloured, rec) <==>
      routes[0] in rec && (|rec[routes[0]]| > 0 ==> routes[0] in coloured) && Loadable(routes[1..], coloured, rec)
  {
    if routes[0] in rec && (|rec[routes[0]]| > 0 ==> routes[0] in coloured) && Loadable(routes[1..], coloured, rec) {
      forall i | 1 <= i < |routes|
        ensures routes[i] in rec && (|rec[routes[i]]| > 0 ==> routes[i] in coloured)
      {
        assert routes[i] == routes[1..][i - 1];
      }
    }
  }

  /**
    `batch` is the burst of `routes`: exactly one recorded vehicle per start
    time, each placed, timed, routed and numbered as `LoadsRecording` says.
   */
  ghost predicate BurstOf(created: nat, routes: seq<string>, rec: map<string, seq<real>>, batch: seq<Insertion>) {
    && |batch| == Recorded(routes, rec)
    && LoadsRecording(created, routes, rec, batch)
    && forall k :: 0 <= k < |batch| ==>
         && batch[k].Scheduled?
         && batch[k].id == RecordedId(batch[k].routeId, created + k)
         && batch[k].routeId in routes
  }

  /**
    `batch` holds one vehicle per recorded start time: the `k`-th start time of
    route `routes[i]` is the vehicle at position `Recorded(routes[..i], rec) + k`,
    after the start times of all routes before it. It departs at that time on that
    route, numbered with the counter value at its position.
   */
  ghost predicate LoadsRecording(created: nat, routes: seq<string>, rec: map<string, seq<real>>, batch: seq<Insertion>) {
    forall i: nat, k: nat :: i < |routes| && routes[i] in rec && k < |rec[routes[i]]| ==>
      LoadsAtPos(created, routes, rec, batch, i, k)
  }

  /** The `k`-th start time of route `routes[i]` is the vehicle after those of all routes before it. */
  ghost predicate LoadsAtPos(created: nat, routes: seq<string>, rec: map<string, seq<real>>, batch: seq<Insertion>, i: nat, k: nat)
    requires i < |routes| && routes[i] in rec && k < |rec[routes[i]]|
  {
    && Recorded(routes[..i], rec) + k < |batch|
    && batch[Recorded(routes[..i], rec) + k] ==
         Scheduled(RecordedId(routes[i], created + Recorded(routes[..i], rec) + k), routes[i], rec[routes[i]][k])
  }

  /** Counting the routes before position `i` peels off the first route like `Recorded` itself. */
  lemma RecordedPrefixCons(routes: seq<string>, rec: map<string, seq<real>>, i: nat)
    requires 0 < i <= |routes| && routes[0] in rec
    ensures Recorded(routes[..i], rec) == |rec[routes[0]]| + Recorded(routes[1..][..i - 1], rec)
  {
    assert routes[..i][0] == routes[0];
    assert routes[..i][1..] == routes[1..][..i - 1];
  }

  /** The vehicles of one route: one per start time, in order, numbered from the counter. */
  function RouteBurst(created: nat, route: string, times: seq<real>): (b: seq<Insertion>)
    ensures |b| == |times|
    ensures forall k :: 0 <= k < |b| ==> b[k] == Scheduled(RecordedId(route, created + k), route, times[k])
  {
    seq(|times|, k requires 0 <= k < |times| => Scheduled(RecordedId(route, created + k), route, times[k]))
  }

  /** The burst of the first route followed by the burst of the others is the burst of all routes. */
  lemma ConsBurst(created: nat, routes: seq<string>, rec: map<string, seq<real>>, rest: seq<Insertion>)
    requires |routes| > 0 && routes[0] in rec
    requires BurstOf(created + |rec[routes[0]]|, routes[1..], rec, rest)
    ensures BurstOf(created, routes, rec, RouteBurst(created, routes[0], rec[routes[0]]) + rest)
  {
    var first := RouteBurst(created, routes[0], rec[routes[0]]);
    ConsLoads(created, routes, rec, first, rest);
    var batch := first + rest;
    forall k | 0 <= k < |batch|
      ensures batch[k].Scheduled? && batch[k].id == RecordedId(batch[k].routeId, created + k)
      ensures batch[k].routeId in routes
    {
      if k >= |first| {
        assert batch[k] == rest[k - |first|];
        assert rest[k - |first|].routeId in routes[1..];
      }
    }
  }

  /** The burst of the first route followed by the burst of the others loads the whole recording. */
  lemma ConsLoads(created: nat, routes: seq<string>, rec: map<string, seq<real>>, first: seq<Insertion>, rest: seq<Insertion>)
    requires |routes| > 0 && routes[0] in rec
    requires |first| == |rec[routes[0]]|
    requires forall k :: 0 <= k < |first| ==>
      first[k] == Scheduled(RecordedId(routes[0], created + k), routes[0], rec[routes[0]][k])
    requires LoadsRecording(created + |first|, routes[1..], rec, rest)
    ensures LoadsRecording(created, routes, rec, first + rest)
  {
    forall i: nat, k: nat | i < |routes| && routes[i] in rec && k < |rec[routes[i]]|
      ensures LoadsAtPos(created, routes, rec, first + rest, i, k)
    {
      var batch := first + rest;
      if i == 0 {
        assert routes[..0] == [];
      } else {
        RecordedPrefixCons(routes, rec, i);
        var o' := Recorded(routes[1..][..i - 1], rec);
        assert routes[1..][i - 1] == routes[i];
        assert LoadsAtPos(created + |first|, routes[1..], rec, rest, i - 1, k);
        assert batch[|first| + o' + k] == rest[o' + k];
      }
    }
  }

  /** `self.color_routes`: the first twelve recorded routes get a colour. */
  function ColourTable(routes: seq<string>): (c: set<string>)
    requires |routes| >= ColourSlots
    ensures forall x :: x in c <==> exists i :: 0 <= i < ColourSlots && routes[i] == x
  {
    set i | 0 <= i < ColourSlots :: routes[i]
  }

  /**
    `gen_fr_cycle`: load every recorded vehicle at once, then stop generating.
    It succeeds exactly when every route id is non-empty, at least twelve
    recorded routes exist, and the burst finds a recording for every route and
    a colour for every route with vehicles.
   */
  function GenFrCycle(g: VehicleGen, env: Env): (r: Result<VehicleGen, Error>)
    requires Valid(g)
    ensures r.Success? <==>
      && RecordedRoutes(env.routeIds).Success?
      && |RecordedRoutes(env.routeIds).value| >= ColourSlots
      && Loadable(RecordedRoutes(env.routeIds).value, ColourTable(RecordedRoutes(env.routeIds).value), env.recording)
    ensures r.Success? ==> Valid(r.value)
    ensures r.Success? ==>
      && r.value == g.(created := r.value.created, log := r.value.log, stopGen := true)
      && |r.value.log| >= |g.log| && r.value.log[..|g.log|] == g.log
    ensures r.Success? ==>
      var routes := RecordedRoutes(env.routeIds).value;
      && |r.value.log| == |g.log| + Recorded(routes, env.recording)
      && LoadsRecording(g.created, routes, env.recording, r.value.log[|g.log|..])
  {
    var routes :- RecordedRoutes(env.routeIds);
    if |routes| < ColourSlots then Failure(TooFewRoutes(|routes|))
    else
      var batch :- Burst(g.created, routes, ColourTable(routes), env.recording);
      AppendScheduled(g, batch);
      assert (g.log + batch)[|g.log|..] == batch;
      Success(g.(created := g.created + |batch|, log := g.log + batch, stopGen := true))
  }

  /** Appending a numbered batch of recorded vehicles keeps the state valid. */
  lemma AppendScheduled(g: VehicleGen, batch: seq<Insertion>)
    requires Valid(g)
    requires forall k :: 0 <= k < |batch| ==>
      batch[k].Scheduled? && batch[k].id == RecordedId(batch[k].routeId, g.created + k)
    ensures Valid(g.(created := g.created + |batch|, log := g.log + batch, stopGen := true))
    ensures (g.log + batch)[..|g.log|] == g.log
  {
    AppendNumbered(g.log, batch);
    AppendRouted(g.net, g.log, batch);
    assert (g.log + batch)[..|g.log|] == g.log;
  }

  // ---------------------------------------------------------------------------
  // run
  // ---------------------------------------------------------------------------

  /** The generator state after one generation: only the dynamic strategy moves, by one batch. */
  function Advance(s: Strategy): Strategy {
    if s.Dynamic? && s.cursor < |s.schedule| then s.(cursor := s.cursor + 1) else s
  }

  /** The recorded-demand strategies, which stop generating after their one burst. */
  predicate IsCycle(s: Strategy) {
    s.LinearCycle? || s.RealCycle?
  }

  /** `self.gen_vehicles()`: the strategy's generator; the clock and the network are left alone. */
  function GenVehicles(g: VehicleGen, env: Env): (r: Result<VehicleGen, Error>)
    requires Valid(g)
    ensures r.Success? ==> Valid(r.value)
    ensures g.strategy.Unassigned? ==> r == Failure(NoGenerator)
    ensures r.Success? ==>
      && r.value.net == g.net && r.value.t == g.t
      && r.value.strategy == Advance(g.strategy)
      && r.value.stopGen == (g.stopGen || IsCycle(g.strategy))
  {
    match g.strategy
    case Unassigned => Failure(NoGenerator)
    case Single => GenSingle(g, env)
    case Dynamic(_, _) => GenDynamic(g, env)
    case LinearCycle => GenFrCycle(g, env)
    case RealCycle => GenFrCycle(g, env)
  }

  /**
    `run`: generate unless stopped, then advance the clock. The clock advances
    by one on every call that returns, insertions are only ever appended, and
    the counter grows by exactly the number of new insertions.
   */
  function Run(g: VehicleGen, env: Env): (r: Result<VehicleGen, Error>)
    requires Valid(g)
    ensures r.Success? ==> Valid(r.value)
    ensures r.Success? ==> r.value.t == g.t + 1 && r.value.net == g.net
    ensures r.Success? ==> |r.value.log| >= |g.log| && r.value.log[..|g.log|] == g.log
    ensures r.Success? ==> r.value.created - g.created == |r.value.log| - |g.log|
    ensures g.stopGen ==> r == Success(g.(t := g.t + 1))
    ensures !g.stopGen && r.Success? ==>
      r.value.strategy == Advance(g.strategy) && r.value.stopGen == IsCycle(g.strategy)
  {
    if g.stopGen then Success(g.(t := g.t + 1))
    else
      var g' :- GenVehicles(g, env);
      Success(g'.(t := g.t + 1))
  }

  /**
    An unstopped single-vehicle tick: nothing while vehicles are live,
    otherwise the vehicle `gen_single` spawns, and the strategy stays.
   */
  lemma RunSingle(g: VehicleGen, env: Env)
    requires Valid(g) && !g.stopGen && g.strategy.Single?
    ensures env.liveVehicles != 0 ==> Run(g, env) == Success(g.(t := g.t + 1))
    ensures env.liveVehicles == 0 && |g.net.origins| > 0 ==>
      (Run(g, env).Success? <==> Routable(g.net, [Pick(g.net.origins, env.originPick)], env.routePicks))
    ensures env.liveVehicles == 0 && Run(g, env).Success? ==>
      && |g.net.origins| > 0
      && Run(g, env).value == g.(t := g.t + 1, created := g.created + 1, log := Run(g, env).value.log)
      && AddsBatch(g.net, g.log, Run(g, env).value.log, [Pick(g.net.origins, env.originPick)], env.routePicks)
  {
    assert GenVehicles(g, env) == GenSingle(g, env);
  }

  /**
    An unstopped dynamic tick: the schedule's next batch is spawned and the
    cursor moves past it; past the end nothing happens.
   */
  lemma RunDynamic(g: VehicleGen, env: Env)
    requires Valid(g) && !g.stopGen && g.strategy.Dynamic?
    ensures g.strategy.cursor >= |g.strategy.schedule| ==> Run(g, env) == Success(g.(t := g.t + 1))
    ensures g.strategy.cursor < |g.strategy.schedule| ==>
      (Run(g, env).Success? <==> Routable(g.net, g.strategy.schedule[g.strategy.cursor], env.routePicks))
    ensures g.strategy.cursor < |g.strategy.schedule| && Run(g, env).Success? ==>
      && Run(g, env).value == g.(t := g.t + 1,
                                 strategy := g.strategy.(cursor := g.strategy.cursor + 1),
                                 created := g.created + |g.strategy.schedule[g.strategy.cursor]|,
                                 log := Run(g, env).value.log)
      && AddsBatch(g.net, g.log, Run(g, env).value.log, g.strategy.schedule[g.strategy.cursor], env.routePicks)
  {
    assert GenVehicles(g, env) == GenDynamic(g, env);
  }

  /**
    An unstopped recorded-demand tick: it succeeds exactly when the burst can
    be loaded; otherwise the failure of `gen_fr_cycle` is the failure of the tick.
   */
  lemma RunCycle(g: VehicleGen, env: Env)
    requires Valid(g) && !g.stopGen && IsCycle(g.strategy)
    ensures Run(g, env).Success? <==>
      && RecordedRoutes(env.routeIds).Success?
      && |RecordedRoutes(env.routeIds).value| >= ColourSlots
      && Loadable(RecordedRoutes(env.routeIds).value, ColourTable(RecordedRoutes(env.routeIds).value), env.recording)
    ensures Run(g, env).Failure? ==> Run(g, env) == Failure(GenFrCycle(g, env).error)
  {
    assert GenVehicles(g, env) == GenFrCycle(g, env);
  }

  /** The strategy a run of ticks can reach: the same kind, and for a schedule the same schedule. */
  predicate SameStrategy(s: Strategy, s': Strategy) {
    && KindOf(s') == KindOf(s)
    && (s.Dynamic? ==> s'.Dynamic? && s'.schedule == s.schedule && s.cursor <= s'.cursor)
  }

  /** Successive `run` calls, one environment per tick. */
  function RunAll(g: VehicleGen, envs: seq<Env>): (r: Result<VehicleGen, Error>)
    requires Valid(g)
    ensures r.Success? ==> Valid(r.value) && r.value.t == g.t + |envs| && r.value.net == g.net
    ensures r.Success? ==> |r.value.log| >= |g.log| && r.value.log[..|g.log|] == g.log
    ensures r.Success? ==> r.value.created - g.created == |r.value.log| - |g.log|
    ensures r.Success? ==> SameStrategy(g.strategy, r.value.strategy)
    decreases |envs|
  {
    if |envs| == 0 then Success(g)
    else
      var g' :- Run(g, envs[0]);
      var r := RunAll(g', envs[1..]);
      if r.Success? then
        assert r.value.log[..|g.log|] == r.value.log[..|g'.log|][..|g.log|];
        r
      else r
  }

  /** Once `stop_gen` is set, any number of further ticks only advance the clock. */
  lemma {:induction false} StoppedStaysQuiet(g: VehicleGen, envs: seq<Env>)
    requires Valid(g) && g.stopGen
    ensures RunAll(g, envs) == Success(g.(t := g.t + |envs|))
    decreases |envs|
  {
    if |envs| > 0 {
      var g' := g.(t := g.t + 1);
      assert Run(g, envs[0]) == Success(g');
      StoppedStaysQuiet(g', envs[1..]);
      assert g'.(t := g'.t + |envs[1..]|) == g.(t := g.t + |envs|);
    }
  }

  /**
    A recorded-demand controller adds one vehicle per recorded start time on
    its first tick and sets `stop_gen`; every later tick adds nothing.
   */
  lemma BurstThenStop(g: VehicleGen, env: Env, routes: seq<string>, later: seq<Env>) returns (g': VehicleGen)
    requires Valid(g) && !g.stopGen && IsCycle(g.strategy)
    requires RecordedRoutes(env.routeIds) == Success(routes)
    requires |routes| >= ColourSlots && Loadable(routes, ColourTable(routes), env.recording)
    ensures Run(g, env) == Success(g') && g'.stopGen && g'.strategy == g.strategy
    ensures |g'.log| == |g.log| + Recorded(routes, env.recording)
    ensures LoadsRecording(g.created, routes, env.recording, g'.log[|g.log|..])
    ensures RunAll(g', later) == Success(g'.(t := g'.t + |later|))
  {
    var f := GenFrCycle(g, env);
    assert GenVehicles(g, env) == f;
    g' := f.value.(t := g.t + 1);
    StoppedStaysQuiet(g', later);
  }

  /** Pulling past the end of the dynamic schedule is silent: no error, no vehicle, `stop_gen` untouched. */
  lemma {:induction false} ExhaustedScheduleIsQuiet(g: VehicleGen, envs: seq<Env>)
    requires Valid(g) && g.strategy.Dynamic? && g.strategy.cursor >= |g.strategy.schedule|
    ensures RunAll(g, envs) == Success(g.(t := g.t + |envs|))
    decreases |envs|
  {
    if |envs| > 0 {
      assert Run(g, envs[0]) == Success(g.(t := g.t + 1));
      ExhaustedScheduleIsQuiet(g.(t := g.t + 1), envs[1..]);
    }
  }

  /** A schedule of empty batches (scale 0) never adds a vehicle and never fails. */
  lemma {:induction false} EmptyScheduleAddsNothing(g: VehicleGen, envs: seq<Env>)
    requires Valid(g) && g.strategy.Dynamic?
    requires forall i :: 0 <= i < |g.strategy.schedule| ==> g.strategy.schedule[i] == []
    ensures RunAll(g, envs).Success?
    ensures RunAll(g, envs).value.log == g.log
    decreases |envs|
  {
    if |envs| > 0 {
      var g' := Run(g, envs[0]).value;
      assert Run(g, envs[0]).Success? && g'.log == g.log && g'.strategy.Dynamic?;
      assert g'.strategy.schedule == g.strategy.schedule;
      EmptyScheduleAddsNothing(g', envs[1..]);
    }
  }

  // ---------------------------------------------------------------------------
  // __init__
  // ---------------------------------------------------------------------------

  /**
    `__init__`: zeroed clock and counter, `stop_gen` false, and the strategy the
    dispatch chain selects. Only the dynamic strategy does work here: it builds
    the whole schedule, which can fail as `gen_dynamic_demand` fails. The count
    loop's ticks and the shifted counts come back with it (both empty for the
    other strategies).
   */
  method Init(net: Network, simLen: nat, demand: string, scale: real, mode: string,
              draws: seq<real>, shiftDraw: nat, picks: seq<nat>)
    returns (r: Result<VehicleGen, Error>, ticks: seq<Schedule.Tick>, shifted: seq<nat>)
    ensures r.Success? ==> Valid(r.value)
    ensures r.Success? ==> r.value.t == 0 && !r.value.stopGen && r.value.created == 0 && r.value.log == []
    ensures r.Success? ==> r.value.net == net && KindOf(r.value.strategy) == Dispatch(demand, mode)
    ensures Dispatch(demand, mode) != DynamicKind ==> r.Success?
    ensures Dispatch(demand, mode) == DynamicKind ==> Schedule.CountLoopOutcome(simLen, draws, ticks)
    ensures Dispatch(demand, mode) == DynamicKind && |ticks| == simLen && (mode == "test" || simLen > 0) ==>
      Schedule.ShiftCounts(Schedule.Counts(ticks), mode, shiftDraw) == Success(shifted) && |shifted| == simLen
    ensures Dispatch(demand, mode) == DynamicKind ==>
      (r.Success? <==>
        && |ticks| == simLen
        && (mode == "test" || simLen > 0)
        && (forall t :: 0 <= t < simLen ==> Schedule.Drawable(scale, shifted[t], net.origins))
        && Schedule.PicksNeeded(shifted, scale) <= |picks|)
    ensures r.Success? && r.value.strategy.Dynamic? ==>
      && r.value.strategy.cursor == 0
      && |r.value.strategy.schedule| == simLen
      && |ticks| == simLen && Schedule.IsCountRun(draws, ticks) && |shifted| == simLen
      && (forall t :: 0 <= t < simLen ==> |r.value.strategy.schedule[t]| == Schedule.ExpandedSize(scale, shifted[t]))
      && (forall t, k :: 0 <= t < simLen && 0 <= k < |r.value.strategy.schedule[t]| ==> r.value.strategy.schedule[t][k] in net.origins)
      && (forall t :: 0 <= t < simLen && t >= simLen - Schedule.TailTicks ==> r.value.strategy.schedule[t] == [])
      && (scale == 0.0 ==> forall t :: 0 <= t < simLen ==> r.value.strategy.schedule[t] == [])
  {
    var kind := Dispatch(demand, mode);
    var strategy: Strategy;
    ticks, shifted := [], [];
    if kind == DynamicKind {
      var s;
      s, ticks, shifted := Schedule.GenDynamicDemand(simLen, scale, mode, net.origins, draws, shiftDraw, picks);
      if s.Failure? {
        return Failure(s.error), ticks, shifted;
      }
      strategy := Dynamic(s.value, 0);
    } else {
      strategy := match kind
        case SingleKind => Single
        case LinearKind => LinearCycle
        case RealKind => RealCycle
        case _ => Unassigned;
    }
    r := Success(VehicleGen(net, strategy, 0, false, 0, []));
  }
}

/**
  The random-walk router `set_veh_route`: from the vehicle's first edge,
  repeatedly step to a randomly chosen outgoing edge until a destination edge
  is reached. The source loops for as long as the walk needs; here the
  outgoing-edge choices are a finite index oracle, one index per step, and a
  walk that needs more steps than the oracle holds ends in `OracleExhausted`.
 */
module Router {
  import opened Common

  /** The network data the generator reads: origin list, destination edges, outgoing edges per edge. */
  datatype Network = Network(origins: seq<Edge>, destinations: set<Edge>, outgoing: map<Edge, seq<Edge>>)

  /**
    `add_origin_routes`: one single-edge route per origin, named after it. A
    vehicle added on route `e` therefore reports `[e]` as its route, and
    `getRoute(veh)[0]` is its origin edge.
   */
  function OriginRoutes(origins: seq<Edge>): (m: map<string, seq<Edge>>)
    ensures m.Keys == set o | o in origins
    ensures forall o :: o in origins ==> m[o] == [o] && m[o][0] == o
  {
    map o | o in origins :: [o]
  }

  /** `b` is one of the outgoing edges of `a`. */
  predicate Step(net: Network, a: Edge, b: Edge) {
    a in net.outgoing && b in net.outgoing[a]
  }

  /**
    A well-formed route from `e`: it starts at `e`, each consecutive pair is an
    outgoing step, its last edge is a destination and no earlier edge is.
   */
  predicate IsRouteFrom(net: Network, e: Edge, p: seq<Edge>) {
    && |p| > 0
    && p[0] == e
    && p[|p| - 1] in net.destinations
    && (forall k :: 0 <= k < |p| - 1 ==> p[k] !in net.destinations)
    && (forall k :: 0 <= k < |p| - 1 ==> Step(net, p[k], p[k + 1]))
  }

  /** Each step of `p` is the outgoing edge the oracle index of that step selects. */
  predicate FollowsPicks(net: Network, p: seq<Edge>, picks: seq<nat>) {
    && |p| - 1 <= |picks|
    && forall k :: 0 <= k < |p| - 1 ==>
         p[k] in net.outgoing && |net.outgoing[p[k]]| > 0 && p[k + 1] == Pick(net.outgoing[p[k]], picks[k])
  }

  /**
    The walk from edge `e`. A lookup of an edge the network does not list
    fails as the source's `netdata['edge'][e]` does, an edge without outgoing
    edges fails as `np.random.choice([])` does.
   */
  function Walk(net: Network, e: Edge, picks: seq<nat>): (r: Result<seq<Edge>, Error>)
    ensures r.Success? ==> IsRouteFrom(net, e, r.value) && FollowsPicks(net, r.value, picks)
    ensures e in net.destinations ==> r == Success([e])
    decreases |picks|
  {
    if e in net.destinations then Success([e])
    else if e !in net.outgoing then Failure(UnknownEdge(e))
    else if |net.outgoing[e]| == 0 then Failure(EmptyChoice)
    else if |picks| == 0 then Failure(OracleExhausted)
    else
      match Walk(net, Pick(net.outgoing[e], picks[0]), picks[1..])
      case Failure(err) => Failure(err)
      case Success(rest) => Success([e] + rest)
  }

  /**
    The converse: every well-formed route that follows the oracle's choices
    is the one the walk returns. Together with `Walk`'s contract, the walk
    succeeds with `p` exactly when `p` is such a route.
   */
  lemma {:induction false} WalkComplete(net: Network, e: Edge, p: seq<Edge>, picks: seq<nat>)
    requires IsRouteFrom(net, e, p) && FollowsPicks(net, p, picks)
    ensures Walk(net, e, picks) == Success(p)
    decreases |picks|
  {
    if |p| > 1 {
      assert Step(net, p[0], p[1]) && p[0] !in net.destinations;
      var next := Pick(net.outgoing[e], picks[0]);
      assert next == p[1];
      var tail := p[1..];
      forall k | 0 <= k < |tail| - 1
        ensures tail[k] !in net.destinations && Step(net, tail[k], tail[k + 1])
        ensures tail[k] in net.outgoing && |net.outgoing[tail[k]]| > 0
        ensures tail[k + 1] == Pick(net.outgoing[tail[k]], picks[1..][k])
      {
        assert tail[k] == p[k + 1] && tail[k + 1] == p[k + 2];
      }
      WalkComplete(net, next, tail, picks[1..]);
      assert e !in net.destinations && e in net.outgoing && |net.outgoing[e]| > 0 && |picks| > 0;
      assert Walk(net, e, picks) == Success([e] + tail);
      assert [e] + tail == p;
    } else {
      assert p == [e];
    }
  }

  /**
    A route of `n` edges reads exactly the first `n - 1` oracle indices: any
    oracle that agrees on them yields the same route. So the indices after
    them are untouched and can be handed to the next vehicle.
   */
  lemma WalkReadsOnlyItsSteps(net: Network, e: Edge, picks: seq<nat>, q: seq<nat>)
    requires Walk(net, e, picks).Success?
    requires |Walk(net, e, picks).value| - 1 <= |q|
    requires q[..|Walk(net, e, picks).value| - 1] == picks[..|Walk(net, e, picks).value| - 1]
    ensures Walk(net, e, q) == Walk(net, e, picks)
  {
    var p := Walk(net, e, picks).value;
    forall k | 0 <= k < |p| - 1
      ensures q[k] == picks[k]
    {
      assert q[k] == q[..|p| - 1][k];
    }
    WalkComplete(net, e, p, q);
  }

  /** The example network A -> B -> D routes A along A, B, D whatever the oracle says. */
  lemma LineNetworkRoute(picks: seq<nat>)
    requires |picks| >= 2
    ensures Walk(Network(["A"], {"D"}, map["A" := ["B"], "B" := ["D"]]), "A", picks) == Success(["A", "B", "D"])
  {
    var net := Network(["A"], {"D"}, map["A" := ["B"], "B" := ["D"]]);
    assert "A" !in net.destinations && "B" !in net.destinations;
    assert Pick(net.outgoing["A"], picks[0]) == "B";
    assert Pick(net.outgoing["B"], picks[1]) == "D";
    assert picks[1..][0] == picks[1] && picks[1..][1..] == picks[2..];
    assert Walk(net, "D", picks[2..]) == Success(["D"]);
    assert "B" in net.outgoing && |net.outgoing["B"]| > 0;
    assert Pick(net.outgoing["B"], picks[1..][0]) == "D";
    assert ["B"] + ["D"] == ["B", "D"] && ["A"] + ["B", "D"] == ["A", "B", "D"];
    assert Walk(net, "B", picks[1..]) == Success(["B", "D"]);
  }

  /**
    On a network where an edge loops back to itself without reaching a
    destination, no finite oracle is enough: the source's loop never ends.
   */
  lemma {:induction false} SelfLoopNeverArrives(net: Network, e: Edge, picks: seq<nat>)
    requires e !in net.destinations
    requires e in net.outgoing && net.outgoing[e] == [e]
    ensures Walk(net, e, picks) == Failure(OracleExhausted)
    decreases |picks|
  {
    if |picks| > 0 {
      assert Pick(net.outgoing[e], picks[0]) == e;
      SelfLoopNeverArrives(net, e, picks[1..]);
    }
  }
}

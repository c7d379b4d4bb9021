/**
  The dynamic demand schedule of `gen_dynamic_demand`. Each tick adds one
  second of arrival budget, exponential headways are subtracted from it until
  it is used up, and the number of headways that left budget over is that
  tick's vehicle count; the overshoot is carried into the next tick. The count
  list is then rotated by a random phase (none in test mode), its last minute
  is zeroed, and every count becomes a list of randomly chosen origin edges.

  The exponential headways, the phase and the origin choices are oracle
  inputs; the sine-shaped mean of the headways only parameterises the
  headways, so it does not appear.
 */
module Schedule {
  import opened Common

  /** Seconds of arrival budget each tick adds (`second = 1.0`, `second += 1.0`). */
  const TickBudget: real := 1.0

  /** Ticks at the end of the horizon whose count is forced to zero (`v_schedule[-60:] = 0`). */
  const TailTicks: nat := 60

  function Sum(ds: seq<real>): real
    decreases |ds|
  {
    if |ds| == 0 then 0.0 else ds[0] + Sum(ds[1..])
  }

  lemma SumPrefixes(ds: seq<real>)
    requires |ds| > 0
    ensures forall j :: 1 <= j <= |ds| ==> Sum(ds[..j]) == ds[0] + Sum(ds[1..][..j - 1])
  {
    forall j | 1 <= j <= |ds|
      ensures Sum(ds[..j]) == ds[0] + Sum(ds[1..][..j - 1])
    {
      assert ds[..j][1..] == ds[1..][..j - 1];
    }
  }

  // ---------------------------------------------------------------------------
  // One tick of the budget loop
  // ---------------------------------------------------------------------------

  /** What one tick did: the vehicles it counted and the headway draws it consumed. */
  datatype Drain = Drain(count: nat, used: nat)

  /**
    The meaning of one tick started with `budget` on the draw stream `ds`. A
    non-positive budget skips the loop. Otherwise the loop consumes one draw
    more than it counts: the counted draws each left the budget positive, the
    last one did not.
   */
  ghost predicate Drains(budget: real, ds: seq<real>, d: Drain) {
    && d.used <= |ds|
    && if budget <= 0.0 then d == Drain(0, 0)
       else
         && d.used == d.count + 1
         && (forall j :: 1 <= j <= d.count ==> budget - Sum(ds[..j]) > 0.0)
         && budget - Sum(ds[..d.used]) <= 0.0
  }

  /** The draws supplied run out while the budget is still positive. */
  ghost predicate Starves(budget: real, ds: seq<real>) {
    budget > 0.0 && forall j :: 0 <= j <= |ds| ==> budget - Sum(ds[..j]) > 0.0
  }

  /** The inner `while second > 0.0` loop on the draw stream `ds`. */
  function DrainTick(budget: real, ds: seq<real>): (r: Option<Drain>)
    ensures r.Some? ==> Drains(budget, ds, r.value)
    ensures r.None? ==> Starves(budget, ds)
    decreases |ds|
  {
    if budget <= 0.0 then Some(Drain(0, 0))
    else if |ds| == 0 then None
    else
      var rest := budget - ds[0];
      SumPrefixes(ds);
      match DrainTick(rest, ds[1..])
      case None => None
      case Some(d) => Some(if rest > 0.0 then Drain(d.count + 1, d.used + 1) else Drain(0, 1))
  }

  /** A tick's outcome is determined by its budget and the draws: `Drains` is functional. */
  lemma DrainsUnique(budget: real, ds: seq<real>, d1: Drain, d2: Drain)
    requires Drains(budget, ds, d1) && Drains(budget, ds, d2)
    ensures d1 == d2
  {
  }

  // ---------------------------------------------------------------------------
  // The count loop over the whole horizon
  // ---------------------------------------------------------------------------

  /** One tick of the count loop: budget on entry, first draw used, vehicles counted, draws used. */
  datatype Tick = Tick(budget: real, start: nat, count: nat, used: nat)

  /** The draws a tick consumed. */
  function Consumed(draws: seq<real>, tk: Tick): seq<real>
    requires tk.start + tk.used <= |draws|
  {
    draws[tk.start..][..tk.used]
  }

  /** Budget carried out of a tick: what the consumed draws left, plus the next second. */
  function Carry(draws: seq<real>, tk: Tick): real
    requires tk.start + tk.used <= |draws|
  {
    tk.budget - Sum(Consumed(draws, tk)) + TickBudget
  }

  /**
    `ticks` is the run of the count loop on `draws`: it starts with one
    second of budget at the first draw, each tick behaves as `Drains` says,
    and each next tick starts where the previous stopped with the carried budget.
   */
  ghost predicate IsCountRun(draws: seq<real>, ticks: seq<Tick>) {
    && (forall t :: 0 <= t < |ticks| ==>
          && ticks[t].start + ticks[t].used <= |draws|
          && Drains(ticks[t].budget, draws[ticks[t].start..], Drain(ticks[t].count, ticks[t].used)))
    && (|ticks| > 0 ==> ticks[0].budget == TickBudget && ticks[0].start == 0)
    && (forall t :: 1 <= t < |ticks| ==>
          && ticks[t].start == ticks[t - 1].start + ticks[t - 1].used
          && ticks[t].budget == Carry(draws, ticks[t - 1]))
  }

  /** Budget the next tick starts with. */
  function NextBudget(draws: seq<real>, ticks: seq<Tick>): real
    requires |ticks| > 0 ==> ticks[|ticks| - 1].start + ticks[|ticks| - 1].used <= |draws|
  {
    if |ticks| == 0 then TickBudget else Carry(draws, ticks[|ticks| - 1])
  }

  /** First draw the next tick reads. */
  function NextStart(ticks: seq<Tick>): nat {
    if |ticks| == 0 then 0 else ticks[|ticks| - 1].start + ticks[|ticks| - 1].used
  }

  /**
    What the count loop leaves behind on a horizon of `simLen` seconds: a run
    of at most `simLen` ticks over `draws`, and when it is short of the
    horizon, the draws left over starve the next tick's budget.
   */
  ghost predicate CountLoopOutcome(simLen: nat, draws: seq<real>, ticks: seq<Tick>) {
    && |ticks| <= simLen
    && IsCountRun(draws, ticks)
    && (|ticks| < simLen ==> NextStart(ticks) <= |draws| && Starves(NextBudget(draws, ticks), draws[NextStart(ticks)..]))
  }

  /** The per-tick vehicle counts of a run. */
  function Counts(ticks: seq<Tick>): (v: seq<nat>)
    ensures |v| == |ticks|
    ensures forall t :: 0 <= t < |ticks| ==> v[t] == ticks[t].count
  {
    seq(|ticks|, t requires 0 <= t < |ticks| => ticks[t].count)
  }

  /** Whatever budget a tick starts with, it carries out at most one second. */
  lemma CarryAtMostOne(draws: seq<real>, tk: Tick)
    requires tk.start <= |draws|
    requires Drains(tk.budget, draws[tk.start..], Drain(tk.count, tk.used))
    ensures Carry(draws, tk) <= TickBudget
  {
    if tk.budget <= 0.0 {
      assert Consumed(draws, tk) == [];
    }
  }

  /** Appending the tick that starts where the run stopped keeps it a run. */
  lemma ExtendRun(draws: seq<real>, ticks: seq<Tick>, tk: Tick)
    requires IsCountRun(draws, ticks)
    requires NextStart(ticks) <= |draws|
    requires tk.start == NextStart(ticks) && tk.budget == NextBudget(draws, ticks)
    requires Drains(tk.budget, draws[tk.start..], Drain(tk.count, tk.used))
    ensures IsCountRun(draws, ticks + [tk])
  {
    var ticks' := ticks + [tk];
    forall t | 1 <= t < |ticks'|
      ensures ticks'[t].start == ticks'[t - 1].start + ticks'[t - 1].used
      ensures ticks'[t].budget == Carry(draws, ticks'[t - 1])
    {
      if t == |ticks| {
        assert ticks'[t - 1] == ticks[|ticks| - 1];
      } else {
        assert ticks'[t] == ticks[t] && ticks'[t - 1] == ticks[t - 1];
      }
    }
  }

  /**
    The count loop of `gen_dynamic_demand`. It yields one count per tick of
    the horizon unless the supplied draws run out, in which case the returned
    ticks are those completed and the next tick's budget starves.
   */
  method CountVehicles(simLen: nat, draws: seq<real>) returns (ticks: seq<Tick>, complete: bool)
    ensures complete <==> |ticks| == simLen
    ensures |ticks| <= simLen
    ensures IsCountRun(draws, ticks)
    ensures forall t :: 0 <= t < |ticks| ==> ticks[t].budget <= TickBudget
    ensures !complete ==> NextStart(ticks) <= |draws| && Starves(NextBudget(draws, ticks), draws[NextStart(ticks)..])
  {
    ticks := [];
    var budget := TickBudget;
    var start := 0;
    while |ticks| < simLen
      invariant |ticks| <= simLen
      invariant IsCountRun(draws, ticks)
      invariant start == NextStart(ticks) && start <= |draws|
      invariant budget == NextBudget(draws, ticks)
      invariant budget <= TickBudget
      invariant forall t :: 0 <= t < |ticks| ==> ticks[t].budget <= TickBudget
    {
      var d := DrainTick(budget, draws[start..]);
      if d.None? {
        complete := false;
        return;
      }
      var tk := Tick(budget, start, d.value.count, d.value.used);
      ExtendRun(draws, ticks, tk);
      CarryAtMostOne(draws, tk);
      ticks := ticks + [tk];
      budget := Carry(draws, tk);
      start := start + tk.used;
    }
    complete := true;
  }

  /** Each tick's count is the number of draws it subtracted while the budget stayed positive. */
  lemma CountIsPositivePrefix(draws: seq<real>, ticks: seq<Tick>, t: nat)
    requires IsCountRun(draws, ticks)
    requires t < |ticks|
    ensures var tk := ticks[t]; var ds := draws[tk.start..];
      forall j :: 1 <= j <= tk.count ==> tk.budget - Sum(ds[..j]) > 0.0
    ensures var tk := ticks[t]; var ds := draws[tk.start..];
      tk.budget > 0.0 ==> tk.budget - Sum(ds[..tk.count + 1]) <= 0.0
    ensures ticks[t].budget <= 0.0 ==> ticks[t].count == 0 && ticks[t].used == 0
  {
  }

  // ---------------------------------------------------------------------------
  // Phase shift and zeroed tail
  // ---------------------------------------------------------------------------

  /** `np.concatenate((v[r:], v[:r]))`: rotation to the left by `r`. */
  function Rotate<T>(v: seq<T>, r: nat): (w: seq<T>)
    requires r <= |v|
    ensures |w| == |v|
    ensures multiset(w) == multiset(v)
    ensures forall i :: 0 <= i < |v| ==> w[i] == v[(i + r) % |v|]
  {
    assert v[..r] + v[r..] == v;
    var w := v[r..] + v[..r];
    forall i | 0 <= i < |v|
      ensures w[i] == v[(i + r) % |v|]
    {
      WrapIndex(i, r, |v|);
    }
    w
  }

  lemma WrapIndex(i: nat, r: nat, n: nat)
    requires i < n && r <= n
    ensures i + r < n ==> (i + r) % n == i + r
    ensures i + r >= n ==> (i + r) % n == i + r - n
  {
    if i + r >= n {
      assert i + r == 1 * n + (i + r - n);
    }
  }

  /** A rotation by zero changes nothing. */
  lemma RotateZero<T>(v: seq<T>)
    ensures Rotate(v, 0) == v
  {
  }

  /** The phase: zero in test mode, otherwise `randint(0, sim_len)`, which fails on an empty range. */
  function ShiftAmount(mode: string, simLen: nat, draw: nat): (r: Result<nat, Error>)
    ensures mode == "test" ==> r == Success(0)
    ensures mode != "test" ==> (r.Success? <==> simLen > 0)
    ensures r.Success? && mode != "test" ==> r.value < simLen
    ensures r.Failure? ==> r.error == EmptyShiftRange
  {
    if mode == "test" then Success(0)
    else if simLen == 0 then Failure(EmptyShiftRange)
    else Success(draw % simLen)
  }

  /** `v[-60:] = 0`: the last `min(60, |v|)` entries become 0, the others stay. */
  function ZeroTail(v: seq<nat>): (w: seq<nat>)
    ensures |w| == |v|
    ensures forall i :: 0 <= i < |v| && i >= |v| - TailTicks ==> w[i] == 0
    ensures forall i :: 0 <= i < |v| - TailTicks ==> w[i] == v[i]
  {
    var keep := if |v| < TailTicks then 0 else |v| - TailTicks;
    v[..keep] + seq(|v| - keep, _ => 0)
  }

  /** Rotate the counts by the phase, then zero the tail. */
  function ShiftCounts(counts: seq<nat>, mode: string, draw: nat): (r: Result<seq<nat>, Error>)
    ensures r.Success? <==> mode == "test" || |counts| > 0
    ensures r.Success? ==> |r.value| == |counts|
    ensures r.Success? ==> forall i :: 0 <= i < |counts| && i >= |counts| - TailTicks ==> r.value[i] == 0
  {
    var shift :- ShiftAmount(mode, |counts|, draw);
    Success(ZeroTail(Rotate(counts, shift)))
  }

  /** In test mode the shift is the identity: only the tail is zeroed. */
  lemma ShiftCountsTestMode(counts: seq<nat>, draw: nat)
    ensures ShiftCounts(counts, "test", draw) == Success(ZeroTail(counts))
  {
    RotateZero(counts);
  }

  /**
    Outside test mode the result is a rotation of the counts, by a phase in
    `[0, |counts|)`, that keeps every count (as a multiset), followed by the zeroed tail.
   */
  lemma ShiftCountsIsRotation(counts: seq<nat>, mode: string, draw: nat) returns (k: nat)
    requires mode != "test" && |counts| > 0
    ensures k < |counts|
    ensures ShiftCounts(counts, mode, draw) == Success(ZeroTail(Rotate(counts, k)))
    ensures multiset(Rotate(counts, k)) == multiset(counts)
  {
    k := draw % |counts|;
  }

  // ---------------------------------------------------------------------------
  // Expansion of counts into origin edges
  // ---------------------------------------------------------------------------

  /** Python's `int(x)`: truncation toward zero. */
  function Trunc(x: real): (i: int)
    ensures x >= 0.0 ==> 0 <= i && i as real <= x < i as real + 1.0
    ensures x < 0.0 ==> i <= 0 && i as real - 1.0 < x <= i as real
  {
    if x >= 0.0 then x.Floor else -((-x).Floor)
  }

  /** `int(scale * n_veh)`: the number of origins drawn for a count. */
  function SampleSize(scale: real, n: nat): int {
    Trunc(scale * n as real)
  }

  /** A count np.random.choice can serve: zero, or a size that is non-negative and drawable from the origins. */
  predicate Drawable(scale: real, n: nat, origins: seq<Edge>) {
    n == 0 || (SampleSize(scale, n) >= 0 && (SampleSize(scale, n) > 0 ==> |origins| > 0))
  }

  /** Length of the edge list a count expands to. */
  function ExpandedSize(scale: real, n: nat): nat {
    if n == 0 || SampleSize(scale, n) < 0 then 0 else SampleSize(scale, n)
  }

  /** Origin choices a whole count list consumes. */
  function PicksNeeded(counts: seq<nat>, scale: real): nat
    decreases |counts|
  {
    if |counts| == 0 then 0 else ExpandedSize(scale, counts[0]) + PicksNeeded(counts[1..], scale)
  }

  /** `np.random.choice(origins, size=len(ks))`, one oracle index per vehicle. */
  function PickEach(origins: seq<Edge>, ks: seq<nat>): (es: seq<Edge>)
    requires |origins| > 0 || |ks| == 0
    ensures |es| == |ks|
    ensures forall i :: 0 <= i < |es| ==> es[i] in origins
  {
    seq(|ks|, i requires 0 <= i < |ks| && |origins| > 0 => Pick(origins, ks[i]))
  }

  /**
    The final list comprehension: a positive count becomes `int(scale * n)`
    edges drawn from the origins, a zero count the empty list. It fails
    where np.random.choice raises, and when the origin choices run out.
   */
  function Expand(counts: seq<nat>, scale: real, origins: seq<Edge>, picks: seq<nat>): (r: Result<seq<seq<Edge>>, Error>)
    ensures r.Success? <==>
      (forall t :: 0 <= t < |counts| ==> Drawable(scale, counts[t], origins))
      && PicksNeeded(counts, scale) <= |picks|
    ensures r.Success? ==> |r.value| == |counts|
    ensures r.Success? ==> forall t :: 0 <= t < |counts| ==> |r.value[t]| == ExpandedSize(scale, counts[t])
    ensures r.Success? ==> forall t, k :: 0 <= t < |counts| && 0 <= k < |r.value[t]| ==> r.value[t][k] in origins
    decreases |counts|
  {
    if |counts| == 0 then Success([])
    else
      var n := counts[0];
      var k := if n == 0 then 0 else SampleSize(scale, n);
      if k < 0 then Failure(NegativeSampleSize)
      else if k > 0 && |origins| == 0 then Failure(EmptyChoice)
      else if |picks| < k then Failure(OracleExhausted)
      else
        var first := PickEach(origins, picks[..k]);
        match Expand(counts[1..], scale, origins, picks[k..])
        case Failure(e) => Failure(e)
        case Success(rest) => Success([first] + rest)
  }

  /** With scale 0 every tick is drawable and expands to nothing. */
  lemma ExpandZeroScale(counts: seq<nat>, origins: seq<Edge>, picks: seq<nat>)
    ensures Expand(counts, 0.0, origins, picks).Success?
    ensures forall t :: 0 <= t < |counts| ==> Expand(counts, 0.0, origins, picks).value[t] == []
  {
    assert PicksNeeded(counts, 0.0) == 0 by {
      PicksNeededZeroScale(counts);
    }
  }

  lemma {:induction false} PicksNeededZeroScale(counts: seq<nat>)
    ensures PicksNeeded(counts, 0.0) == 0
    decreases |counts|
  {
    if |counts| > 0 {
      PicksNeededZeroScale(counts[1..]);
    }
  }

  // ---------------------------------------------------------------------------
  // gen_dynamic_demand
  // ---------------------------------------------------------------------------

  /**
    The second half of the schedule builder: phase shift, zeroed tail and
    expansion of the per-second counts. Besides the schedule it returns the
    shifted counts it was expanded from (empty when the shift fails).
   */
  method ScheduleFromCounts(counts: seq<nat>, scale: real, mode: string, origins: seq<Edge>,
                            shiftDraw: nat, picks: seq<nat>)
    returns (r: Result<seq<seq<Edge>>, Error>, shifted: seq<nat>)
    ensures mode != "test" && |counts| == 0 ==> r == Failure(EmptyShiftRange)
    ensures mode == "test" || |counts| > 0 ==>
      ShiftCounts(counts, mode, shiftDraw) == Success(shifted) && |shifted| == |counts|
    ensures r.Success? <==>
      && (mode == "test" || |counts| > 0)
      && (forall t :: 0 <= t < |counts| ==> Drawable(scale, shifted[t], origins))
      && PicksNeeded(shifted, scale) <= |picks|
    ensures r.Success? && mode == "test" ==> shifted == ZeroTail(counts)
    ensures r.Success? && mode != "test" ==>
      exists k :: 0 <= k < |counts| && shifted == ZeroTail(Rotate(counts, k))
    ensures r.Success? ==> |r.value| == |counts|
    ensures r.Success? ==> forall t :: 0 <= t < |counts| ==> |r.value[t]| == ExpandedSize(scale, shifted[t])
    ensures r.Success? ==> forall t :: 0 <= t < |counts| && t >= |counts| - TailTicks ==> r.value[t] == []
    ensures r.Success? ==> forall t, k :: 0 <= t < |counts| && 0 <= k < |r.value[t]| ==> r.value[t][k] in origins
    ensures scale == 0.0 && r.Success? ==> forall t :: 0 <= t < |counts| ==> r.value[t] == []
    ensures scale == 0.0 && (mode == "test" || |counts| > 0) ==> r.Success?
  {
    shifted := [];
    var s := ShiftCounts(counts, mode, shiftDraw);
    if s.Failure? {
      return Failure(s.error), shifted;
    }
    shifted := s.value;
    if mode == "test" {
      ShiftCountsTestMode(counts, shiftDraw);
    } else {
      var k := ShiftCountsIsRotation(counts, mode, shiftDraw);
    }
    if scale == 0.0 {
      ExpandZeroScale(shifted, origins, picks);
    }
    r := Expand(shifted, scale, origins, picks);
  }

  /**
    The whole schedule builder: count loop, phase shift, zeroed tail and
    expansion. Besides the schedule it returns the count loop's ticks and the
    shifted counts the schedule was expanded from.
   */
  method GenDynamicDemand(simLen: nat, scale: real, mode: string, origins: seq<Edge>,
                          draws: seq<real>, shiftDraw: nat, picks: seq<nat>)
    returns (r: Result<seq<seq<Edge>>, Error>, ticks: seq<Tick>, shifted: seq<nat>)
    ensures CountLoopOutcome(simLen, draws, ticks)
    ensures r.Success? ==> |ticks| == simLen && IsCountRun(draws, ticks)
    ensures r.Success? && mode == "test" ==> shifted == ZeroTail(Counts(ticks))
    ensures r.Success? && mode != "test" ==>
      exists k :: 0 <= k < simLen && shifted == ZeroTail(Rotate(Counts(ticks), k))
    ensures r.Success? ==> |r.value| == simLen && |shifted| == simLen
    ensures r.Success? ==> forall t :: 0 <= t < simLen ==> |r.value[t]| == ExpandedSize(scale, shifted[t])
    ensures r.Success? ==> forall t :: 0 <= t < simLen && t >= simLen - TailTicks ==> r.value[t] == []
    ensures r.Success? ==> forall t, k :: 0 <= t < simLen && 0 <= k < |r.value[t]| ==> r.value[t][k] in origins
    ensures scale == 0.0 && r.Success? ==> forall t :: 0 <= t < simLen ==> r.value[t] == []
    ensures scale == 0.0 && |ticks| == simLen && (mode == "test" || simLen > 0) ==> r.Success?
    ensures |ticks| < simLen ==> r == Failure(OracleExhausted)
    ensures |ticks| == simLen && mode != "test" && simLen == 0 ==> r == Failure(EmptyShiftRange)
    ensures |ticks| == simLen && (mode == "test" || simLen > 0) ==>
      ShiftCounts(Counts(ticks), mode, shiftDraw) == Success(shifted) && |shifted| == simLen
    ensures |ticks| == simLen ==>
      (r.Success? <==>
        && (mode == "test" || simLen > 0)
        && (forall t :: 0 <= t < simLen ==> Drawable(scale, shifted[t], origins))
        && PicksNeeded(shifted, scale) <= |picks|)
  {
    var complete;
    ticks, complete := CountVehicles(simLen, draws);
    if !complete {
      return Failure(OracleExhausted), ticks, [];
    }
    r, shifted := ScheduleFromCounts(Counts(ticks), scale, mode, origins, shiftDraw, picks);
  }
}

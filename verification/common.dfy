/**
  Shared vocabulary of the model: failure-carrying results, the errors the
  vehicle generator and the grid search driver can raise, uniform choice
  driven by an index oracle, and the decimal rendering Python's `str()` gives
  to integers.
 */
module Common {

  /** Road-network edge identifiers and route identifiers are plain strings. */
  type Edge = string

  datatype Option<+T> = None | Some(value: T)

  datatype Result<+T, +E> = Success(value: T) | Failure(error: E) {
    predicate IsFailure() {
      Failure?
    }

    function PropagateFailure<U>(): Result<U, E>
      requires Failure?
    {
      Failure(error)
    }

    function Extract(): T
      requires Success?
    {
      value
    }
  }

  /** The exceptions the vehicle generator can raise, plus one model artifact. */
  datatype Error =
    | FlowRateTooLow(rate: real)      // the assertion at the top of headway_j
    | EmptyShiftRange                 // randint(0, 0) when the horizon is empty
    | NegativeSampleSize              // np.random.choice with a negative size
    | EmptyChoice                     // np.random.choice over an empty list
    | UnknownEdge(edge: Edge)         // netdata['edge'][e] for an edge the network lacks
    | UnknownRoute(route: string)     // a vehicle added on a route id that was never registered
    | NoGenerator                     // gen_vehicles was never assigned
    | EmptyRouteId                    // route[0] on an empty route id
    | TooFewRoutes(count: nat)        // the colour table indexes twelve routes
    | MissingRecording(route: string) // the recording has no entry for a route
    | NoColour(route: string)         // a route beyond the colour table gets a vehicle
    | OracleExhausted                 // the supplied random draws ran out (model only)

  /** The assertion failures of the grid search driver, plus the empty ranking. */
  datatype HpError =
    | UnknownTsc(tsc: string)       // get_hp_dict has no grid for this controller
    | DemandNotReal(demand: string) // main only searches on real demand
    | NoConfigurations              // ranked_hp_fitness[0] on an empty ranking

  /**
    Uniform choice from a non-empty list, driven by an arbitrary index oracle `k`.
    Every index is reachable, so every element can be chosen.
   */
  function Pick<T>(xs: seq<T>, k: nat): (r: T)
    requires |xs| > 0
    ensures r in xs
  {
    xs[k % |xs|]
  }

  /** `np.random.choice(xs)`: fails on an empty list. */
  function Choose<T>(xs: seq<T>, k: nat): (r: Result<T, Error>)
    ensures r.Success? <==> |xs| > 0
    ensures r.Success? ==> r.value in xs
  {
    if |xs| == 0 then Failure(EmptyChoice) else Success(Pick(xs, k))
  }

  function Min(a: real, b: real): real {
    if a <= b then a else b
  }

  function Max(a: real, b: real): real {
    if a >= b then a else b
  }

  predicate IsDigit(c: char) {
    '0' <= c <= '9'
  }

  function DigitChar(d: nat): (c: char)
    requires d < 10
    ensures IsDigit(c)
  {
    (48 + d) as char
  }

  predicate AllDigits(s: string) {
    forall i :: 0 <= i < |s| ==> IsDigit(s[i])
  }

  /** The number a string of decimal digits denotes, the most significant digit first. */
  function DecimalValue(s: string): nat
    requires AllDigits(s)
    decreases |s|
  {
    if |s| == 0 then 0
    else
      assert IsDigit(s[|s| - 1]) && (s[|s| - 1] as int) >= 48;
      10 * DecimalValue(s[..|s| - 1]) + ((s[|s| - 1] as int) - 48)
  }

  /** Python's `str(n)` for a non-negative integer: its decimal digits. */
  function NatToString(n: nat): (s: string)
    ensures |s| > 0 && AllDigits(s)
    ensures n < 10 <==> |s| == 1
    decreases n
  {
    if n < 10 then [DigitChar(n)] else NatToString(n / 10) + [DigitChar(n % 10)]
  }

  /** The printed digits read back as the number, and only zero is printed with a leading `0`. */
  lemma {:induction false} NatToStringValue(n: nat)
    ensures DecimalValue(NatToString(n)) == n
    ensures NatToString(n)[0] == '0' <==> n == 0
    decreases n
  {
    if n >= 10 {
      var s := NatToString(n);
      assert s[..|s| - 1] == NatToString(n / 10);
      assert s[0] == NatToString(n / 10)[0];
      NatToStringValue(n / 10);
    }
  }

  /** Python's `str(i)` for any integer: a minus sign in front of the digits of a negative value. */
  function IntToString(i: int): (s: string)
    ensures |s| > 0 && ' ' !in s
    ensures s[0] == '-' <==> i < 0
    ensures i >= 0 ==> AllDigits(s) && DecimalValue(s) == i
    ensures i < 0 ==> AllDigits(s[1..]) && DecimalValue(s[1..]) == -i
  {
    assert forall n: nat :: ' ' !in NatToString(n) by {
      forall n: nat
        ensures ' ' !in NatToString(n)
      {
        var t := NatToString(n);
        assert forall k :: 0 <= k < |t| ==> t[k] != ' ';
      }
    }
    if i < 0 then
      var s := "-" + NatToString(-i);
      assert s[1..] == NatToString(-i);
      NatToStringValue(-i);
      s
    else
      var s := NatToString(i);
      assert IsDigit(s[0]);
      NatToStringValue(i);
      s
  }

  /** Distinct numbers print as distinct strings. */
  lemma {:induction false} NatToStringInjective(a: nat, b: nat)
    requires NatToString(a) == NatToString(b)
    ensures a == b
    decreases a
  {
    var sa, sb := NatToString(a), NatToString(b);
    if a < 10 {
      assert b < 10;
      assert sa[0] == DigitChar(a) && sb[0] == DigitChar(b);
    } else {
      assert b >= 10;
      assert sa[|sa| - 1] == DigitChar(a % 10);
      assert sb[|sb| - 1] == DigitChar(b % 10);
      assert NatToString(a / 10) == sa[..|sa| - 1] == sb[..|sb| - 1] == NatToString(b / 10);
      NatToStringInjective(a / 10, b / 10);
    }
  }
}

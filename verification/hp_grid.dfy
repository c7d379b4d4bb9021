/**
  The hyperparameter grids of the grid search: the fixed table per signal
  controller (`get_hp_dict`), the flag order (`sorted(hp_dict.keys())`) and
  the configurations (`itertools.product` over the grids in that order).

  A grid value is kept as the text `str()` gives it, since that text is all
  the search ever does with it. A Python dict is kept as its entry list in
  insertion order.
 */
module HpGrid {
  import opened Common

  /** A hyperparameter value as it is printed into a command line. */
  type HpValue = string

  /** A dict from flag name to grid, in insertion order. */
  type HpDict = seq<(string, seq<HpValue>)>

  // ---------------------------------------------------------------------------
  // get_hp_dict
  // ---------------------------------------------------------------------------

  /** `np.arange(lo, hi)`, printed. */
  function Range(lo: nat, hi: nat): (r: seq<HpValue>)
    requires lo <= hi
    ensures |r| == hi - lo
    ensures forall i :: 0 <= i < |r| ==> r[i] == NatToString(lo + i)
  {
    seq(hi - lo, i requires 0 <= i < hi - lo => NatToString(lo + i))
  }

  /** The printed range reads back value by value, and no value repeats. */
  lemma RangeValues(lo: nat, hi: nat)
    requires lo <= hi
    ensures forall i :: 0 <= i < hi - lo ==> AllDigits(Range(lo, hi)[i]) && DecimalValue(Range(lo, hi)[i]) == lo + i
    ensures forall i, j :: 0 <= i < j < hi - lo ==> Range(lo, hi)[i] != Range(lo, hi)[j]
  {
    var r := Range(lo, hi);
    forall i | 0 <= i < hi - lo
      ensures DecimalValue(r[i]) == lo + i
    {
      NatToStringValue(lo + i);
    }
    forall i, j | 0 <= i < j < hi - lo
      ensures r[i] != r[j]
    {
      assert DecimalValue(r[i]) != DecimalValue(r[j]);
    }
  }

  const WebstersGrid: HpDict := [
    ("-cmin", ["40", "60", "80"]),
    ("-cmax", ["160", "180", "200"]),
    ("-satflow", ["0.3", "0.38", "0.44"]),
    ("-f", ["600", "900"])
  ]

  /** Controllers that have a grid. `dqn` and `ddpg` do not. */
  predicate HasGrid(tsc: string) {
    tsc == "websters" || tsc == "maxpressure" || tsc == "uniform"
  }

  /** `get_hp_dict`: a fixed grid table for three controllers, an assertion failure for any other. */
  function GetHpDict(tsc: string): (r: Result<HpDict, HpError>)
    ensures r.Success? <==> HasGrid(tsc)
    ensures r.Failure? ==> r.error == UnknownTsc(tsc)
    ensures r.Success? ==> |r.value| > 0 && DistinctKeys(r.value)
  {
    if tsc == "websters" then Success(WebstersGrid)
    else if tsc == "maxpressure" then Success([("-gmin", Range(1, 31))])
    else if tsc == "uniform" then Success([("-gmin", Range(1, 53))])
    else Failure(UnknownTsc(tsc))
  }

  /** The learning controllers have no grid: asking for one fails. */
  lemma LearningControllersHaveNoGrid()
    ensures GetHpDict("dqn") == Failure(UnknownTsc("dqn"))
    ensures GetHpDict("ddpg") == Failure(UnknownTsc("ddpg"))
  {
  }

  /** The green-time grids run over 1..30 s for max-pressure and 1..52 s for uniform. */
  lemma GreenTimeGrids()
    ensures GetHpDict("maxpressure") == Success([("-gmin", Range(1, 31))])
    ensures |Range(1, 31)| == 30 && Range(1, 31)[0] == "1"
    ensures GetHpDict("uniform") == Success([("-gmin", Range(1, 53))])
    ensures |Range(1, 53)| == 52
  {
    assert NatToString(1) == "1";
  }

  function Keys(d: HpDict): (ks: seq<string>)
    ensures |ks| == |d|
    ensures forall i :: 0 <= i < |d| ==> ks[i] == d[i].0
  {
    seq(|d|, i requires 0 <= i < |d| => d[i].0)
  }

  ghost predicate DistinctKeys(d: HpDict) {
    forall i, j :: 0 <= i < j < |d| ==> d[i].0 != d[j].0
  }

  /** `hp_dict[k]`. */
  function Lookup(d: HpDict, k: string): (g: seq<HpValue>)
    requires k in Keys(d)
    ensures exists i :: 0 <= i < |d| && d[i].0 == k && d[i].1 == g
    decreases |d|
  {
    if d[0].0 == k then d[0].1
    else
      assert k in Keys(d[1..]) by {
        var i :| 0 <= i < |d| && Keys(d)[i] == k;
        assert Keys(d[1..])[i - 1] == k;
      }
      Lookup(d[1..], k)
  }

  // ---------------------------------------------------------------------------
  // sorted(keys): Python's string order
  // ---------------------------------------------------------------------------

  /** Python's `a <= b` on strings: lexicographic by code point. */
  predicate LexLe(a: string, b: string)
    decreases |a|
  {
    |a| == 0 || (|b| > 0 && (a[0] < b[0] || (a[0] == b[0] && LexLe(a[1..], b[1..]))))
  }

  lemma {:induction false} LexLeTotal(a: string, b: string)
    ensures LexLe(a, b) || LexLe(b, a)
    decreases |a|
  {
    if |a| > 0 && |b| > 0 && a[0] == b[0] {
      LexLeTotal(a[1..], b[1..]);
    }
  }

  lemma {:induction false} LexLeTransitive(a: string, b: string, c: string)
    requires LexLe(a, b) && LexLe(b, c)
    ensures LexLe(a, c)
    decreases |a|
  {
    if |a| > 0 && a[0] == b[0] && b[0] == c[0] {
      LexLeTransitive(a[1..], b[1..], c[1..]);
    }
  }

  lemma {:induction false} LexLeAntisymmetric(a: string, b: string)
    requires LexLe(a, b) && LexLe(b, a)
    ensures a == b
    decreases |a|
  {
    if |a| > 0 {
      LexLeAntisymmetric(a[1..], b[1..]);
      assert a == [a[0]] + a[1..] && b == [b[0]] + b[1..];
    }
  }

  ghost predicate Sorted(xs: seq<string>) {
    forall i, j :: 0 <= i < j < |xs| ==> LexLe(xs[i], xs[j])
  }

  /** Insert into a sorted list before the first element not below `x`. */
  function Insert(x: string, xs: seq<string>): (r: seq<string>)
    requires Sorted(xs)
    ensures Sorted(r)
    ensures multiset(r) == multiset(xs) + multiset{x}
    decreases |xs|
  {
    if |xs| == 0 then [x]
    else if LexLe(x, xs[0]) then
      InsertBeforeHead(x, xs);
      [x] + xs
    else
      var rest := Insert(x, xs[1..]);
      InsertAfterHead(x, xs, rest);
      [xs[0]] + rest
  }

  lemma InsertBeforeHead(x: string, xs: seq<string>)
    requires Sorted(xs) && |xs| > 0 && LexLe(x, xs[0])
    ensures Sorted([x] + xs)
    ensures multiset([x] + xs) == multiset(xs) + multiset{x}
  {
    forall j | 0 < j < |xs| + 1
      ensures LexLe(x, ([x] + xs)[j])
    {
      if j > 1 {
        LexLeTransitive(x, xs[0], xs[j - 1]);
      }
    }
  }

  lemma InsertAfterHead(x: string, xs: seq<string>, rest: seq<string>)
    requires Sorted(xs) && |xs| > 0 && !LexLe(x, xs[0])
    requires Sorted(rest) && multiset(rest) == multiset(xs[1..]) + multiset{x}
    ensures Sorted([xs[0]] + rest)
    ensures multiset([xs[0]] + rest) == multiset(xs) + multiset{x}
  {
    assert xs == [xs[0]] + xs[1..];
    LexLeTotal(x, xs[0]);
    forall j | 0 <= j < |rest|
      ensures LexLe(xs[0], rest[j])
    {
      assert rest[j] in multiset(rest);
      if rest[j] != x {
        assert rest[j] in multiset(xs[1..]);
        var m :| 0 <= m < |xs[1..]| && xs[1..][m] == rest[j];
        assert xs[m + 1] == rest[j];
      }
    }
  }

  /** `sorted(xs)`: insertion sort, giving the same strings in Python's order. */
  function SortStrings(xs: seq<string>): (r: seq<string>)
    ensures Sorted(r)
    ensures multiset(r) == multiset(xs)
    decreases |xs|
  {
    if |xs| == 0 then []
    else
      assert xs == [xs[0]] + xs[1..];
      Insert(xs[0], SortStrings(xs[1..]))
  }

  /** The head of a sorted list is at most every element of it. */
  lemma SortedHeadIsLeast(a: seq<string>, x: string)
    requires Sorted(a) && x in a
    ensures LexLe(a[0], x)
  {
    LexLeTotal(x, x);
  }

  /** There is only one sorted arrangement of a collection of strings. */
  lemma {:induction false} SortedUnique(a: seq<string>, b: seq<string>)
    requires Sorted(a) && Sorted(b) && multiset(a) == multiset(b)
    ensures a == b
    decreases |a|
  {
    assert |b| == |multiset(b)| == |a|;
    if |a| > 0 {
      SortedHeadsEqual(a, b);
      MultisetTail(a);
      MultisetTail(b);
      assert Sorted(a[1..]) && Sorted(b[1..]);
      SortedUnique(a[1..], b[1..]);
      assert a == [a[0]] + a[1..] && b == [b[0]] + b[1..];
    }
  }

  lemma SortedHeadsEqual(a: seq<string>, b: seq<string>)
    requires Sorted(a) && Sorted(b) && multiset(a) == multiset(b) && |a| > 0 && |b| > 0
    ensures a[0] == b[0]
  {
    assert a[0] in multiset(b) && b[0] in multiset(a);
    SortedHeadIsLeast(a, b[0]);
    SortedHeadIsLeast(b, a[0]);
    LexLeAntisymmetric(a[0], b[0]);
  }

  lemma MultisetTail<T>(a: seq<T>)
    requires |a| > 0
    ensures multiset(a[1..]) == multiset(a) - multiset{a[0]}
  {
    assert a == [a[0]] + a[1..];
  }

  /** `hp_order` for Webster's controller. */
  lemma WebstersOrder()
    ensures SortStrings(Keys(WebstersGrid)) == ["-cmax", "-cmin", "-f", "-satflow"]
  {
    var expected := ["-cmax", "-cmin", "-f", "-satflow"];
    var ks := Keys(WebstersGrid);
    WebstersKeys();
    WebstersFlagsSorted();
    assert multiset(expected) == multiset(ks) by {
      WebstersFlagsPermuted();
    }
    SortedUnique(SortStrings(ks), expected);
  }

  lemma WebstersKeys()
    ensures Keys(WebstersGrid) == ["-cmin", "-cmax", "-satflow", "-f"]
  {
  }

  lemma WebstersFlagsPermuted()
    ensures multiset(["-cmax", "-cmin", "-f", "-satflow"]) == multiset(["-cmin", "-cmax", "-satflow", "-f"])
  {
  }

  lemma WebstersFlagsSorted()
    ensures Sorted(["-cmax", "-cmin", "-f", "-satflow"])
  {
    assert LexLe("-cmax", "-cmin") by {
      assert "-cmax"[1..] == "cmax" && "-cmin"[1..] == "cmin";
      assert "cmax"[1..] == "max" && "cmin"[1..] == "min";
      assert "max"[1..] == "ax" && "min"[1..] == "in";
    }
    assert LexLe("-cmin", "-f") by {
      assert "-cmin"[1..] == "cmin" && "-f"[1..] == "f";
    }
    assert LexLe("-f", "-satflow") by {
      assert "-f"[1..] == "f" && "-satflow"[1..] == "satflow";
    }
    LexLeTransitive("-cmax", "-cmin", "-f");
    LexLeTransitive("-cmax", "-f", "-satflow");
    LexLeTransitive("-cmin", "-f", "-satflow");
  }

  // ---------------------------------------------------------------------------
  // itertools.product
  // ---------------------------------------------------------------------------

  /** Every element of `xs` put in front of every tail, outer loop over `xs`. */
  function PrefixAll<T>(xs: seq<T>, tails: seq<seq<T>>): (r: seq<seq<T>>)
    ensures |r| == |xs| * |tails|
    decreases |xs|
  {
    if |xs| == 0 then []
    else seq(|tails|, j requires 0 <= j < |tails| => [xs[0]] + tails[j]) + PrefixAll(xs[1..], tails)
  }

  /** Row-major layout: position `i * |tails| + j` holds `xs[i]` followed by `tails[j]`. */
  lemma {:induction false} PrefixAllAt<T>(xs: seq<T>, tails: seq<seq<T>>, i: nat, j: nat)
    requires i < |xs| && j < |tails|
    ensures i * |tails| + j < |PrefixAll(xs, tails)|
    ensures PrefixAll(xs, tails)[i * |tails| + j] == [xs[i]] + tails[j]
    decreases i
  {
    if i > 0 {
      PrefixAllAt(xs[1..], tails, i - 1, j);
      assert i * |tails| + j == |tails| + ((i - 1) * |tails| + j);
    }
  }

  function ProductSize<T>(lists: seq<seq<T>>): nat
    decreases |lists|
  {
    if |lists| == 0 then 1 else |lists[0]| * ProductSize(lists[1..])
  }

  /** A tuple with one component from each list, in list order. */
  ghost predicate IsTuple<T>(lists: seq<seq<T>>, t: seq<T>) {
    |t| == |lists| && forall k :: 0 <= k < |lists| ==> t[k] in lists[k]
  }

  /** Prefixing tuples of the remaining lists with elements of the first list gives tuples of all lists. */
  lemma {:induction false} PrefixAllTuples<T>(lists: seq<seq<T>>, xs: seq<T>, rest: seq<seq<T>>)
    requires |lists| > 0
    requires forall x :: x in xs ==> x in lists[0]
    requires forall t :: t in rest ==> IsTuple(lists[1..], t)
    ensures forall t :: t in PrefixAll(xs, rest) ==> IsTuple(lists, t)
    decreases |xs|
  {
    if |xs| > 0 {
      PrefixAllTuples(lists, xs[1..], rest);
      var head := seq(|rest|, j requires 0 <= j < |rest| => [xs[0]] + rest[j]);
      assert PrefixAll(xs, rest) == head + PrefixAll(xs[1..], rest);
      forall t | t in PrefixAll(xs, rest)
        ensures IsTuple(lists, t)
      {
        if t in head {
          var j :| 0 <= j < |rest| && head[j] == t;
          assert IsTuple(lists[1..], rest[j]);
          forall k | 0 <= k < |lists|
            ensures t[k] in lists[k]
          {
            if k > 0 {
              assert t[k] == rest[j][k - 1] && lists[k] == lists[1..][k - 1];
            }
          }
        }
      }
    }
  }

  /** `itertools.product(*lists)`: the first list varies slowest, the last fastest. */
  function Product<T>(lists: seq<seq<T>>): (r: seq<seq<T>>)
    ensures |r| == ProductSize(lists)
    ensures forall t :: t in r ==> IsTuple(lists, t)
    decreases |lists|
  {
    if |lists| == 0 then [[]]
    else
      var rest := Product(lists[1..]);
      PrefixAllTuples(lists, lists[0], rest);
      PrefixAll(lists[0], rest)
  }

  /** Every tuple of grid values occurs in the product: the search is exhaustive. */
  lemma {:induction false} ProductComplete<T>(lists: seq<seq<T>>, t: seq<T>)
    requires IsTuple(lists, t)
    ensures t in Product(lists)
    decreases |lists|
  {
    if |lists| == 0 {
      assert t == [];
    } else {
      var rest := Product(lists[1..]);
      assert IsTuple(lists[1..], t[1..]) by {
        forall k | 0 <= k < |lists| - 1
          ensures t[1..][k] in lists[1..][k]
        {
          assert t[1..][k] == t[k + 1];
        }
      }
      ProductComplete(lists[1..], t[1..]);
      var i :| 0 <= i < |lists[0]| && lists[0][i] == t[0];
      var j :| 0 <= j < |rest| && rest[j] == t[1..];
      PrefixAllAt(lists[0], rest, i, j);
      assert t == [t[0]] + t[1..];
    }
  }

  // ---------------------------------------------------------------------------
  // The search space of main
  // ---------------------------------------------------------------------------

  /** `hp_list = [hp_dict[hp] for hp in hp_order]`. */
  function GridsInOrder(d: HpDict, order: seq<string>): (lists: seq<seq<HpValue>>)
    requires forall k :: 0 <= k < |order| ==> order[k] in Keys(d)
    ensures |lists| == |order|
    ensures forall k :: 0 <= k < |order| ==> lists[k] == Lookup(d, order[k])
  {
    seq(|order|, k requires 0 <= k < |order| => Lookup(d, order[k]))
  }

  /** The flag order and the configurations `main` searches for a controller. */
  datatype SearchSpace = SearchSpace(order: seq<string>, configs: seq<seq<HpValue>>)

  /**
    Lines 104-109 of `main`: the grid table, its keys sorted, and the product
    of the grids in that order. Component `k` of every configuration is a
    value of the grid of flag `order[k]`.
   */
  function HpSearchSpace(tsc: string): (r: Result<SearchSpace, HpError>)
    ensures r.Success? <==> HasGrid(tsc)
    ensures r.Success? ==> Sorted(r.value.order)
    ensures r.Success? ==> forall k :: 0 <= k < |r.value.order| ==> r.value.order[k] in Keys(GetHpDict(tsc).value)
    ensures r.Success? ==> multiset(r.value.order) == multiset(Keys(GetHpDict(tsc).value))
    ensures r.Success? ==>
      |r.value.configs| == ProductSize(GridsInOrder(GetHpDict(tsc).value, r.value.order))
    ensures r.Success? ==> forall c :: c in r.value.configs ==>
      |c| == |r.value.order| &&
      forall k :: 0 <= k < |c| ==> c[k] in Lookup(GetHpDict(tsc).value, r.value.order[k])
  {
    var d :- GetHpDict(tsc);
    var order := SortStrings(Keys(d));
    assert forall k :: 0 <= k < |order| ==> order[k] in Keys(d) by {
      forall k | 0 <= k < |order|
        ensures order[k] in Keys(d)
      {
        assert order[k] in multiset(order);
      }
    }
    var lists := GridsInOrder(d, order);
    var configs := Product(lists);
    assert forall c :: c in configs ==> IsTuple(lists, c);
    Success(SearchSpace(order, configs))
  }

  lemma ProductSizeOfFour<T>(lists: seq<seq<T>>)
    requires |lists| == 4
    ensures ProductSize(lists) == |lists[0]| * (|lists[1]| * (|lists[2]| * |lists[3]|))
  {
    assert lists[1..][0] == lists[1] && lists[1..][1..] == lists[2..];
    assert lists[2..][0] == lists[2] && lists[2..][1..] == lists[3..];
    assert lists[3..][0] == lists[3] && lists[3..][1..] == [];
    assert ProductSize(lists[3..]) == |lists[3]|;
    assert ProductSize(lists[2..]) == |lists[2]| * |lists[3]|;
    assert ProductSize(lists[1..]) == |lists[1]| * (|lists[2]| * |lists[3]|);
  }

  /** The grids of Webster's controller, looked up by flag. */
  lemma WebstersLookups()
    ensures Keys(WebstersGrid) == ["-cmin", "-cmax", "-satflow", "-f"]
    ensures Lookup(WebstersGrid, "-cmax") == ["160", "180", "200"]
    ensures Lookup(WebstersGrid, "-cmin") == ["40", "60", "80"]
    ensures Lookup(WebstersGrid, "-f") == ["600", "900"]
    ensures Lookup(WebstersGrid, "-satflow") == ["0.3", "0.38", "0.44"]
  {
    assert "-cmin" != "-cmax" && "-cmin" != "-satflow" && "-cmin" != "-f";
    assert "-cmax" != "-satflow" && "-cmax" != "-f" && "-satflow" != "-f";
  }

  /** Webster's controller has 3 * 3 * 2 * 3 = 54 configurations, in flag order -cmax, -cmin, -f, -satflow. */
  lemma WebstersSearchSpace()
    ensures HpSearchSpace("websters").Success?
    ensures HpSearchSpace("websters").value.order == ["-cmax", "-cmin", "-f", "-satflow"]
    ensures |HpSearchSpace("websters").value.configs| == 54
  {
    var order := ["-cmax", "-cmin", "-f", "-satflow"];
    assert GetHpDict("websters") == Success(WebstersGrid);
    var ss := HpSearchSpace("websters");
    assert ss.value.order == order by {
      WebstersKeys();
      WebstersFlagsSorted();
      WebstersFlagsPermuted();
      SortedUnique(ss.value.order, order);
    }
    assert |ss.value.configs| == ProductSize(GridsInOrder(WebstersGrid, order));
    WebstersProductSize();
  }

  lemma WebstersProductSize()
    ensures Keys(WebstersGrid) == ["-cmin", "-cmax", "-satflow", "-f"]
    ensures ProductSize(GridsInOrder(WebstersGrid, ["-cmax", "-cmin", "-f", "-satflow"])) == 54
  {
    WebstersLookups();
    var lists := GridsInOrder(WebstersGrid, ["-cmax", "-cmin", "-f", "-satflow"]);
    assert |lists[0]| == 3 by {
      assert lists[0] == Lookup(WebstersGrid, "-cmax");
    }
    assert |lists[1]| == 3 by {
      assert lists[1] == Lookup(WebstersGrid, "-cmin");
    }
    assert |lists[2]| == 2 by {
      assert lists[2] == Lookup(WebstersGrid, "-f");
    }
    assert |lists[3]| == 3 by {
      assert lists[3] == Lookup(WebstersGrid, "-satflow");
    }
    ProductSizeOfFour(lists);
  }

}

/**
  `rank_hp`: the configurations are ranked by fitness, the mean plus the
  standard deviation of their travel times, lower being better, and the
  first of the ranking is reported as the best configuration.

  Python's `sorted` is stable: configurations with equal fitness keep the
  order in which the search evaluated them. The model sorts by insertion,
  which is stable too, and proves the ranking sorted, a permutation, and
  order-preserving within each fitness value.
 */
module HpRank {
  import opened Common

  /** The travel-time statistics `main` records for one configuration (already truncated to integers). */
  datatype Fitness = Fitness(hp: string, mean: int, std: int, passed: nat)

  /** A ranking entry: the configuration, its fitness and the number of vehicles that completed their trips. */
  datatype Ranked = Ranked(hp: string, score: int, passed: nat)

  function ToRanked(f: Fitness): (r: Ranked)
    ensures r.hp == f.hp && r.score == f.mean + f.std && r.passed == f.passed
  {
    Ranked(f.hp, f.mean + f.std, f.passed)
  }

  /** Line 68: one entry per configuration, in the order the search evaluated them. */
  function Entries(fs: seq<Fitness>): (rs: seq<Ranked>)
    ensures |rs| == |fs|
    ensures forall i :: 0 <= i < |fs| ==> rs[i] == ToRanked(fs[i])
  {
    seq(|fs|, i requires 0 <= i < |fs| => ToRanked(fs[i]))
  }

  ghost predicate SortedByScore(rs: seq<Ranked>) {
    forall i, j :: 0 <= i < j < |rs| ==> rs[i].score <= rs[j].score
  }

  /** The entries with fitness `s`, in their order in `rs`. */
  function WithScore(rs: seq<Ranked>, s: int): (out: seq<Ranked>)
    ensures forall i :: 0 <= i < |out| ==> out[i].score == s
    decreases |rs|
  {
    if |rs| == 0 then []
    else if rs[0].score == s then [rs[0]] + WithScore(rs[1..], s)
    else WithScore(rs[1..], s)
  }

  /** Insert before the first entry whose fitness is not below `x`'s: ties keep `x` in front. */
  function InsertRanked(x: Ranked, rs: seq<Ranked>): (out: seq<Ranked>)
    requires SortedByScore(rs)
    ensures SortedByScore(out)
    ensures multiset(out) == multiset(rs) + multiset{x}
    decreases |rs|
  {
    if |rs| == 0 then [x]
    else if x.score <= rs[0].score then [x] + rs
    else
      var rest := InsertRanked(x, rs[1..]);
      InsertRankedAfterHead(x, rs, rest);
      [rs[0]] + rest
  }

  lemma InsertRankedAfterHead(x: Ranked, rs: seq<Ranked>, rest: seq<Ranked>)
    requires SortedByScore(rs) && |rs| > 0 && rs[0].score < x.score
    requires SortedByScore(rest) && multiset(rest) == multiset(rs[1..]) + multiset{x}
    ensures SortedByScore([rs[0]] + rest)
    ensures multiset([rs[0]] + rest) == multiset(rs) + multiset{x}
  {
    assert rs == [rs[0]] + rs[1..];
    forall j | 0 <= j < |rest|
      ensures rs[0].score <= rest[j].score
    {
      assert rest[j] in multiset(rest);
      if rest[j] != x {
        assert rest[j] in multiset(rs[1..]);
        var m :| 0 <= m < |rs[1..]| && rs[1..][m] == rest[j];
        assert rs[m + 1] == rest[j];
      }
    }
  }

  /** Line 69: `sorted(entries, key=lambda x: x[1])`. */
  function RankByScore(rs: seq<Ranked>): (out: seq<Ranked>)
    ensures SortedByScore(out)
    ensures multiset(out) == multiset(rs)
    decreases |rs|
  {
    if |rs| == 0 then []
    else
      assert rs == [rs[0]] + rs[1..];
      InsertRanked(rs[0], RankByScore(rs[1..]))
  }

  /** Lines 68-69: the ranking of the recorded configurations. */
  function RankHp(fs: seq<Fitness>): (rs: seq<Ranked>)
    ensures SortedByScore(rs)
    ensures multiset(rs) == multiset(Entries(fs))
    ensures |rs| == |fs|
  {
    var rs := RankByScore(Entries(fs));
    assert |rs| == |multiset(rs)| == |multiset(Entries(fs))| == |fs|;
    rs
  }

  /** Inserting `x` puts it first among the entries with its fitness and leaves the others in order. */
  lemma {:induction false} InsertRankedStable(x: Ranked, rs: seq<Ranked>, s: int)
    requires SortedByScore(rs)
    ensures WithScore(InsertRanked(x, rs), s) == (if x.score == s then [x] else []) + WithScore(rs, s)
    decreases |rs|
  {
    if |rs| == 0 {
      assert WithScore([x], s) == (if x.score == s then [x] else []) + WithScore([], s) by {
        assert [x][1..] == [];
      }
    } else if x.score <= rs[0].score {
      assert ([x] + rs)[1..] == rs;
    } else {
      var rest := InsertRanked(x, rs[1..]);
      assert rs == [rs[0]] + rs[1..];
      InsertRankedStable(x, rs[1..], s);
      assert ([rs[0]] + rest)[1..] == rest;
      if rs[0].score == s {
        assert x.score != s;
      }
    }
  }

  /** Stability: within each fitness value the ranking keeps the evaluation order. */
  lemma {:induction false} RankStable(rs: seq<Ranked>, s: int)
    ensures WithScore(RankByScore(rs), s) == WithScore(rs, s)
    decreases |rs|
  {
    if |rs| > 0 {
      RankStable(rs[1..], s);
      InsertRankedStable(rs[0], RankByScore(rs[1..]), s);
    }
  }

  /** The first entry with fitness `s` is the first of `WithScore(rs, s)`. */
  lemma {:induction false} FirstWithScore(rs: seq<Ranked>, s: int, i: nat)
    requires i < |rs| && rs[i].score == s
    requires forall j :: 0 <= j < i ==> rs[j].score != s
    ensures |WithScore(rs, s)| > 0 && WithScore(rs, s)[0] == rs[i]
    decreases i
  {
    if i > 0 {
      FirstWithScore(rs[1..], s, i - 1);
    }
  }

  /** Line 72: the best configuration; `ranked[0]` raises on an empty ranking. */
  function BestHp(fs: seq<Fitness>): (r: Result<Ranked, HpError>)
    ensures r.Success? <==> |fs| > 0
    ensures r.Failure? ==> r.error == NoConfigurations
    ensures r.Success? ==> r.value in multiset(Entries(fs))
  {
    var rs := RankHp(fs);
    if |rs| == 0 then Failure(NoConfigurations)
    else
      assert rs[0] in multiset(rs);
      Success(rs[0])
  }

  /** `i` is the first configuration, in evaluation order, with the lowest fitness. */
  ghost predicate FirstMinimal(fs: seq<Fitness>, i: nat) {
    && i < |fs|
    && (forall j :: 0 <= j < |fs| ==> fs[i].mean + fs[i].std <= fs[j].mean + fs[j].std)
    && (forall j :: 0 <= j < i ==> fs[j].mean + fs[j].std > fs[i].mean + fs[i].std)
  }

  /**
    The reported best is the configuration with the lowest mean plus standard
    deviation; among equally fit ones, the first the search evaluated.
   */
  lemma BestIsFirstMinimal(fs: seq<Fitness>, i: nat)
    requires FirstMinimal(fs, i)
    ensures BestHp(fs) == Success(ToRanked(fs[i]))
  {
    var es := Entries(fs);
    var rs := RankHp(fs);
    var s := es[i].score;
    assert rs[0] in multiset(es);
    var k :| 0 <= k < |es| && es[k] == rs[0];
    assert es[i] in multiset(rs);
    var m :| 0 <= m < |rs| && rs[m] == es[i];
    assert rs[0].score == s by {
      assert rs[0].score <= rs[m].score || m == 0;
    }
    RankStable(es, s);
    FirstWithScore(es, s, i);
    FirstWithScore(rs, s, 0);
  }

  /** A best configuration exists whenever any configuration was evaluated. */
  lemma FirstMinimalExists(fs: seq<Fitness>) returns (i: nat)
    requires |fs| > 0
    ensures FirstMinimal(fs, i)
  {
    var m, k := 0, 1;
    while k < |fs|
      invariant m < k <= |fs|
      invariant forall j :: 0 <= j < k ==> fs[m].mean + fs[m].std <= fs[j].mean + fs[j].std
    {
      if fs[k].mean + fs[k].std < fs[m].mean + fs[m].std {
        m := k;
      }
      k := k + 1;
    }
    i := 0;
    while fs[i].mean + fs[i].std != fs[m].mean + fs[m].std
      invariant i <= m
      invariant forall j :: 0 <= j < i ==> fs[j].mean + fs[j].std > fs[m].mean + fs[m].std
      decreases m - i
    {
      i := i + 1;
    }
  }
}

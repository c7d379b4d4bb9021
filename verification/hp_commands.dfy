/**
  The command lines of the grid search: `create_hp_cmds`, which turns one
  configuration into the simulator invocations that evaluate it, and the
  demand check of `main`, which only lets configurations be evaluated on the
  recorded ("real") demand.

  The partner of the string building is the shell's word splitting: every
  command is proved to split back into exactly the argument vector it was
  meant to carry.
 */
module HpCommands {
  import opened Common
  import opened HpGrid

  /** The command-line arguments of the grid-search driver that reach the commands. */
  datatype Args = Args(sim: string, tsc: string, n: int, l: int, demand: string)

  // ---------------------------------------------------------------------------
  // Word splitting
  // ---------------------------------------------------------------------------

  /** A single shell word: non-empty, no space inside. */
  predicate Word(w: string) {
    |w| > 0 && ' ' !in w
  }

  predicate AllWords(ws: seq<string>) {
    forall i :: 0 <= i < |ws| ==> Word(ws[i])
  }

  /** The longest space-free prefix of `s`. */
  function LeadingWord(s: string): (w: string)
    ensures |w| <= |s|
    ensures |s| > 0 && s[0] != ' ' ==> |w| > 0
  {
    if |s| == 0 || s[0] == ' ' then "" else [s[0]] + LeadingWord(s[1..])
  }

  /** Splitting a line into its space-separated words, as the shell does for `os.system`. */
  function Words(s: string): (ws: seq<string>)
    decreases |s|
  {
    if |s| == 0 then []
    else if s[0] == ' ' then Words(s[1..])
    else
      var w := LeadingWord(s);
      [w] + Words(s[|w|..])
  }

  lemma {:induction false} LeadingWordOfJoin(a: string, b: string)
    ensures LeadingWord(a + " " + b) == LeadingWord(a)
    decreases |a|
  {
    if |a| > 0 && a[0] != ' ' {
      assert (a + " " + b)[1..] == a[1..] + " " + b;
      LeadingWordOfJoin(a[1..], b);
    }
  }

  /** Joining two strings with one space joins their word lists. */
  lemma {:induction false} WordsOfJoin(a: string, b: string)
    ensures Words(a + " " + b) == Words(a) + Words(b)
    decreases |a|
  {
    var s := a + " " + b;
    if |a| == 0 {
      assert s[1..] == b;
    } else if a[0] == ' ' {
      assert s[1..] == a[1..] + " " + b;
      WordsOfJoin(a[1..], b);
    } else {
      var w := LeadingWord(a);
      LeadingWordOfJoin(a, b);
      assert s[|w|..] == a[|w|..] + " " + b;
      WordsOfJoin(a[|w|..], b);
    }
  }

  lemma {:induction false} LeadingWordOfWord(w: string)
    requires ' ' !in w
    ensures LeadingWord(w) == w
    decreases |w|
  {
    if |w| > 0 {
      assert w == [w[0]] + w[1..];
      LeadingWordOfWord(w[1..]);
      assert w == [w[0]] + w[1..];
    }
  }

  lemma WordsOfWord(w: string)
    requires Word(w)
    ensures Words(w) == [w]
  {
    LeadingWordOfWord(w);
    assert w[|w|..] == [];
  }

  lemma WordsCons(w: string, rest: string)
    requires Word(w)
    ensures Words(w + " " + rest) == [w] + Words(rest)
  {
    WordsOfJoin(w, rest);
    WordsOfWord(w);
  }

  // ---------------------------------------------------------------------------
  // create_hp_cmds
  // ---------------------------------------------------------------------------

  /** `zip(hp_order, hp)` flattened: flag, value, flag, value, ... up to the shorter list. */
  function Interleave(order: seq<string>, hp: seq<HpValue>): (ws: seq<string>)
    ensures |ws| == 2 * (if |order| <= |hp| then |order| else |hp|)
    decreases |order|
  {
    if |order| == 0 || |hp| == 0 then [] else [order[0], hp[0]] + Interleave(order[1..], hp[1..])
  }

  /** Argument `2k` is flag `k` and argument `2k + 1` is its value. */
  lemma {:induction false} InterleaveAt(order: seq<string>, hp: seq<HpValue>, k: nat)
    requires k < |order| && k < |hp|
    ensures 2 * k + 1 < |Interleave(order, hp)|
    ensures Interleave(order, hp)[2 * k] == order[k] && Interleave(order, hp)[2 * k + 1] == hp[k]
    decreases k
  {
    if k > 0 {
      InterleaveAt(order[1..], hp[1..], k - 1);
    }
  }

  /** The body of the `hp_str` loop: `flag value ` for each zipped pair. */
  function PairText(order: seq<string>, hp: seq<HpValue>): string
    decreases |order|
  {
    if |order| == 0 || |hp| == 0 then ""
    else order[0] + " " + hp[0] + " " + PairText(order[1..], hp[1..])
  }

  /** The leading space and the flag/value pairs, each followed by a space. */
  function HpStr(order: seq<string>, hp: seq<HpValue>): (s: string)
    ensures |s| > 0 && s[0] == ' '
    ensures AllWords(order) && AllWords(hp) ==> Words(s) == Interleave(order, hp)
  {
    var s := " " + PairText(order, hp);
    if AllWords(order) && AllWords(hp) then
      WordsOfPairText(order, hp, "");
      assert PairText(order, hp) + "" == PairText(order, hp) == s[1..];
      s
    else s
  }

  /** The pairs read back as words: flag, value, flag, value, ... */
  lemma {:induction false} WordsOfPairText(order: seq<string>, hp: seq<HpValue>, rest: string)
    requires AllWords(order) && AllWords(hp)
    ensures Words(PairText(order, hp) + rest) == Interleave(order, hp) + Words(rest)
    decreases |order|
  {
    if |order| > 0 && |hp| > 0 {
      var tail := PairText(order[1..], hp[1..]) + rest;
      var inner := Interleave(order[1..], hp[1..]);
      assert Words(tail) == inner + Words(rest) by {
        assert AllWords(order[1..]) && AllWords(hp[1..]);
        WordsOfPairText(order[1..], hp[1..], rest);
      }
      assert Words(PairText(order, hp) + rest) == [order[0]] + ([hp[0]] + Words(tail)) by {
        assert PairText(order, hp) + rest == order[0] + " " + (hp[0] + " " + tail);
        assert Word(order[0]) && Word(hp[0]);
        WordsCons(order[0], hp[0] + " " + tail);
        WordsCons(hp[0], tail);
      }
      assert [order[0]] + ([hp[0]] + (inner + Words(rest))) == [order[0], hp[0]] + inner + Words(rest);
    } else {
      assert PairText(order, hp) + rest == rest;
    }
  }

  /** The learning controllers, which must be trained before a configuration can be evaluated. */
  predicate IsLearning(tsc: string) {
    tsc == "ddpg" || tsc == "dqn"
  }

  function CommandPrefix(args: Args): string {
    "python run.py -sim " + args.sim + " -nogui -tsc " + args.tsc
  }

  /** Training mode with `n` simulation processes, `l` learners and dynamic demand. */
  function TrainSuffix(args: Args): string {
    "-mode train -save -n " + IntToString(args.n) + " -l " + IntToString(args.l) + " -demand " + "dynamic"
  }

  /** Test mode with `n + l` simulation processes, loading trained weights for a learning controller. */
  function EvalSuffix(args: Args): string {
    "-mode test -n " + IntToString(args.n + args.l) + (if IsLearning(args.tsc) then " -load" else "")
  }

  function TrainCommand(args: Args, order: seq<string>, hp: seq<HpValue>): string {
    CommandPrefix(args) + HpStr(order, hp) + TrainSuffix(args)
  }

  function EvalCommand(args: Args, order: seq<string>, hp: seq<HpValue>): string {
    CommandPrefix(args) + HpStr(order, hp) + EvalSuffix(args)
  }

  /**
    `create_hp_cmds`: a learning controller gets a training command first and
    an evaluation command that loads the trained weights; any other
    controller gets only the evaluation command. The evaluation command is
    always last.
   */
  function CreateHpCmds(args: Args, order: seq<string>, hp: seq<HpValue>): (cmds: seq<string>)
    ensures |cmds| == (if IsLearning(args.tsc) then 2 else 1)
    ensures cmds[|cmds| - 1] == EvalCommand(args, order, hp)
    ensures IsLearning(args.tsc) ==> cmds[0] == TrainCommand(args, order, hp)
  {
    (if IsLearning(args.tsc) then [TrainCommand(args, order, hp)] else []) + [EvalCommand(args, order, hp)]
  }

  /** The argument vector every command starts with. */
  function PrefixArgv(args: Args): seq<string> {
    ["python", "run.py", "-sim", args.sim, "-nogui", "-tsc", args.tsc]
  }

  // The command texts below are re-bracketed so that each word is followed
  // by exactly one space; splitting then peels the words off one at a time.

  lemma Regroup(prefix: string, pairs: string, suffix: string)
    ensures prefix + (" " + pairs) + suffix == prefix + " " + (pairs + suffix)
  {
  }

  lemma PrefixLiteral(rest: string)
    ensures "python run.py -sim " + rest == "python" + " " + ("run.py" + " " + ("-sim" + " " + rest))
  {
  }

  lemma MiddleLiteral(rest: string)
    ensures " -nogui -tsc " + rest == " " + ("-nogui" + " " + ("-tsc" + " " + rest))
  {
  }

  lemma PrefixText(args: Args, rest: string)
    ensures CommandPrefix(args) + " " + rest ==
      "python" + " " + ("run.py" + " " + ("-sim" + " " + (args.sim + " " + ("-nogui" + " " + ("-tsc" + " " + (args.tsc + " " + rest))))))
  {
    PrefixLiteral(args.sim + " -nogui -tsc " + args.tsc + " " + rest);
    MiddleLiteral(args.tsc + " " + rest);
  }

  /** Three words in front of `rest` split off as three arguments. */
  lemma WordsOfThree(a: string, b: string, c: string, rest: string)
    requires Word(a) && Word(b) && Word(c)
    ensures Words(a + " " + (b + " " + (c + " " + rest))) == [a, b, c] + Words(rest)
  {
    WordsCons(a, b + " " + (c + " " + rest));
    WordsCons(b, c + " " + rest);
    WordsCons(c, rest);
    assert [a] + ([b] + ([c] + Words(rest))) == [a, b, c] + Words(rest);
  }

  /** Seven words, the flag/value pairs, three more words and a last piece, each word followed by one space. */
  function CommandText(p: seq<string>, pairs: string, m: seq<string>, last: string): string
    requires |p| == 7 && |m| == 3
  {
    p[0] + " " + (p[1] + " " + (p[2] + " " + (p[3] + " " + (p[4] + " " + (p[5] + " " + (p[6] + " " +
      (pairs + (m[0] + " " + (m[1] + " " + (m[2] + " " + last))))))))))
  }

  /** Seven words in front of `rest` split off as seven arguments. */
  lemma WordsOfSeven(p: seq<string>, rest: string)
    requires |p| == 7 && AllWords(p)
    ensures Words(p[0] + " " + (p[1] + " " + (p[2] + " " + (p[3] + " " + (p[4] + " " + (p[5] + " " + (p[6] + " " + rest)))))))
      == p + Words(rest)
  {
    var r := p[6] + " " + rest;
    var lower := p[3] + " " + (p[4] + " " + (p[5] + " " + r));
    assert Word(p[0]) && Word(p[1]) && Word(p[2]);
    assert Words(p[0] + " " + (p[1] + " " + (p[2] + " " + lower))) == p[..3] + Words(lower) by {
      WordsOfThree(p[0], p[1], p[2], lower);
      assert p[..3] == [p[0], p[1], p[2]];
    }
    assert Words(lower) == p[3..] + Words(rest) by {
      assert Word(p[3]) && Word(p[4]) && Word(p[5]) && Word(p[6]);
      WordsOfThree(p[3], p[4], p[5], r);
      WordsCons(p[6], rest);
      assert p[3..] == [p[3], p[4], p[5]] + [p[6]];
    }
    assert p == p[..3] + p[3..];
  }

  /** The shape shared by both commands splits into its words. */
  lemma WordsOfCommandShape(p: seq<string>, order: seq<string>, hp: seq<HpValue>, m: seq<string>, last: string)
    requires |p| == 7 && |m| == 3 && AllWords(p) && AllWords(m) && AllWords(order) && AllWords(hp)
    ensures Words(CommandText(p, PairText(order, hp), m, last)) == p + Interleave(order, hp) + m + Words(last)
  {
    var tail := m[0] + " " + (m[1] + " " + (m[2] + " " + last));
    WordsOfSeven(p, PairText(order, hp) + tail);
    WordsOfPairText(order, hp, tail);
    assert Word(m[0]) && Word(m[1]) && Word(m[2]);
    WordsOfThree(m[0], m[1], m[2], last);
    assert m == [m[0], m[1], m[2]];
  }

  lemma PrefixArgvWords(args: Args)
    requires Word(args.sim) && Word(args.tsc)
    ensures AllWords(PrefixArgv(args))
  {
    assert Word("python") && Word("run.py") && Word("-sim") && Word("-nogui") && Word("-tsc");
  }

  lemma EvalTailLiteral(rest: string)
    ensures "-mode test -n " + rest == "-mode" + " " + ("test" + " " + ("-n" + " " + rest))
  {
  }

  lemma EvalText(args: Args, order: seq<string>, hp: seq<HpValue>, last: string)
    requires last == IntToString(args.n + args.l) + (if IsLearning(args.tsc) then " -load" else "")
    ensures EvalCommand(args, order, hp) == CommandText(PrefixArgv(args), PairText(order, hp), ["-mode", "test", "-n"], last)
  {
    var tail := "-mode" + " " + ("test" + " " + ("-n" + " " + last));
    assert EvalSuffix(args) == tail by {
      EvalTailLiteral(last);
    }
    Regroup(CommandPrefix(args), PairText(order, hp), EvalSuffix(args));
    PrefixText(args, PairText(order, hp) + tail);
  }

  /**
    The evaluation command splits into exactly the intended arguments: the
    prefix, each flag followed by its value in zip order, the test mode with
    `n + l` simulations, and `-load` for a learning controller.
   */
  lemma EvalCommandArgv(args: Args, order: seq<string>, hp: seq<HpValue>)
    requires Word(args.sim) && Word(args.tsc) && AllWords(order) && AllWords(hp)
    ensures Words(EvalCommand(args, order, hp)) ==
      PrefixArgv(args) + Interleave(order, hp) + ["-mode", "test", "-n", IntToString(args.n + args.l)] +
      (if IsLearning(args.tsc) then ["-load"] else [])
  {
    var last := IntToString(args.n + args.l) + (if IsLearning(args.tsc) then " -load" else "");
    EvalText(args, order, hp, last);
    PrefixArgvWords(args);
    assert Word("-mode") && Word("test") && Word("-n");
    WordsOfCommandShape(PrefixArgv(args), order, hp, ["-mode", "test", "-n"], last);
    WordsOfEvalLast(args, last);
  }

  /** The process count, and `-load` for a learning controller. */
  lemma WordsOfEvalLast(args: Args, last: string)
    requires last == IntToString(args.n + args.l) + (if IsLearning(args.tsc) then " -load" else "")
    ensures Words(last) == [IntToString(args.n + args.l)] + (if IsLearning(args.tsc) then ["-load"] else [])
  {
    var count := IntToString(args.n + args.l);
    if IsLearning(args.tsc) {
      assert last == count + " " + "-load";
      WordsCons(count, "-load");
      WordsOfWord("-load");
    } else {
      assert last == count;
      WordsOfWord(count);
    }
  }

  lemma TrainTailLiteral(rest: string)
    ensures "-mode train -save -n " + rest == "-mode" + " " + ("train" + " " + ("-save" + " " + ("-n" + " " + rest)))
  {
  }

  lemma LearnersLiteral(l: string, rest: string)
    ensures " -l " + l + " -demand " + rest == " " + ("-l" + " " + (l + " " + ("-demand" + " " + rest)))
  {
  }

  function TrainLast(args: Args): string {
    "-n" + " " + (IntToString(args.n) + " " + ("-l" + " " + (IntToString(args.l) + " " + ("-demand" + " " + "dynamic"))))
  }

  lemma TrainTailText(args: Args)
    ensures TrainSuffix(args) == "-mode" + " " + ("train" + " " + ("-save" + " " + TrainLast(args)))
  {
    var n, l := IntToString(args.n), IntToString(args.l);
    var learners := " -l " + l + " -demand " + "dynamic";
    assert TrainSuffix(args) == "-mode train -save -n " + (n + learners);
    LearnersLiteral(l, "dynamic");
    assert n + learners == n + " " + ("-l" + " " + (l + " " + ("-demand" + " " + "dynamic")));
    TrainTailLiteral(n + " " + ("-l" + " " + (l + " " + ("-demand" + " " + "dynamic"))));
  }

  lemma TrainText(args: Args, order: seq<string>, hp: seq<HpValue>)
    ensures TrainCommand(args, order, hp) ==
      CommandText(PrefixArgv(args), PairText(order, hp), ["-mode", "train", "-save"], TrainLast(args))
  {
    var tail := "-mode" + " " + ("train" + " " + ("-save" + " " + TrainLast(args)));
    TrainTailText(args);
    Regroup(CommandPrefix(args), PairText(order, hp), TrainSuffix(args));
    PrefixText(args, PairText(order, hp) + tail);
  }

  /**
    The training command of a learning controller splits into the prefix,
    the flag/value pairs, and training mode with `n` simulations, `l`
    learners and dynamic demand.
   */
  lemma TrainCommandArgv(args: Args, order: seq<string>, hp: seq<HpValue>)
    requires Word(args.sim) && Word(args.tsc) && AllWords(order) && AllWords(hp)
    ensures Words(TrainCommand(args, order, hp)) ==
      PrefixArgv(args) + Interleave(order, hp) +
      ["-mode", "train", "-save", "-n", IntToString(args.n), "-l", IntToString(args.l), "-demand", "dynamic"]
  {
    var last := TrainLast(args);
    var p, pairs, m := PrefixArgv(args), Interleave(order, hp), ["-mode", "train", "-save"];
    assert Words(TrainCommand(args, order, hp)) == p + pairs + m + Words(last) by {
      TrainText(args, order, hp);
      PrefixArgvWords(args);
      assert Word("-mode") && Word("train") && Word("-save");
      WordsOfCommandShape(p, order, hp, m, last);
    }
    WordsOfTrainLast(args);
    AppendArgs(p + pairs, m, Words(last));
    assert m + Words(last) ==
      ["-mode", "train", "-save", "-n", IntToString(args.n), "-l", IntToString(args.l), "-demand", "dynamic"];
  }

  /** The process counts and the demand of the training command. */
  lemma WordsOfTrainLast(args: Args)
    ensures Words(TrainLast(args)) == ["-n", IntToString(args.n), "-l", IntToString(args.l), "-demand", "dynamic"]
  {
    var n, l := IntToString(args.n), IntToString(args.l);
    var t := l + " " + ("-demand" + " " + "dynamic");
    assert TrainLast(args) == "-n" + " " + (n + " " + ("-l" + " " + t));
    assert Word("-n") && Word(n) && Word("-l");
    WordsOfThree("-n", n, "-l", t);
    WordsOfLearnersTail(l);
    AppendArgs([], ["-n", n, "-l"], [l, "-demand", "dynamic"]);
  }

  lemma WordsOfLearnersTail(l: string)
    requires Word(l)
    ensures Words(l + " " + ("-demand" + " " + "dynamic")) == [l, "-demand", "dynamic"]
  {
    WordsCons(l, "-demand" + " " + "dynamic");
    WordsCons("-demand", "dynamic");
    WordsOfWord("dynamic");
  }

  // ---------------------------------------------------------------------------
  // The demand check and the evaluation plan of main
  // ---------------------------------------------------------------------------

  /**
    Lines 130-137 of `main`: linear and dynamic demand are refused, any
    other demand except "real" is refused too, and on real demand the
    evaluation command gets `-demand real` appended.
   */
  function EvalOnRealDemand(args: Args, order: seq<string>, hp: seq<HpValue>): (r: Result<string, HpError>)
    ensures r.Success? <==> args.demand == "real"
    ensures r.Failure? ==> r.error == DemandNotReal(args.demand)
  {
    var cmds := CreateHpCmds(args, order, hp);
    if args.demand == "linear" then Failure(DemandNotReal(args.demand))
    else if args.demand == "dynamic" then Failure(DemandNotReal(args.demand))
    else if args.demand == "real" then Success(cmds[|cmds| - 1] + " -demand " + "real")
    else Failure(DemandNotReal(args.demand))
  }

  /** The evaluation on real demand splits into the evaluation arguments followed by `-demand real`. */
  lemma EvalOnRealDemandArgv(args: Args, order: seq<string>, hp: seq<HpValue>)
    requires args.demand == "real"
    requires Word(args.sim) && Word(args.tsc) && AllWords(order) && AllWords(hp)
    ensures Words(EvalOnRealDemand(args, order, hp).value) ==
      Words(EvalCommand(args, order, hp)) + ["-demand", "real"]
  {
    var e := EvalCommand(args, order, hp);
    assert EvalOnRealDemand(args, order, hp).value == e + " -demand " + "real";
    WordsOfDemandReal(e);
  }

  /** Appending ` -demand real` to a command appends those two arguments. */
  lemma WordsOfDemandReal(e: string)
    ensures Words(e + " -demand " + "real") == Words(e) + ["-demand", "real"]
  {
    DemandLiteral(e);
    WordsOfJoin(e, "-demand" + " " + "real");
    DemandRealWords();
  }

  lemma DemandLiteral(e: string)
    ensures e + " -demand " + "real" == e + " " + ("-demand" + " " + "real")
  {
  }

  lemma DemandRealWords()
    ensures Words("-demand" + " " + "real") == ["-demand", "real"]
  {
    WordsCons("-demand", "real");
    WordsOfWord("real");
  }

  /** Every grid value prints as one shell word. */
  lemma GridValuesAreWords(tsc: string, k: nat)
    requires GetHpDict(tsc).Success? && k < |GetHpDict(tsc).value|
    ensures Word(GetHpDict(tsc).value[k].0)
    ensures AllWords(GetHpDict(tsc).value[k].1)
  {
    var g := GetHpDict(tsc).value[k].1;
    forall i | 0 <= i < |g|
      ensures Word(g[i])
    {
      if tsc != "websters" {
        var s := g[i];
        assert forall j :: 0 <= j < |s| ==> s[j] != ' ';
      }
    }
  }

  lemma ConfigIsWords(tsc: string, space: SearchSpace, c: seq<HpValue>)
    requires HpSearchSpace(tsc) == Success(space) && c in space.configs
    ensures AllWords(space.order) && AllWords(c)
  {
    var d := GetHpDict(tsc).value;
    assert |c| == |space.order|;
    forall k | 0 <= k < |space.order|
      ensures Word(space.order[k]) && Word(c[k])
    {
      var g := Lookup(d, space.order[k]);
      assert c[k] in g;
      var j :| 0 <= j < |d| && d[j].0 == space.order[k] && d[j].1 == g;
      GridValuesAreWords(tsc, j);
    }
  }

  /** A product of non-empty grids is non-empty. */
  lemma {:induction false} ProductSizePositive<T>(lists: seq<seq<T>>)
    requires forall k :: 0 <= k < |lists| ==> |lists[k]| > 0
    ensures ProductSize(lists) > 0
    decreases |lists|
  {
    if |lists| > 0 {
      ProductSizePositive(lists[1..]);
    }
  }

  /** Every controller with a grid has at least one configuration to evaluate. */
  lemma SearchSpaceNonEmpty(tsc: string)
    requires HasGrid(tsc)
    ensures |HpSearchSpace(tsc).value.configs| > 0
  {
    var d := GetHpDict(tsc).value;
    var order := HpSearchSpace(tsc).value.order;
    assert |HpSearchSpace(tsc).value.configs| == ProductSize(GridsInOrder(d, order));
    DictGridsNonEmpty(tsc);
    GridsInOrderNonEmpty(d, order);
    ProductSizePositive(GridsInOrder(d, order));
  }

  lemma DictGridsNonEmpty(tsc: string)
    requires HasGrid(tsc)
    ensures forall i :: 0 <= i < |GetHpDict(tsc).value| ==> |GetHpDict(tsc).value[i].1| > 0
  {
  }

  lemma GridsInOrderNonEmpty(d: HpDict, order: seq<string>)
    requires forall i :: 0 <= i < |d| ==> |d[i].1| > 0
    requires forall k :: 0 <= k < |order| ==> order[k] in Keys(d)
    ensures forall k :: 0 <= k < |order| ==> |GridsInOrder(d, order)[k]| > 0
  {
    forall k | 0 <= k < |order|
      ensures |GridsInOrder(d, order)[k]| > 0
    {
      var j :| 0 <= j < |d| && d[j].0 == order[k] && d[j].1 == Lookup(d, order[k]);
    }
  }

  lemma GridControllerIsWord(tsc: string)
    requires HasGrid(tsc)
    ensures Word(tsc) && !IsLearning(tsc)
  {
  }

  /** The real-demand evaluation of a non-learning controller, split into words. */
  lemma RealEvalArgv(args: Args, order: seq<string>, c: seq<HpValue>)
    requires args.demand == "real" && !IsLearning(args.tsc)
    requires Word(args.sim) && Word(args.tsc) && AllWords(order) && AllWords(c)
    ensures Words(EvalOnRealDemand(args, order, c).value) == PrefixArgv(args) + Interleave(order, c) +
      ["-mode", "test", "-n", IntToString(args.n + args.l), "-demand", "real"]
  {
    var p, pairs, count := PrefixArgv(args), Interleave(order, c), IntToString(args.n + args.l);
    var test := ["-mode", "test", "-n", count];
    assert Words(EvalCommand(args, order, c)) == p + pairs + test by {
      EvalCommandArgv(args, order, c);
      assert p + pairs + test + [] == p + pairs + test;
    }
    EvalOnRealDemandArgv(args, order, c);
    AppendArgs(p + pairs, test, ["-demand", "real"]);
    assert test + ["-demand", "real"] == ["-mode", "test", "-n", count, "-demand", "real"];
  }

  lemma AppendArgs(a: seq<string>, b: seq<string>, c: seq<string>)
    ensures a + b + c == a + (b + c)
  {
  }

  /**
    The loop of `main` over the search space, with the simulator runs left
    out: the command evaluating each configuration, in product order. The
    first configuration already trips the demand check unless demand is
    real, so the plan exists exactly for a controller with a grid on real
    demand.
   */
  function PlanSearch(args: Args): (r: Result<seq<string>, HpError>)
    ensures r.Success? <==> HasGrid(args.tsc) && args.demand == "real"
    ensures !HasGrid(args.tsc) ==> r == Failure(UnknownTsc(args.tsc))
    ensures HasGrid(args.tsc) && args.demand != "real" ==> r == Failure(DemandNotReal(args.demand))
    ensures r.Success? ==> |r.value| == |HpSearchSpace(args.tsc).value.configs|
  {
    var space :- HpSearchSpace(args.tsc);
    SearchSpaceNonEmpty(args.tsc);
    if args.demand != "real" then Failure(DemandNotReal(args.demand))
    else
      Success(seq(|space.configs|, i requires 0 <= i < |space.configs| =>
        EvalOnRealDemand(args, space.order, space.configs[i]).value))
  }

  /**
    Command `i` of the plan runs the simulator on configuration `i` of the
    product: each flag in sorted order followed by that configuration's value,
    then evaluation mode with `n + l` simulations on real demand.
   */
  lemma PlanSearchArgv(args: Args, i: nat)
    requires PlanSearch(args).Success? && Word(args.sim)
    requires i < |PlanSearch(args).value|
    ensures Words(PlanSearch(args).value[i]) ==
      PrefixArgv(args) + Interleave(HpSearchSpace(args.tsc).value.order, HpSearchSpace(args.tsc).value.configs[i]) +
      ["-mode", "test", "-n", IntToString(args.n + args.l), "-demand", "real"]
  {
    var space := HpSearchSpace(args.tsc).value;
    var c := space.configs[i];
    var cmd := EvalOnRealDemand(args, space.order, c).value;
    assert PlanSearch(args).value[i] == cmd;
    assert HasGrid(args.tsc) && args.demand == "real";
    assert AllWords(space.order) && AllWords(c) by {
      ConfigIsWords(args.tsc, space, c);
    }
    assert Word(args.tsc) && !IsLearning(args.tsc) by {
      GridControllerIsWord(args.tsc);
    }
    RealEvalArgv(args, space.order, c);
  }
}

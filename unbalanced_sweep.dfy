/**
 * The sweep of synthetic/unbalanced_sweep.py: the unbalanced synthetic
 * benchmark with two vranks per node, degrees 1 and 2, local policy, DROM
 * and LEWI on, 20M bytes per task and a per-rank task cost list chosen by
 * the number of vranks. The generator keeps no time estimate.
 */
module UnbalancedSweep {
  import opened Wrappers
  import opened Text
  import opened Sweep
  import Unbalanced

  /** `num_nodes()` */
  function NumNodes(): seq<nat> { [2, 4] }

  /** The values one command substitutes into the template. */
  datatype Setting = Setting(vranks: nat, degree: int, drom: bool, lewi: bool, memsize: string, noflush: int)

  /**
   * The `costs` string, as its words: one milliseconds-per-task value per
   * rank, four values when there are four vranks and eight otherwise.
   */
  function Costs(vranks: int): seq<string>
  {
    if vranks == 4 then ["48.6", "16.0", "2.5", "2.0"]
    else ["48.6", "16.0", "2.5", "2.0", "2.0", "2.0", "2.0", "2.0"]
  }

  /** One degree: the drom, lewi and memsize loops each run once ('true', 'true', '20M'). */
  function DegreeBlock(vranks: nat, noflush: int, degree: int): seq<Setting>
  {
    [Setting(vranks, degree, true, true, "20M", noflush)]
  }

  function DegreeBlockFn(vranks: nat, noflush: int): int -> seq<Setting>
  {
    d => DegreeBlock(vranks, noflush, d)
  }

  /** One value of noflush: degrees 1 then 2. */
  function NoflushBlock(vranks: nat, noflush: int): seq<Setting>
  {
    ConcatMap(DegreeBlockFn(vranks, noflush), [1, 2])
  }

  function NoflushBlockFn(vranks: nat): int -> seq<Setting>
  {
    nf => NoflushBlock(vranks, nf)
  }

  /** The settings `commands(num_nodes)` yields, in order: two vranks per node, noflush only 0. */
  function Grid(numNodes: nat): seq<Setting>
  {
    ConcatMap(NoflushBlockFn(2 * numNodes), [0])
  }

  const Timing: seq<string> := ["--local-period", "120", "--monitor", "200"]

  /** The binary and its arguments: 10 iterations, 480 tasks per rank, bytes per task, noflush, the costs. */
  function App(s: Setting): seq<string>
  {
    ["build/synthetic_unbalanced", "10", "480", s.memsize, IntText(s.noflush)] + Costs(s.vranks)
  }

  /** The words of the filled template; `$costs`, being last, only adds its own words. */
  function Words(s: Setting): seq<string>
  {
    ["runhybrid.py"] + RunWords(s.vranks, Local, s.degree, Timing, s.drom, s.lewi, App(s))
  }

  /** `t.substitute(...)` on the command template. */
  function Command(s: Setting): string
  {
    Join(Words(s))
  }

  function CommandFn(): Setting -> string
  {
    s => Command(s)
  }

  /** `commands(num_nodes)`: the rendered command lines. */
  function Commands(numNodes: nat): seq<string>
  {
    MapSeq(CommandFn(), Grid(numNodes))
  }

  /** Exactly two settings for any node count: degree 1 then 2, 2n vranks, DROM and LEWI on, 20M, noflush 0. */
  lemma GridShape(numNodes: nat)
    ensures Grid(numNodes) == [Setting(2 * numNodes, 1, true, true, "20M", 0),
                               Setting(2 * numNodes, 2, true, true, "20M", 0)]
  {
    var v := 2 * numNodes;
    ConcatMapRangeFirst(DegreeBlockFn(v, 0), 1, 3);
    ConcatMapRangeFirst(DegreeBlockFn(v, 0), 2, 3);
    assert Range(1, 3) == [1, 2];
    assert Range(3, 3) == [];
    assert NoflushBlock(v, 0) == [Setting(v, 1, true, true, "20M", 0), Setting(v, 2, true, true, "20M", 0)];
    assert Grid(numNodes) == ConcatMap(NoflushBlockFn(v), []) + NoflushBlock(v, 0);
  }

  /**
   * On the node counts the script declares, the cost list names exactly one
   * value per vrank, so the binary's argument-count check is met with no
   * value to spare.
   */
  lemma CostsPerRank(numNodes: nat)
    requires numNodes in NumNodes()
    ensures |Costs(2 * numNodes)| == 2 * numNodes
  {
  }

  lemma CostWords(vranks: int)
    ensures AllWords(Costs(vranks))
  {
    assert Graphic("48.6") && Graphic("16.0") && Graphic("2.5") && Graphic("2.0");
    GraphicWords(Costs(vranks));
  }

  lemma TimingWords()
    ensures AllWords(Timing)
  {
    assert Graphic("--local-period") && Graphic("120") && Graphic("--monitor") && Graphic("200");
    GraphicWords(Timing);
  }

  lemma ProgramWords()
    ensures IsWord("runhybrid.py") && IsWord("build/synthetic_unbalanced") && IsWord("10") && IsWord("480")
  {
    assert Graphic("runhybrid.py");
    GraphicWord("runhybrid.py");
    BinaryWord();
    assert Graphic("10") && Graphic("480");
    GraphicWord("10");
    GraphicWord("480");
  }

  lemma BinaryWord()
    ensures IsWord("build/synthetic_unbalanced")
  {
    assert Graphic("build/synthetic_unbalanced");
    GraphicWord("build/synthetic_unbalanced");
  }

  /**
   * What the shell hands runhybrid.py: the shared arguments with the local
   * policy, and the binary followed by its four fixed arguments and the costs.
   */
  lemma CommandTokens(s: Setting)
    requires IsWord(s.memsize)
    ensures Tokens(Command(s)) == Words(s)
    ensures |App(s)| == 5 + |Costs(s.vranks)|
  {
    TimingWords();
    ProgramWords();
    CostWords(s.vranks);
    IntTextIsWord(s.noflush);
    var head := ["build/synthetic_unbalanced", "10", "480", s.memsize, IntText(s.noflush)];
    assert AllWords(head);
    AllWordsConcat(head, Costs(s.vranks));
    RunWordsAreWords(s.vranks, Local, s.degree, Timing, s.drom, s.lewi, App(s));
    AllWordsConcat(["runhybrid.py"], RunWords(s.vranks, Local, s.degree, Timing, s.drom, s.lewi, App(s)));
    TokensJoin(Words(s));
  }

  lemma MemsizeWord()
    ensures IsWord("20M")
  {
    assert Graphic("20M");
    GraphicWord("20M");
  }

  /** Command k of the sweep runs degree k + 1 with 2n vranks and the override switching both DROM and LEWI on. */
  lemma CommandsShape(numNodes: nat, k: nat)
    requires k < 2
    ensures |Commands(numNodes)| == 2
    ensures Tokens(Commands(numNodes)[k]) ==
      ["runhybrid.py"] + RunWords(2 * numNodes, Local, k + 1, Timing, true, true,
                                  ["build/synthetic_unbalanced", "10", "480", "20M", "0"] + Costs(2 * numNodes))
  {
    GridShape(numNodes);
    var s := Grid(numNodes)[k];
    assert s.vranks == 2 * numNodes && s.degree == k + 1 && s.drom && s.lewi;
    assert Commands(numNodes)[k] == Command(s);
    MemsizeWord();
    CommandTokens(s);
    FixedApp(s);
  }

  /** The binary's arguments for a setting of the sweep. */
  lemma FixedApp(s: Setting)
    requires s.memsize == "20M" && s.noflush == 0
    ensures App(s) == ["build/synthetic_unbalanced", "10", "480", "20M", "0"] + Costs(s.vranks)
  {
    IntTextZero();
  }

  /**
   * Every command of the sweep starts synthetic/unbalanced with exactly the
   * arguments its checks need: the count check is met with one cost per
   * vrank, "20M" reads as 20 000 000 bytes per task, and the counts read as
   * 10 iterations, 480 tasks and noflush 0.
   */
  lemma SweepArgumentsAccepted(numNodes: nat, k: nat)
    requires numNodes in NumNodes() && k < 2
    ensures |App(Grid(numNodes)[k])| == 5 + Grid(numNodes)[k].vranks
    ensures Unbalanced.BytesPerTaskAsWritten(App(Grid(numNodes)[k])[3]) == Ok(20000000)
    ensures Unbalanced.BytesPerTask(App(Grid(numNodes)[k])[3]) == Ok(20000000)
    ensures Unbalanced.Atoi(App(Grid(numNodes)[k])[1]) == 10
    ensures Unbalanced.Atoi(App(Grid(numNodes)[k])[2]) == 480
    ensures Unbalanced.Atoi(App(Grid(numNodes)[k])[4]) == 0
  {
    GridShape(numNodes);
    var app := App(Grid(numNodes)[k]);
    assert app[1] == "10" && app[2] == "480" && app[3] == "20M" && app[4] == IntText(0);
    FixedArguments();
  }

  /** How the binary reads the four fixed arguments of the sweep. */
  lemma FixedArguments()
    ensures Unbalanced.BytesPerTaskAsWritten("20M") == Ok(20000000)
    ensures Unbalanced.BytesPerTask("20M") == Ok(20000000)
    ensures Unbalanced.Atoi("10") == 10 && Unbalanced.Atoi("480") == 480 && Unbalanced.Atoi(IntText(0)) == 0
  {
    MemsizeBytes();
    Unbalanced.BytesAgreeBelowWrap("20M");
    AtoiTen();
    AtoiFourEighty();
    AtoiZero();
  }

  lemma MemsizeBytes()
    ensures Unbalanced.BytesPerTask("20M") == Ok(20000000)
  {
    assert "20M" == "20" + "M";
    assert DigitsValue("20") == 20 by { assert "20"[..1] == "2"; assert "2"[..0] == []; }
    Unbalanced.BytesScaled("20", "M");
  }

  lemma AtoiTen()
    ensures Unbalanced.Atoi("10") == 10
  {
    assert DigitsValue("10") == 10 by { assert "10"[..1] == "1"; assert "1"[..0] == []; }
    AtoiOf("10");
  }

  lemma AtoiFourEighty()
    ensures Unbalanced.Atoi("480") == 480
  {
    assert DigitsValue("480") == 480 by { assert "480"[..2] == "48"; assert "48"[..1] == "4"; assert "4"[..0] == []; }
    AtoiOf("480");
  }

  lemma AtoiZero()
    ensures Unbalanced.Atoi(IntText(0)) == 0
  {
    assert IntText(0) == "0" && DigitsValue("0") == 0 by { assert "0"[..0] == []; }
    AtoiOf("0");
  }

  lemma AtoiOf(d: string)
    requires |d| >= 1 && AllDigits(d) && DigitsValue(d) <= 1000
    ensures Unbalanced.Atoi(d) == DigitsValue(d)
  {
    Unbalanced.StrToLLDigits(d, []);
    assert d + [] == d;
  }
}

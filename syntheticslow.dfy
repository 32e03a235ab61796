/**
 * The sweep of syntheticslow/syntheticslow.py: the slow-node synthetic
 * benchmark for degrees 1..min(4, n), local only at degree 1 and local then
 * global above it, always with DROM and LEWI on and one vrank per node.
 * Every command adds 15·vranks·60·2 s to `est_time_secs`.
 */
module SyntheticSlow {
  import opened Text
  import opened Sweep

  /** `num_nodes()` */
  function NumNodes(): seq<nat> { [2, 4, 8, 16] }

  /** The values one command substitutes into the template (drom and lewi are always 'true'). */
  datatype Setting = Setting(vranks: nat, degree: int, policy: Policy)

  /** One policy: `for drom in ['true']: for lewi in ['true']:` runs once. */
  function PolicyBlock(vranks: nat, degree: int, policy: Policy): seq<Setting>
  {
    [Setting(vranks, degree, policy)]
  }

  function PolicyBlockFn(vranks: nat, degree: int): Policy -> seq<Setting>
  {
    p => PolicyBlock(vranks, degree, p)
  }

  function DegreeBlock(vranks: nat, degree: int): seq<Setting>
  {
    ConcatMap(PolicyBlockFn(vranks, degree), Policies(degree))
  }

  function DegreeBlockFn(vranks: nat): int -> seq<Setting>
  {
    d => DegreeBlock(vranks, d)
  }

  /** The settings `commands(num_nodes, ...)` yields, in order; none for a single node. */
  function Grid(numNodes: nat): seq<Setting>
  {
    if numNodes == 1 then [] else ConcatMap(DegreeBlockFn(numNodes), Range(1, Min(4, numNodes) + 1))
  }

  const Timing: seq<string> := ["--local-period", "10", "--monitor", "20"]
  const App: seq<string> := ["build/syntheticslow"]

  /** `t.substitute(...)` on the command template. */
  function Command(hybridParams: string, s: Setting): string
  {
    WithParams(HybridPrefix, hybridParams, RunWords(s.vranks, s.policy, s.degree, Timing, true, true, App))
  }

  function CommandFn(hybridParams: string): Setting -> string
  {
    s => Command(hybridParams, s)
  }

  /** `est_time_secs += 15 * vranks * 60 * 2`: two runs (slow_worst 0 and 1) of 15 min per vrank. */
  function Cost(s: Setting): nat { 15 * s.vranks * 60 * 2 }

  /**
   * `commands(num_nodes, hybrid_params)` run to the end: the command lines
   * in loop order and the final `est_time_secs`, which is 0 on one node and
   * otherwise 1800 s per vrank for each of 1 + 2·(min(4, n) − 1) commands.
   */
  method Commands(numNodes: nat, hybridParams: string) returns (cmds: seq<string>, estTimeSecs: nat)
    ensures cmds == MapSeq(CommandFn(hybridParams), Grid(numNodes))
    ensures estTimeSecs == SumOf(Cost, Grid(numNodes))
    ensures |cmds| == if numNodes <= 1 then 0 else 1 + 2 * (Min(4, numNodes) - 1)
    ensures estTimeSecs == |cmds| * (1800 * numNodes)
  {
    cmds, estTimeSecs := Enumerate(Grid(numNodes), CommandFn(hybridParams), Cost);
    if numNodes >= 2 {
      GridCount(numNodes);
    }
    GridEstimate(numNodes);
  }

  // ------------------------------------------------------------ properties

  /** A block of one degree holds one setting per policy of that degree. */
  lemma DegreeBlockShape(vranks: nat, degree: int)
    ensures DegreeBlock(vranks, degree) == MapSeq(p => Setting(vranks, degree, p), Policies(degree))
  {
    ConcatMapSingle(PolicyBlockFn(vranks, degree), p => Setting(vranks, degree, p), Policies(degree));
  }

  lemma InDegreeBlock(vranks: nat, degree: int, s: Setting)
    ensures s in DegreeBlock(vranks, degree) <==> s.vranks == vranks && s.degree == degree && s.policy in Policies(degree)
  {
    DegreeBlockShape(vranks, degree);
    if degree == 1 {
      assert DegreeBlock(vranks, degree) == [Setting(vranks, degree, Local)];
    } else {
      assert DegreeBlock(vranks, degree) == [Setting(vranks, degree, Local), Setting(vranks, degree, Global)];
    }
  }

  /**
   * Which settings the sweep runs: none on a single node; otherwise vranks
   * equal to the node count, degrees 1..min(4, n), and only local at degree 1.
   */
  lemma GridMember(numNodes: nat, s: Setting)
    ensures s in Grid(numNodes) <==>
      numNodes != 1 && s.vranks == numNodes && 1 <= s.degree <= Min(4, numNodes) &&
      (s.degree == 1 ==> s.policy == Local)
  {
    assert s.policy in Policies(s.degree) <==> (s.degree == 1 ==> s.policy == Local) by {
      if s.degree != 1 {
        assert s.policy == Policies(s.degree)[0] || s.policy == Policies(s.degree)[1];
      }
    }
    if numNodes != 1 {
      var degrees := Range(1, Min(4, numNodes) + 1);
      ConcatMapIn(DegreeBlockFn(numNodes), degrees, s);
      InDegreeBlock(numNodes, s.degree, s);
      InRange(1, Min(4, numNodes) + 1, s.degree);
      if s in Grid(numNodes) {
        var d :| d in degrees && s in DegreeBlock(numNodes, d);
        InDegreeBlock(numNodes, d, s);
      }
    }
  }

  /** The commands come in ascending degree order. */
  lemma GridDegreeOrder(numNodes: nat)
    ensures forall i, j :: 0 <= i < j < |Grid(numNodes)| ==> Grid(numNodes)[i].degree <= Grid(numNodes)[j].degree
  {
    if numNodes != 1 {
      forall d, s | s in DegreeBlockFn(numNodes)(d) ensures s.degree == d {
        InDegreeBlock(numNodes, d, s);
      }
      ConcatMapKeyOrder(DegreeBlockFn(numNodes), Range(1, Min(4, numNodes) + 1), (s: Setting) => s.degree);
    }
  }

  /** On n >= 2 nodes: one command at degree 1 and two at each of the degrees 2..min(4, n). */
  lemma GridCount(numNodes: nat)
    requires numNodes >= 2
    ensures |Grid(numNodes)| == 1 + 2 * (Min(4, numNodes) - 1)
  {
    ConcatMapRangeFirst(DegreeBlockFn(numNodes), 1, Min(4, numNodes) + 1);
    DegreeBlockShape(numNodes, 1);
    var rest := Range(2, Min(4, numNodes) + 1);
    forall k | 0 <= k < |rest| ensures |DegreeBlockFn(numNodes)(rest[k])| == 2 {
      DegreeBlockShape(numNodes, rest[k]);
    }
    ConcatMapLength(DegreeBlockFn(numNodes), rest, 2);
  }

  /** Every command costs the same 1800 s per vrank, so the estimate is count × 1800·n. */
  lemma GridEstimate(numNodes: nat)
    ensures SumOf(Cost, Grid(numNodes)) == |Grid(numNodes)| * (1800 * numNodes)
  {
    var g := Grid(numNodes);
    forall k | 0 <= k < |g| ensures Cost(g[k]) == 1800 * numNodes {
      GridMember(numNodes, g[k]);
    }
    SumOfConst(Cost, g, 1800 * numNodes);
  }

  lemma TimingWords()
    ensures AllWords(Timing) && AllWords(App)
  {
    assert Graphic("--local-period") && Graphic("10") && Graphic("--monitor") && Graphic("20");
    assert Graphic("build/syntheticslow");
    GraphicWords(Timing);
    GraphicWords(App);
  }

  /**
   * What runhybrid.py receives: the prefix with `$hybrid_directory` kept
   * literally (the template's `$$`), the words of the hybrid parameters, then
   * the shared arguments with DROM and LEWI on and the bare binary.
   */
  lemma CommandTokens(hybridParams: string, s: Setting)
    ensures Tokens(Command(hybridParams, s)) ==
      HybridPrefix + Tokens(hybridParams) + RunWords(s.vranks, s.policy, s.degree, Timing, true, true, App)
  {
    HybridPrefixWords();
    TimingWords();
    RunWordsAreWords(s.vranks, s.policy, s.degree, Timing, true, true, App);
    WithParamsTokens(HybridPrefix, hybridParams, RunWords(s.vranks, s.policy, s.degree, Timing, true, true, App));
  }
}

/**
 * bestdegree/bestdegree.py: the sweep over degrees 1..min(6, n) with the
 * global policy only (degree 1 included), DROM and LEWI on, 4 hours per
 * command, on 2..32 nodes; and the rule `generate_plots` uses to pick the
 * best degree for one imbalance.
 */
module BestDegree {
  import opened Wrappers
  import opened Text
  import opened Sweep

  /** `num_nodes()`: list(range(2, 33)). */
  function NumNodes(): seq<int> { Range(2, 33) }

  lemma NumNodesRange(n: int)
    ensures n in NumNodes() <==> 2 <= n <= 32
  {
    InRange(2, 33, n);
  }

  /** The values one command substitutes into the template (policy 'global', drom and lewi 'true'). */
  datatype Setting = Setting(vranks: nat, degree: int)

  /** One degree: the policy, drom and lewi loops each run once. */
  function DegreeBlock(vranks: nat, degree: int): seq<Setting>
  {
    [Setting(vranks, degree)]
  }

  function DegreeBlockFn(vranks: nat): int -> seq<Setting>
  {
    d => DegreeBlock(vranks, d)
  }

  /** The settings `commands(num_nodes, ...)` yields, in order; none for a single node. */
  function Grid(numNodes: nat): seq<Setting>
  {
    if numNodes == 1 then [] else ConcatMap(DegreeBlockFn(numNodes), Range(1, Min(6, numNodes) + 1))
  }

  const Timing: seq<string> := ["--local-period", "10", "--monitor", "20"]
  const App: seq<string> := ["build/bestdegree"]

  /** `t.substitute(...)` on the command template. */
  function Command(hybridParams: string, s: Setting): string
  {
    WithParams(HybridPrefix, hybridParams, RunWords(s.vranks, Global, s.degree, Timing, true, true, App))
  }

  function CommandFn(hybridParams: string): Setting -> string
  {
    s => Command(hybridParams, s)
  }

  /** `est_time_secs += 4 * 60 * 60` */
  function Cost(s: Setting): nat { 4 * 60 * 60 }

  /**
   * `commands(num_nodes, hybrid_params)` run to the end: min(6, n) commands
   * (none on one node), the k-th with degree k + 1 and n vranks, and 4 hours
   * of estimate for each.
   */
  method Commands(numNodes: nat, hybridParams: string) returns (cmds: seq<string>, estTimeSecs: nat)
    ensures cmds == MapSeq(CommandFn(hybridParams), Grid(numNodes))
    ensures |cmds| == if numNodes <= 1 then 0 else Min(6, numNodes)
    ensures estTimeSecs == 14400 * |cmds|
  {
    cmds, estTimeSecs := Enumerate(Grid(numNodes), CommandFn(hybridParams), Cost);
    GridShape(numNodes);
    SumOfConst(Cost, Grid(numNodes), 14400);
  }

  /** None on one node; otherwise min(6, n) settings, the k-th with degree k + 1 and n vranks. */
  lemma GridShape(numNodes: nat)
    ensures |Grid(numNodes)| == if numNodes <= 1 then 0 else Min(6, numNodes)
    ensures forall k :: 0 <= k < |Grid(numNodes)| ==> Grid(numNodes)[k] == Setting(numNodes, k + 1)
  {
    if numNodes != 1 {
      ConcatMapSingle(DegreeBlockFn(numNodes), d => Setting(numNodes, d), Range(1, Min(6, numNodes) + 1));
    }
  }

  lemma TimingWords()
    ensures AllWords(Timing) && AllWords(App)
  {
    assert Graphic("--local-period") && Graphic("10") && Graphic("--monitor") && Graphic("20");
    assert Graphic("build/bestdegree");
    GraphicWords(Timing);
    GraphicWords(App);
  }

  /** Every command, degree 1 included, asks runhybrid.py for the global policy. */
  lemma CommandTokens(hybridParams: string, s: Setting)
    ensures Tokens(Command(hybridParams, s)) ==
      HybridPrefix + Tokens(hybridParams) + RunWords(s.vranks, Global, s.degree, Timing, true, true, App)
  {
    HybridPrefixWords();
    TimingWords();
    RunWordsAreWords(s.vranks, Global, s.degree, Timing, true, true, App);
    WithParamsTokens(HybridPrefix, hybridParams, RunWords(s.vranks, Global, s.degree, Timing, true, true, App));
  }

  // ------------------------------------------------------------ best degree

  /** Index i holds the first of the smallest values: strictly below all before it, at most all after. */
  predicate FirstMinimum(ys: seq<real>, i: int)
  {
    0 <= i < |ys| &&
    (forall j :: 0 <= j < i ==> ys[i] < ys[j]) &&
    (forall j :: i < j < |ys| ==> ys[i] <= ys[j])
  }

  /** A degree whose value equals the first minimum's comes no earlier: ties go to the earliest degree. */
  lemma FirstMinimumEarliest(ys: seq<real>, i: int, j: int)
    requires FirstMinimum(ys, i) && 0 <= j < |ys| && ys[j] <= ys[i]
    ensures i <= j && ys[j] == ys[i]
  {
  }

  /**
   * The loop over the degrees of one imbalance (in the order `get_values`
   * returns them), with `yvals[k]` the average time of degree k: it keeps a
   * degree only when its value is strictly below the best so far. None when
   * there are no degrees.
   */
  method BestOf<D>(degrees: seq<D>, yvals: seq<real>) returns (bestDeg: Option<D>, bestVal: Option<real>)
    requires |degrees| == |yvals|
    ensures bestDeg.None? <==> degrees == []
    ensures bestDeg.None? ==> bestVal.None?
    ensures bestDeg.Some? ==> exists i :: FirstMinimum(yvals, i) && bestDeg.value == degrees[i] && bestVal == Some(yvals[i])
  {
    bestDeg, bestVal := None, None;
    ghost var best := -1;
    for k := 0 to |degrees|
      invariant bestDeg.None? <==> k == 0
      invariant bestVal.None? <==> k == 0
      invariant k > 0 ==> FirstMinimum(yvals[..k], best) && bestDeg == Some(degrees[best]) && bestVal == Some(yvals[best])
    {
      if bestVal.None? || yvals[k] < bestVal.value {
        bestVal := Some(yvals[k]);
        bestDeg := Some(degrees[k]);
        best := k;
      }
    }
    if bestDeg.Some? {
      assert yvals[..|yvals|] == yvals;
    }
  }
}

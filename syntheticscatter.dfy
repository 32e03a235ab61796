/**
 * The sweep of syntheticscatter/syntheticscatter.py: the scatter benchmark
 * for degrees 1..min(4, n), local policy, DROM and LEWI on and one vrank per
 * node. It keeps no time estimate: the generator only yields.
 */
module SyntheticScatter {
  import opened Text
  import opened Sweep

  /** `num_nodes()` */
  function NumNodes(): seq<nat> { [2, 4] }

  /** The values one command substitutes into the template (policy 'local', drom and lewi 'true'). */
  datatype Setting = Setting(vranks: nat, degree: int)

  /** One degree: the policy, drom and lewi loops each run once. */
  function DegreeBlock(vranks: nat, degree: int): seq<Setting>
  {
    [Setting(vranks, degree)]
  }

  function DegreeBlockFn(vranks: nat): int -> seq<Setting>
  {
    d => DegreeBlock(vranks, d)
  }

  /** The settings `commands(num_nodes, ...)` yields, in order; none for a single node. */
  function Grid(numNodes: nat): seq<Setting>
  {
    if numNodes == 1 then [] else ConcatMap(DegreeBlockFn(numNodes), Range(1, Min(4, numNodes) + 1))
  }

  const Timing: seq<string> := ["--local-period", "10", "--monitor", "200"]
  const App: seq<string> := ["build/syntheticscatter"]

  /** `t.substitute(...)` on the command template. */
  function Command(hybridParams: string, s: Setting): string
  {
    WithParams(HybridPrefix, hybridParams, RunWords(s.vranks, Local, s.degree, Timing, true, true, App))
  }

  function CommandFn(hybridParams: string): Setting -> string
  {
    s => Command(hybridParams, s)
  }

  /** `commands(num_nodes, hybrid_params)`: the rendered command lines. */
  function Commands(numNodes: nat, hybridParams: string): seq<string>
  {
    MapSeq(CommandFn(hybridParams), Grid(numNodes))
  }

  /**
   * None on a single node; otherwise exactly min(4, n) commands, the k-th
   * with degree k + 1 and vranks equal to the node count.
   */
  lemma GridShape(numNodes: nat)
    ensures numNodes == 1 ==> Grid(numNodes) == []
    ensures numNodes != 1 ==> |Grid(numNodes)| == Min(4, numNodes)
    ensures numNodes != 1 ==> forall k :: 0 <= k < |Grid(numNodes)| ==> Grid(numNodes)[k] == Setting(numNodes, k + 1)
  {
    if numNodes != 1 {
      ConcatMapSingle(DegreeBlockFn(numNodes), d => Setting(numNodes, d), Range(1, Min(4, numNodes) + 1));
    }
  }

  lemma TimingWords()
    ensures AllWords(Timing) && AllWords(App)
  {
    assert Graphic("--local-period");
    assert Graphic("10");
    assert Graphic("--monitor");
    assert Graphic("200");
    assert Graphic("build/syntheticscatter");
    GraphicWords(Timing);
    GraphicWords(App);
  }

  /**
   * What runhybrid.py receives: the prefix with `$hybrid_directory` kept
   * literally, the words of the hybrid parameters, then the shared arguments
   * with the local policy, DROM and LEWI on, and the bare binary.
   */
  lemma CommandTokens(hybridParams: string, s: Setting)
    ensures Tokens(Command(hybridParams, s)) ==
      HybridPrefix + Tokens(hybridParams) + RunWords(s.vranks, Local, s.degree, Timing, true, true, App)
  {
    HybridPrefixWords();
    TimingWords();
    RunWordsAreWords(s.vranks, Local, s.degree, Timing, true, true, App);
    WithParamsTokens(HybridPrefix, hybridParams, RunWords(s.vranks, Local, s.degree, Timing, true, true, App));
  }

  /** Command k of a sweep on n >= 2 nodes, split by the shell, names degree k + 1 and n vranks. */
  lemma CommandFlags(numNodes: nat, hybridParams: string, k: nat)
    requires numNodes != 1 && k < Min(4, numNodes)
    ensures k < |Commands(numNodes, hybridParams)|
    ensures Tokens(Commands(numNodes, hybridParams)[k]) ==
      HybridPrefix + Tokens(hybridParams) + RunWords(numNodes, Local, k + 1, Timing, true, true, App)
  {
    GridShape(numNodes);
    CommandTokens(hybridParams, Grid(numNodes)[k]);
  }
}

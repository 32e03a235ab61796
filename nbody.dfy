/**
 * The sweep of nbody/nbody.py: three runs of the n-body code with one
 * million bodies, degree 1 local, then degree 2 local and global, DROM and
 * LEWI on, one vrank per node, one minute of estimate each. There is no
 * single-node exception.
 */
module NBody {
  import opened Text
  import opened Sweep

  /** `num_nodes()` */
  function NumNodes(): seq<nat> { [2, 4, 8] }

  /** The values one command substitutes into the template (drom and lewi 'true'). */
  datatype Setting = Setting(vranks: nat, degree: int, policy: Policy)

  function PolicyBlock(vranks: nat, degree: int, policy: Policy): seq<Setting>
  {
    [Setting(vranks, degree, policy)]
  }

  function PolicyBlockFn(vranks: nat, degree: int): Policy -> seq<Setting>
  {
    p => PolicyBlock(vranks, degree, p)
  }

  function DegreeBlock(vranks: nat, degree: int): seq<Setting>
  {
    ConcatMap(PolicyBlockFn(vranks, degree), Policies(degree))
  }

  function DegreeBlockFn(vranks: nat): int -> seq<Setting>
  {
    d => DegreeBlock(vranks, d)
  }

  /** The settings `commands(num_nodes, ...)` yields: `for degree in [1, 2]`. */
  function Grid(numNodes: nat): seq<Setting>
  {
    ConcatMap(DegreeBlockFn(numNodes), [1, 2])
  }

  const Timing: seq<string> := ["--monitor", "10", "--local-period", "10"]
  const App: seq<string> := ["build/n_body", "-N", "1000000", "-s", "10", "-v"]

  /** `t.substitute(...)` on the command template. */
  function Command(hybridParams: string, s: Setting): string
  {
    WithParams(HybridPrefix, hybridParams, RunWords(s.vranks, s.policy, s.degree, Timing, true, true, App))
  }

  function CommandFn(hybridParams: string): Setting -> string
  {
    s => Command(hybridParams, s)
  }

  /** `est_time_secs += 60` */
  function Cost(s: Setting): nat { 60 }

  /**
   * `commands(num_nodes, hybrid_params)` run to the end, for any node count:
   * (1, local), (2, local), (2, global) with n vranks, and 180 s of estimate.
   */
  method Commands(numNodes: nat, hybridParams: string) returns (cmds: seq<string>, estTimeSecs: nat)
    ensures cmds == MapSeq(CommandFn(hybridParams), Grid(numNodes))
    ensures Grid(numNodes) == [Setting(numNodes, 1, Local), Setting(numNodes, 2, Local), Setting(numNodes, 2, Global)]
    ensures |cmds| == 3 && estTimeSecs == 180
  {
    cmds, estTimeSecs := Enumerate(Grid(numNodes), CommandFn(hybridParams), Cost);
    GridShape(numNodes);
    SumOfConst(Cost, Grid(numNodes), 60);
  }

  /** The three settings, in loop order. */
  lemma GridShape(numNodes: nat)
    ensures Grid(numNodes) == [Setting(numNodes, 1, Local), Setting(numNodes, 2, Local), Setting(numNodes, 2, Global)]
  {
    var f := DegreeBlockFn(numNodes);
    assert [1, 2][..1] == [1] && [1][..0] == [];
    assert ConcatMap(f, [1]) == DegreeBlock(numNodes, 1);
    assert [Local, Global][..1] == [Local] && [Local][..0] == [];
    assert DegreeBlock(numNodes, 1) == [Setting(numNodes, 1, Local)];
    assert DegreeBlock(numNodes, 2) == [Setting(numNodes, 2, Local), Setting(numNodes, 2, Global)];
  }

  lemma TimingWords()
    ensures AllWords(Timing) && AllWords(App)
  {
    assert Graphic("--monitor") && Graphic("10") && Graphic("--local-period");
    assert Graphic("build/n_body") && Graphic("-N") && Graphic("1000000") && Graphic("-s") && Graphic("-v");
    GraphicWords(Timing);
    GraphicWords(App);
  }

  /** What runhybrid.py receives: a fixed problem of one million bodies, ten steps, verbose. */
  lemma CommandTokens(hybridParams: string, s: Setting)
    ensures Tokens(Command(hybridParams, s)) ==
      HybridPrefix + Tokens(hybridParams) + RunWords(s.vranks, s.policy, s.degree, Timing, true, true, App)
  {
    HybridPrefixWords();
    TimingWords();
    RunWordsAreWords(s.vranks, s.policy, s.degree, Timing, true, true, App);
    WithParamsTokens(HybridPrefix, hybridParams, RunWords(s.vranks, s.policy, s.degree, Timing, true, true, App));
  }
}

/**
 * The sweep of nbodyslownord/nbodyslownord.py: the n-body code with one slow
 * node (`--oneslow`), 20000 bodies per node and two vranks per node, first a
 * baseline without DLB at degree 1, then each degree of 1, 2, 3, 4, 6 that
 * fits in the node count with DROM and LEWI on; degree 1 runs the local
 * policy and the others the global one, ten minutes of estimate each.
 */
module NBodySlowNord {
  import opened Text
  import opened Sweep

  /** `num_nodes()` */
  function NumNodes(): seq<nat> { [2, 4, 8, 16, 32] }

  /** `[deg for deg in xs if deg <= n]` */
  function AtMost(xs: seq<int>, n: int): (r: seq<int>)
    ensures forall x :: x in r <==> x in xs && x <= n
  {
    if xs == [] then []
    else
      assert forall x :: x in xs[1..] ==> x in xs;
      (if xs[0] <= n then [xs[0]] else []) + AtMost(xs[1..], n)
  }

  predicate StrictlyAscending(xs: seq<int>)
  {
    forall i, j :: 0 <= i < j < |xs| ==> xs[i] < xs[j]
  }

  /** Filtering keeps an ascending list ascending. */
  lemma {:induction false} AtMostSorted(xs: seq<int>, n: int)
    requires StrictlyAscending(xs)
    ensures StrictlyAscending(AtMost(xs, n))
  {
    if xs != [] {
      var rest := AtMost(xs[1..], n);
      AtMostSorted(xs[1..], n);
      if xs[0] <= n {
        forall x | x in rest ensures xs[0] < x {
          var k :| 0 <= k < |xs[1..]| && xs[1..][k] == x;
          assert xs[k + 1] == x;
        }
        ConsAscending(xs[0], rest);
      }
    }
  }

  lemma ConsAscending(a: int, r: seq<int>)
    requires StrictlyAscending(r) && forall x :: x in r ==> a < x
    ensures StrictlyAscending([a] + r)
  {
    var q := [a] + r;
    forall i, j | 0 <= i < j < |q| ensures q[i] < q[j] {
      assert q[j] == r[j - 1];
      if i > 0 { assert q[i] == r[i - 1]; } else { assert r[j - 1] in r; }
    }
  }

  /** The degree codes: 0 (the baseline: degree 1, no DLB) and then every candidate degree that fits. */
  function Codes(numNodes: int): seq<int>
  {
    [0] + AtMost([1, 2, 3, 4, 6], numNodes)
  }

  /** The values one command substitutes into the template; `dlb` is the common value of drom and lewi. */
  datatype Setting = Setting(nodes: int, vranks: int, degree: int, policy: Policy, dlb: bool, nbodies: int)

  /** The body of the code loop for one code (its policy list has one entry). */
  function CodeBlock(numNodes: int, code: int): seq<Setting>
  {
    var degree := if code != 0 then code else 1;
    var policy := if degree == 1 then Local else Global;
    [Setting(numNodes, numNodes * 2, degree, policy, code != 0, numNodes * 20000)]
  }

  function CodeBlockFn(numNodes: int): int -> seq<Setting>
  {
    code => CodeBlock(numNodes, code)
  }

  /** The settings `commands(num_nodes, ...)` yields, in order. */
  function Grid(numNodes: int): seq<Setting>
  {
    ConcatMap(CodeBlockFn(numNodes), Codes(numNodes))
  }

  /** The words before `$hybrid_params`. */
  function Prefix(numNodes: int): seq<string>
  {
    ["runhybrid.py", "--nodes", IntText(numNodes), "--oneslow", "--hybrid-directory", "$hybrid_directory"]
  }

  const Timing: seq<string> := ["--monitor", "30", "--local-period", "30"]

  function App(nbodies: int): seq<string>
  {
    ["build/n_body", "-N", IntText(nbodies), "-s", "10", "-v", "-A"]
  }

  /** `t.substitute(...)` on the command template. */
  function Command(hybridParams: string, s: Setting): string
  {
    WithParams(Prefix(s.nodes), hybridParams, RunWords(s.vranks, s.policy, s.degree, Timing, s.dlb, s.dlb, App(s.nbodies)))
  }

  function CommandFn(hybridParams: string): Setting -> string
  {
    s => Command(hybridParams, s)
  }

  /** `est_time_secs += 600` */
  function Cost(s: Setting): nat { 600 }

  /** `commands(num_nodes, hybrid_params)` run to the end: one command per code, 600 s each. */
  method Commands(numNodes: int, hybridParams: string) returns (cmds: seq<string>, estTimeSecs: nat)
    ensures cmds == MapSeq(CommandFn(hybridParams), Grid(numNodes))
    ensures |cmds| == |Codes(numNodes)| && estTimeSecs == 600 * |cmds|
  {
    cmds, estTimeSecs := Enumerate(Grid(numNodes), CommandFn(hybridParams), Cost);
    GridShape(numNodes);
    SumOfConst(Cost, Grid(numNodes), 600);
  }

  // ------------------------------------------------------------ properties

  /**
   * The codes start with 0 and then list, in ascending order, exactly those
   * of 1, 2, 3, 4, 6 that are at most the node count.
   */
  lemma CodesShape(numNodes: int)
    ensures Codes(numNodes)[0] == 0
    ensures forall c :: c in Codes(numNodes)[1..] <==> c in [1, 2, 3, 4, 6] && c <= numNodes
    ensures forall i, j :: 0 <= i < j < |Codes(numNodes)| ==> Codes(numNodes)[i] < Codes(numNodes)[j]
  {
    var xs := [1, 2, 3, 4, 6];
    assert forall i, j :: 0 <= i < j < |xs| ==> xs[i] < xs[j];
    var r := AtMost(xs, numNodes);
    AtMostSorted(xs, numNodes);
    assert Codes(numNodes)[1..] == r;
    forall j | 0 < j < |Codes(numNodes)| ensures 0 < Codes(numNodes)[j] {
      assert Codes(numNodes)[j] == r[j - 1];
      assert r[j - 1] in xs;
    }
  }

  /** There is no single-node guard: on one node the baseline and degree 1 both run. */
  lemma SingleNode()
    ensures Codes(1) == [0, 1]
  {
    var xs := [1, 2, 3, 4, 6];
    assert xs[1..] == [2, 3, 4, 6] && xs[1..][1..] == [3, 4, 6];
    assert xs[1..][1..][1..] == [4, 6] && xs[1..][1..][1..][1..] == [6];
    assert AtMost([6], 1) == [] + AtMost([], 1);
  }

  /**
   * The settings: one per code, the first the no-DLB baseline at degree 1,
   * the others with DLB on at degree = code; local policy exactly at degree 1;
   * always n nodes, 2n vranks and 20000·n bodies.
   */
  lemma GridShape(numNodes: int)
    ensures |Grid(numNodes)| == |Codes(numNodes)|
    ensures Grid(numNodes)[0] == Setting(numNodes, 2 * numNodes, 1, Local, false, 20000 * numNodes)
    ensures forall k :: 1 <= k < |Grid(numNodes)| ==> Grid(numNodes)[k].dlb && Grid(numNodes)[k].degree == Codes(numNodes)[k]
    ensures forall k :: 0 <= k < |Grid(numNodes)| ==>
      (Grid(numNodes)[k].policy == Local <==> Grid(numNodes)[k].degree == 1) &&
      Grid(numNodes)[k].nodes == numNodes && Grid(numNodes)[k].vranks == 2 * numNodes &&
      Grid(numNodes)[k].nbodies == 20000 * numNodes
  {
    var g := (code: int) => CodeBlock(numNodes, code)[0];
    ConcatMapSingle(CodeBlockFn(numNodes), g, Codes(numNodes));
    CodesShape(numNodes);
  }

  lemma TimingWords()
    ensures AllWords(Timing)
  {
    assert Graphic("--monitor") && Graphic("30") && Graphic("--local-period");
    GraphicWords(Timing);
  }

  lemma AppWords(nbodies: int)
    ensures AllWords(App(nbodies))
  {
    assert Graphic("build/n_body") && Graphic("-N");
    assert Graphic("-s") && Graphic("10") && Graphic("-v") && Graphic("-A");
    IntTextIsWord(nbodies);
    var a, b := ["build/n_body", "-N"], ["-s", "10", "-v", "-A"];
    GraphicWords(a);
    GraphicWords(b);
    AllWordsConcat(a, [IntText(nbodies)]);
    AllWordsConcat(a + [IntText(nbodies)], b);
    assert App(nbodies) == a + [IntText(nbodies)] + b;
  }

  lemma PrefixWords(numNodes: int)
    ensures AllWords(Prefix(numNodes))
  {
    assert Graphic("runhybrid.py") && Graphic("--nodes") && Graphic("--oneslow");
    var a, b := ["runhybrid.py", "--nodes"], ["--oneslow"] + HybridPrefix[1..];
    GraphicWords(a);
    GraphicWords(["--oneslow"]);
    HybridPrefixWords();
    assert AllWords(HybridPrefix[1..]);
    AllWordsConcat(["--oneslow"], HybridPrefix[1..]);
    IntTextIsWord(numNodes);
    AllWordsConcat(a, [IntText(numNodes)]);
    AllWordsConcat(a + [IntText(numNodes)], b);
    assert Prefix(numNodes) == a + [IntText(numNodes)] + b;
  }

  /**
   * What runhybrid.py receives: the node count and `--oneslow` before the
   * hybrid directory, the shared arguments with drom and lewi equal, and the
   * body count as the `-N` argument of the n-body binary.
   */
  lemma CommandTokens(hybridParams: string, s: Setting)
    ensures Tokens(Command(hybridParams, s)) ==
      Prefix(s.nodes) + Tokens(hybridParams) + RunWords(s.vranks, s.policy, s.degree, Timing, s.dlb, s.dlb, App(s.nbodies))
  {
    TimingWords();
    AppWords(s.nbodies);
    PrefixWords(s.nodes);
    RunWordsAreWords(s.vranks, s.policy, s.degree, Timing, s.dlb, s.dlb, App(s.nbodies));
    WithParamsTokens(Prefix(s.nodes), hybridParams, RunWords(s.vranks, s.policy, s.degree, Timing, s.dlb, s.dlb, App(s.nbodies)));
  }
}

/**
 * The sweep of micropp/micropp.py: one run of the MicroPP load-balance test
 * per degree 1..num_nodes, two vranks per node, local policy, DROM and LEWI
 * on. (The memory-size codec of the same file is module MemSize.)
 */
module Micropp {
  import opened Text
  import opened Sweep

  /** `num_nodes()` */
  function NumNodes(): seq<nat> { [2, 4, 8] }

  /** The values one command substitutes into the template. */
  datatype Setting = Setting(vranks: int, degree: int, drom: bool, lewi: bool)

  const Timing: seq<string> := ["--monitor", "20"]
  const App: seq<string> := ["../Micropp/test/mpi-load-balance", "10", "2400", "10"]

  /** The words of the command line, in template order. */
  function Words(s: Setting): seq<string>
  {
    ["runhybrid.py"] + RunWords(s.vranks, Local, s.degree, Timing, s.drom, s.lewi, App)
  }

  /** `t.substitute(...)` on the command template. */
  function Command(s: Setting): string { Join(Words(s)) }

  lemma FixedWords()
    ensures AllWords(["runhybrid.py"]) && AllWords(Timing)
  {
    assert Graphic("runhybrid.py") && Graphic("--monitor") && Graphic("20");
    GraphicWords(["runhybrid.py"]);
    GraphicWords(Timing);
  }

  lemma AppWords()
    ensures AllWords(App)
  {
    assert Graphic("../Micropp/test/mpi-load-balance");
    assert Graphic("10") && Graphic("2400");
    GraphicWords(App);
  }

  /** The shell splits a rendered command back into the template's words. */
  lemma CommandTokens(s: Setting)
    ensures Tokens(Command(s)) == Words(s)
  {
    FixedWords();
    AppWords();
    RunWordsAreWords(s.vranks, Local, s.degree, Timing, s.drom, s.lewi, App);
    AllWordsConcat(["runhybrid.py"], RunWords(s.vranks, Local, s.degree, Timing, s.drom, s.lewi, App));
    TokensJoin(Words(s));
  }

  /** The settings of one degree: drom in ['true'], lewi in ['true']. */
  function DegreeBlock(numNodes: nat, degree: int): seq<Setting>
  {
    [Setting(numNodes * 2, degree, true, true)]
  }

  function DegreeBlockFn(numNodes: nat): int -> seq<Setting>
  {
    d => DegreeBlock(numNodes, d)
  }

  /** The settings `commands(num_nodes)` goes through, in order. */
  function Grid(numNodes: nat): seq<Setting>
  {
    ConcatMap(DegreeBlockFn(numNodes), Range(1, numNodes + 1))
  }

  /** `commands(num_nodes)`: the rendered command lines. */
  function Commands(numNodes: nat): seq<string>
  {
    MapSeq(Command, Grid(numNodes))
  }

  /**
   * Exactly num_nodes commands; the k-th has degree k+1 and vranks twice the
   * node count, and all of them switch DROM and LEWI on.
   */
  lemma GridShape(numNodes: nat)
    ensures |Grid(numNodes)| == numNodes
    ensures forall k :: 0 <= k < numNodes ==> Grid(numNodes)[k] == Setting(2 * numNodes, k + 1, true, true)
  {
    var xs := Range(1, numNodes + 1);
    ConcatMapSingle(DegreeBlockFn(numNodes), d => Setting(2 * numNodes, d, true, true), xs);
  }

  /**
   * Command k, split by the shell, is the template's words for degree k+1,
   * two vranks per node, the local policy and DROM and LEWI on.
   */
  lemma CommandFlags(numNodes: nat, k: nat)
    requires k < numNodes
    ensures k < |Commands(numNodes)|
    ensures Tokens(Commands(numNodes)[k]) == Words(Setting(2 * numNodes, k + 1, true, true))
  {
    GridShape(numNodes);
    CommandTokens(Grid(numNodes)[k]);
  }
}

/**
 * The sweep and the small parsers of syntheticconvergence/syntheticconvergence.py.
 * `commands` runs the convergence benchmark for degrees 1..min(4, n), both
 * policies past degree 1, every DROM/LEWI pair but (false, false) past
 * degree 1, and a list of target imbalances; it adds 60 s per unit of
 * imbalance to `est_time_secs`. Imbalances are kept in tenths (2.5 is 25),
 * which represents every value the script uses exactly.
 */
module SyntheticConvergence {
  import opened Wrappers
  import opened Text
  import opened Sweep

  /** `num_nodes()` */
  function NumNodes(): seq<nat> { [2, 4, 8, 16] }

  /** `imbalances(vranks)`, in tenths. */
  function Imbalances(vranks: nat): seq<nat>
  {
    if vranks == 2 then [10, 20]
    else if vranks == 4 then [10, 25, 40]
    else [10, 10 * vranks]
  }

  /** The list starts at 1.0, ends at float(vranks), and ascends strictly once vranks >= 2. */
  lemma ImbalancesRange(vranks: nat)
    ensures |Imbalances(vranks)| >= 2
    ensures Imbalances(vranks)[0] == 10 && Imbalances(vranks)[|Imbalances(vranks)| - 1] == 10 * vranks
    ensures vranks >= 2 ==> forall i, j :: 0 <= i < j < |Imbalances(vranks)| ==> Imbalances(vranks)[i] < Imbalances(vranks)[j]
  {
  }

  /** str() of a float with one decimal: 1.0, 2.5, 16.0. */
  function ImbText(tenths: nat): string
  {
    NatText(tenths / 10) + "." + NatText(tenths % 10)
  }

  /** The values one command substitutes into the template (imbalance in tenths). */
  datatype Setting = Setting(vranks: nat, degree: int, policy: Policy, drom: bool, lewi: bool, imbalance: nat)

  /** One (drom, lewi) pair of the loop. */
  datatype DromLewi = DromLewi(drom: bool, lewi: bool)

  /** Degree 1 runs only (true, true); larger degrees run every pair but (false, false). */
  function DromLewis(degree: int): seq<DromLewi>
  {
    if degree == 1 then [DromLewi(true, true)]
    else [DromLewi(true, true), DromLewi(true, false), DromLewi(false, true)]
  }

  // The nested loops of `commands`, innermost first: one block per loop variable.

  function ImbBlock(vranks: nat, degree: int, policy: Policy, dl: DromLewi, imb: nat): seq<Setting>
  {
    [Setting(vranks, degree, policy, dl.drom, dl.lewi, imb)]
  }

  function ImbBlockFn(vranks: nat, degree: int, policy: Policy, dl: DromLewi): nat -> seq<Setting>
  {
    (imb: nat) => ImbBlock(vranks, degree, policy, dl, imb)
  }

  function PairBlock(vranks: nat, degree: int, policy: Policy, dl: DromLewi): seq<Setting>
  {
    ConcatMap(ImbBlockFn(vranks, degree, policy, dl), Imbalances(vranks))
  }

  function PairBlockFn(vranks: nat, degree: int, policy: Policy): DromLewi -> seq<Setting>
  {
    dl => PairBlock(vranks, degree, policy, dl)
  }

  function PolicyBlock(vranks: nat, degree: int, policy: Policy): seq<Setting>
  {
    ConcatMap(PairBlockFn(vranks, degree, policy), DromLewis(degree))
  }

  function PolicyBlockFn(vranks: nat, degree: int): Policy -> seq<Setting>
  {
    p => PolicyBlock(vranks, degree, p)
  }

  function DegreeBlock(vranks: nat, degree: int): seq<Setting>
  {
    ConcatMap(PolicyBlockFn(vranks, degree), Policies(degree))
  }

  function DegreeBlockFn(vranks: nat): int -> seq<Setting>
  {
    d => DegreeBlock(vranks, d)
  }

  /** The settings `commands(num_nodes, ...)` yields, in order; none for a single node. */
  function Grid(numNodes: nat): seq<Setting>
  {
    if numNodes == 1 then [] else ConcatMap(DegreeBlockFn(numNodes), Range(1, Min(4, numNodes) + 1))
  }

  const Timing: seq<string> := ["--local-period", "10", "--monitor", "20"]

  /** The benchmark binary and its argument. */
  function App(s: Setting): seq<string> { ["build/syntheticconvergence", ImbText(s.imbalance)] }

  /** `t.substitute(...)` on the command template. */
  function Command(hybridParams: string, s: Setting): string
  {
    WithParams(HybridPrefix, hybridParams, RunWords(s.vranks, s.policy, s.degree, Timing, s.drom, s.lewi, App(s)))
  }

  function CommandFn(hybridParams: string): Setting -> string
  {
    s => Command(hybridParams, s)
  }

  /** `est_time_secs += imb * 60`, in seconds. */
  function Cost(s: Setting): nat { 6 * s.imbalance }

  /**
   * `commands(num_nodes, hybrid_params)` run to the end: the command lines
   * in loop order and the final `est_time_secs`, with their closed forms.
   */
  method Commands(numNodes: nat, hybridParams: string) returns (cmds: seq<string>, estTimeSecs: nat)
    ensures cmds == MapSeq(CommandFn(hybridParams), Grid(numNodes))
    ensures estTimeSecs == SumOf(Cost, Grid(numNodes))
    ensures numNodes <= 1 ==> cmds == [] && estTimeSecs == 0
    ensures numNodes >= 2 ==> |cmds| == (1 + 6 * (Min(4, numNodes) - 1)) * |Imbalances(numNodes)|
    ensures numNodes >= 2 ==> estTimeSecs == (1 + 6 * (Min(4, numNodes) - 1)) * (6 * TenthsSum(Imbalances(numNodes)))
  {
    cmds, estTimeSecs := Enumerate(Grid(numNodes), CommandFn(hybridParams), Cost);
    if numNodes >= 2 {
      GridCount(numNodes);
      GridEstimate(numNodes);
    }
  }

  // ------------------------------------------------------------ properties

  /** A block of one degree holds exactly its policies × pairs × imbalances. */
  lemma InDegreeBlock(vranks: nat, degree: int, s: Setting)
    ensures s in DegreeBlock(vranks, degree) <==>
      s.vranks == vranks && s.degree == degree && s.policy in Policies(degree) &&
      DromLewi(s.drom, s.lewi) in DromLewis(degree) && s.imbalance in Imbalances(vranks)
  {
    ConcatMapIn(PolicyBlockFn(vranks, degree), Policies(degree), s);
    InPolicyBlock(vranks, degree, s.policy, s);
    if s in DegreeBlock(vranks, degree) {
      var p :| p in Policies(degree) && s in PolicyBlock(vranks, degree, p);
      InPolicyBlock(vranks, degree, p, s);
    }
  }

  /** A block of one policy holds exactly its pairs × imbalances. */
  lemma InPolicyBlock(vranks: nat, degree: int, p: Policy, s: Setting)
    ensures s in PolicyBlock(vranks, degree, p) <==>
      s.vranks == vranks && s.degree == degree && s.policy == p &&
      DromLewi(s.drom, s.lewi) in DromLewis(degree) && s.imbalance in Imbalances(vranks)
  {
    var dl := DromLewi(s.drom, s.lewi);
    ConcatMapIn(PairBlockFn(vranks, degree, p), DromLewis(degree), s);
    InPairBlock(vranks, degree, p, dl, s);
    if s in PolicyBlock(vranks, degree, p) {
      var d :| d in DromLewis(degree) && s in PairBlock(vranks, degree, p, d);
      InPairBlock(vranks, degree, p, d, s);
    }
  }

  /** A block of one (drom, lewi) pair holds exactly its imbalances. */
  lemma InPairBlock(vranks: nat, degree: int, p: Policy, dl: DromLewi, s: Setting)
    ensures s in PairBlock(vranks, degree, p, dl) <==>
      s.vranks == vranks && s.degree == degree && s.policy == p &&
      DromLewi(s.drom, s.lewi) == dl && s.imbalance in Imbalances(vranks)
  {
    ConcatMapIn(ImbBlockFn(vranks, degree, p, dl), Imbalances(vranks), s);
  }

  /** The policy and DLB choices the loops of one degree allow. */
  lemma ChoicesAllowed(degree: int, s: Setting)
    ensures s.policy in Policies(degree) && DromLewi(s.drom, s.lewi) in DromLewis(degree) <==>
      (s.drom || s.lewi) && (degree == 1 ==> s.policy == Local && s.drom && s.lewi)
  {
    var dl := DromLewi(s.drom, s.lewi);
    if degree != 1 {
      assert s.policy == Policies(degree)[0] || s.policy == Policies(degree)[1];
      if s.drom && s.lewi {
        assert dl == DromLewis(degree)[0];
      } else if s.drom {
        assert dl == DromLewis(degree)[1];
      } else if s.lewi {
        assert dl == DromLewis(degree)[2];
      }
    }
  }

  /**
   * Which settings the sweep runs: none on a single node; otherwise vranks
   * equal to the node count, degrees 1..min(4, n), one of the imbalances,
   * never DROM and LEWI both off, and at degree 1 only local with both on.
   */
  lemma GridMember(numNodes: nat, s: Setting)
    ensures s in Grid(numNodes) <==>
      numNodes != 1 && s.vranks == numNodes && 1 <= s.degree <= Min(4, numNodes) &&
      s.imbalance in Imbalances(numNodes) && (s.drom || s.lewi) &&
      (s.degree == 1 ==> s.policy == Local && s.drom && s.lewi)
  {
    ChoicesAllowed(s.degree, s);
    if numNodes != 1 {
      var degrees := Range(1, Min(4, numNodes) + 1);
      ConcatMapIn(DegreeBlockFn(numNodes), degrees, s);
      InDegreeBlock(numNodes, s.degree, s);
      InRange(1, Min(4, numNodes) + 1, s.degree);
      if s in Grid(numNodes) {
        var d :| d in degrees && s in DegreeBlock(numNodes, d);
        InDegreeBlock(numNodes, d, s);
      }
    }
  }

  /** Every item of a block carries the block's degree. */
  lemma DegreeBlockDegrees(vranks: nat)
    ensures forall d, s :: s in DegreeBlockFn(vranks)(d) ==> s.degree == d
  {
    forall d, s | s in DegreeBlockFn(vranks)(d) ensures s.degree == d {
      InDegreeBlock(vranks, d, s);
    }
  }

  /** The commands come in ascending degree order. */
  lemma GridDegreeOrder(numNodes: nat)
    ensures forall i, j :: 0 <= i < j < |Grid(numNodes)| ==> Grid(numNodes)[i].degree <= Grid(numNodes)[j].degree
  {
    if numNodes != 1 {
      DegreeBlockDegrees(numNodes);
      ConcatMapKeyOrder(DegreeBlockFn(numNodes), Range(1, Min(4, numNodes) + 1), (s: Setting) => s.degree);
    }
  }

  /** Sum of a list of tenths. */
  function TenthsSum(xs: seq<nat>): nat
  {
    if xs == [] then 0 else TenthsSum(xs[..|xs| - 1]) + xs[|xs| - 1]
  }

  /** The innermost loop runs once per imbalance and adds 60 s per unit of it. */
  lemma {:induction false} ImbLoopTotals(vranks: nat, degree: int, policy: Policy, dl: DromLewi, xs: seq<nat>)
    ensures |ConcatMap(ImbBlockFn(vranks, degree, policy, dl), xs)| == |xs|
    ensures SumOf(Cost, ConcatMap(ImbBlockFn(vranks, degree, policy, dl), xs)) == 6 * TenthsSum(xs)
    decreases |xs|
  {
    if xs != [] {
      var ys := xs[..|xs| - 1];
      var f := ImbBlockFn(vranks, degree, policy, dl);
      ImbLoopTotals(vranks, degree, policy, dl, ys);
      var s := Setting(vranks, degree, policy, dl.drom, dl.lewi, xs[|xs| - 1]);
      assert ConcatMap(f, xs) == ConcatMap(f, ys) + [s];
      SumOfStep(Cost, ConcatMap(f, ys), s);
    }
  }

  /** The combinations of policy and (drom, lewi) one degree runs: 1 at degree 1, else 2 × 3. */
  function Combos(degree: int): nat { if degree == 1 then 1 else 6 }

  /** One degree's block: its combinations times the imbalances. */
  lemma DegreeBlockCount(vranks: nat, degree: int)
    ensures |DegreeBlock(vranks, degree)| == Combos(degree) * |Imbalances(vranks)|
  {
    var len := |Imbalances(vranks)|;
    var pairs, policies := DromLewis(degree), Policies(degree);
    forall p: Policy ensures |PolicyBlock(vranks, degree, p)| == |pairs| * len {
      forall dl: DromLewi ensures |PairBlock(vranks, degree, p, dl)| == len {
        ImbLoopTotals(vranks, degree, p, dl, Imbalances(vranks));
      }
      ConcatMapLength(PairBlockFn(vranks, degree, p), pairs, len);
    }
    ConcatMapLength(PolicyBlockFn(vranks, degree), policies, |pairs| * len);
    CombosProduct(degree, len);
  }

  /** ... and its estimate: the combinations times 60 s per unit of imbalance. */
  lemma DegreeBlockCost(vranks: nat, degree: int)
    ensures SumOf(Cost, DegreeBlock(vranks, degree)) == Combos(degree) * (6 * TenthsSum(Imbalances(vranks)))
  {
    var sum := 6 * TenthsSum(Imbalances(vranks));
    var pairs, policies := DromLewis(degree), Policies(degree);
    forall p: Policy ensures SumOf(Cost, PolicyBlock(vranks, degree, p)) == |pairs| * sum {
      forall dl: DromLewi ensures SumOf(Cost, PairBlock(vranks, degree, p, dl)) == sum {
        ImbLoopTotals(vranks, degree, p, dl, Imbalances(vranks));
      }
      SumOfConcatMapConst(Cost, PairBlockFn(vranks, degree, p), pairs, sum);
    }
    SumOfConcatMapConst(Cost, PolicyBlockFn(vranks, degree), policies, |pairs| * sum);
    CombosProduct(degree, sum);
  }

  lemma CombosProduct(degree: int, x: nat)
    ensures |Policies(degree)| * (|DromLewis(degree)| * x) == Combos(degree) * x
  {
  }

  /** The degree loop: degree 1 first, then degrees 2..min(4, n). */
  lemma GridSplit(numNodes: nat)
    requires numNodes >= 2
    ensures Grid(numNodes) == DegreeBlock(numNodes, 1) + UpperDegrees(numNodes)
  {
    ConcatMapRangeFirst(DegreeBlockFn(numNodes), 1, Min(4, numNodes) + 1);
  }

  /** Degree 1: local only, (true, true) only: one command per imbalance. */
  lemma DegreeOneTotals(vranks: nat)
    ensures |DegreeBlock(vranks, 1)| == |Imbalances(vranks)|
    ensures SumOf(Cost, DegreeBlock(vranks, 1)) == 6 * TenthsSum(Imbalances(vranks))
  {
    DegreeBlockCount(vranks, 1);
    DegreeBlockCost(vranks, 1);
  }

  function UpperDegrees(numNodes: nat): seq<Setting>
  {
    ConcatMap(DegreeBlockFn(numNodes), Range(2, Min(4, numNodes) + 1))
  }

  /** Degrees 2..min(4, n): six combinations each. */
  lemma UpperDegreesCount(numNodes: nat)
    requires numNodes >= 2
    ensures |UpperDegrees(numNodes)| == (Min(4, numNodes) - 1) * (6 * |Imbalances(numNodes)|)
  {
    var rest := Range(2, Min(4, numNodes) + 1);
    forall k | 0 <= k < |rest| ensures |DegreeBlockFn(numNodes)(rest[k])| == 6 * |Imbalances(numNodes)| {
      DegreeBlockCount(numNodes, rest[k]);
    }
    ConcatMapLength(DegreeBlockFn(numNodes), rest, 6 * |Imbalances(numNodes)|);
  }

  lemma UpperDegreesCost(numNodes: nat)
    requires numNodes >= 2
    ensures SumOf(Cost, UpperDegrees(numNodes)) == (Min(4, numNodes) - 1) * (6 * (6 * TenthsSum(Imbalances(numNodes))))
  {
    var rest := Range(2, Min(4, numNodes) + 1);
    var sum := 6 * TenthsSum(Imbalances(numNodes));
    forall k | 0 <= k < |rest| ensures SumOf(Cost, DegreeBlockFn(numNodes)(rest[k])) == 6 * sum {
      DegreeBlockCost(numNodes, rest[k]);
    }
    SumOfConcatMapConst(Cost, DegreeBlockFn(numNodes), rest, 6 * sum);
  }

  /** On one node (or none) the sweep is empty and the estimate stays 0. */
  lemma GridSingleNode(numNodes: nat)
    requires numNodes <= 1
    ensures Grid(numNodes) == [] && SumOf(Cost, Grid(numNodes)) == 0
  {
  }

  /** On n >= 2 nodes the sweep runs (1 + 6·(min(4, n) − 1)) × |imbalances(n)| commands. */
  lemma GridCount(numNodes: nat)
    requires numNodes >= 2
    ensures |Grid(numNodes)| == (1 + 6 * (Min(4, numNodes) - 1)) * |Imbalances(numNodes)|
  {
    var a, x := Min(4, numNodes) - 1, |Imbalances(numNodes)|;
    GridSplit(numNodes);
    DegreeOneTotals(numNodes);
    UpperDegreesCount(numNodes);
    Regroup(a, x);
  }

  /**
   * ... and `est_time_secs` ends at 60 s per unit of imbalance for each of
   * them: the sum of the imbalances times the number of degree, policy and
   * (drom, lewi) combinations.
   */
  lemma GridEstimate(numNodes: nat)
    requires numNodes >= 2
    ensures SumOf(Cost, Grid(numNodes)) == (1 + 6 * (Min(4, numNodes) - 1)) * (6 * TenthsSum(Imbalances(numNodes)))
  {
    DegreeOneTotals(numNodes);
    UpperDegreesCost(numNodes);
    GridEstimateFrom(numNodes, 6 * TenthsSum(Imbalances(numNodes)));
  }

  /** The estimate from what degree 1 and the degrees above it add. */
  lemma GridEstimateFrom(numNodes: nat, x: nat)
    requires numNodes >= 2
    requires SumOf(Cost, DegreeBlock(numNodes, 1)) == x
    requires SumOf(Cost, UpperDegrees(numNodes)) == (Min(4, numNodes) - 1) * (6 * x)
    ensures SumOf(Cost, Grid(numNodes)) == (1 + 6 * (Min(4, numNodes) - 1)) * x
  {
    GridSumSplit(numNodes);
    AddBlocks(SumOf(Cost, Grid(numNodes)), SumOf(Cost, DegreeBlock(numNodes, 1)), SumOf(Cost, UpperDegrees(numNodes)),
      Min(4, numNodes) - 1, x);
  }

  lemma AddBlocks(total: nat, first: nat, rest: nat, a: nat, x: nat)
    requires total == first + rest && first == x && rest == a * (6 * x)
    ensures total == (1 + 6 * a) * x
  {
    Regroup(a, x);
  }

  lemma GridSumSplit(numNodes: nat)
    requires numNodes >= 2
    ensures SumOf(Cost, Grid(numNodes)) == SumOf(Cost, DegreeBlock(numNodes, 1)) + SumOf(Cost, UpperDegrees(numNodes))
  {
    GridSplit(numNodes);
    SumOfAppend(Cost, DegreeBlock(numNodes, 1), UpperDegrees(numNodes));
  }

  lemma Regroup(a: nat, x: nat)
    ensures x + a * (6 * x) == (1 + 6 * a) * x
  {
  }

  // ------------------------------------------------------------ the command line

  lemma TimingWords()
    ensures AllWords(Timing)
  {
    assert Graphic("--local-period") && Graphic("10") && Graphic("--monitor") && Graphic("20");
    GraphicWords(Timing);
  }

  lemma AppWords(s: Setting)
    ensures AllWords(App(s))
  {
    assert Graphic("build/syntheticconvergence");
    GraphicWord("build/syntheticconvergence");
    IntTextIsWord(s.imbalance / 10);
    IntTextIsWord(s.imbalance % 10);
    assert IntText(s.imbalance / 10) == NatText(s.imbalance / 10);
    assert IntText(s.imbalance % 10) == NatText(s.imbalance % 10);
    assert NoSpace(".");
    WordConcat(NatText(s.imbalance / 10), ".");
    WordConcat(NatText(s.imbalance / 10) + ".", NatText(s.imbalance % 10));
  }

  /**
   * What runhybrid.py receives: the fixed prefix with `$hybrid_directory`
   * kept literally, whatever words the hybrid parameters split into, then
   * the shared arguments with this setting's values and the imbalance as
   * the benchmark's one argument.
   */
  lemma CommandTokens(hybridParams: string, s: Setting)
    ensures Tokens(Command(hybridParams, s)) ==
      HybridPrefix + Tokens(hybridParams) + RunWords(s.vranks, s.policy, s.degree, Timing, s.drom, s.lewi, App(s))
  {
    HybridPrefixWords();
    TimingWords();
    AppWords(s);
    RunWordsAreWords(s.vranks, s.policy, s.degree, Timing, s.drom, s.lewi, App(s));
    WithParamsTokens(HybridPrefix, hybridParams, RunWords(s.vranks, s.policy, s.degree, Timing, s.drom, s.lewi, App(s)));
  }

  // ------------------------------------------------------------ map files

  /**
   * `read_map_entry(key, line)`: the int after the label, None when the
   * line has fewer than two words or another first word than the label, and the
   * ValueError of int() when the second word is not a number.
   */
  function ReadMapEntry(key: string, line: string): Result<Option<int>, PyError>
  {
    var s := Tokens(line);
    if |s| < 2 || s[0] != key then Ok(None)
    else match PyInt(s[1])
      case Some(v) => Ok(Some(v))
      case None => Err(ValueError)
  }

  /** A line written as "<label> <value>\n" reads back as the value. */
  lemma ReadMapEntryWritten(key: string, v: int)
    requires IsWord(key)
    ensures ReadMapEntry(key, Join([key, IntText(v)]) + "\n") == Ok(Some(v))
  {
    IntTextIsWord(v);
    var ws := [key, IntText(v)];
    assert AllWords(ws);
    TokensJoin(ws);
    TokensNewline(Join(ws));
    PyIntOfIntText(v);
  }

  /** A line that starts with another label is skipped, whatever follows. */
  lemma ReadMapEntryOtherLabel(key: string, other: string, rest: string)
    requires IsWord(other) && other != key
    ensures ReadMapEntry(key, other + " " + rest) == Ok(None)
  {
    TokensWordSpace(other, rest);
  }

  // ------------------------------------------------------------ file names

  /** re.match('(.*convergence.*)\.txt', name) can end group 1 at e. */
  predicate StemAt(name: string, e: int)
  {
    0 <= e && e + 4 <= |name| && name[e..e + 4] == ".txt" &&
    (forall i :: 0 <= i < e ==> name[i] != '\n') && Contains(name[..e], "convergence")
  }

  /** The greedy match: the last end at or below e that works. */
  function LastStem(name: string, e: int): (r: Option<int>)
    requires e < |name|
    ensures r.Some? ==> 0 <= r.value <= e && StemAt(name, r.value)
    ensures r.Some? ==> forall e' :: r.value < e' <= e ==> !StemAt(name, e')
    ensures r.None? ==> forall e' :: 0 <= e' <= e ==> !StemAt(name, e')
    decreases e + 1
  {
    if e < 0 then None
    else if StemAt(name, e) then Some(e)
    else LastStem(name, e - 1)
  }

  /**
   * `fullname_to_hybriddir(name)`: group 1 with ".hybrid" appended; None
   * where the script prints an error and exits with status 1.
   */
  function FullnameToHybriddir(name: string): (r: Option<string>)
    ensures r.Some? <==> exists e :: StemAt(name, e)
    ensures r.Some? ==> exists e :: StemAt(name, e) && r.value == name[..e] + ".hybrid" &&
                                    (forall e' :: e < e' ==> !StemAt(name, e'))
  {
    if |name| < 4 then None
    else match LastStem(name, |name| - 4)
      case Some(e) => Some(name[..e] + ".hybrid")
      case None => None
  }

  /** The names the benchmark writes, "<stem>.txt" with "convergence" in the stem, map to "<stem>.hybrid". */
  lemma HybriddirOfTxt(stem: string)
    requires Contains(stem, "convergence") && forall i :: 0 <= i < |stem| ==> stem[i] != '\n'
    ensures FullnameToHybriddir(stem + ".txt") == Some(stem + ".hybrid")
  {
    var name := stem + ".txt";
    assert name[..|stem|] == stem;
    assert name[|stem|..|stem| + 4] == ".txt";
    assert StemAt(name, |stem|);
  }
}

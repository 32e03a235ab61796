/**
 * The driver in synthetic/unbalanced-sweep.py: for each memory size, and
 * each DROM/LEWI pair other than both off, it sets the two runtime
 * environment variables, prints them and the command, flushes and runs the
 * command, which is the given prefix, the memory size and the given suffix.
 * The environment, standard output and the shell are modelled as the list
 * of actions the script performs, in order.
 */
module UnbalancedMemSweep {
  import opened Wrappers
  import opened Text
  import opened Sweep

  /** One effect of the script on the outside world. */
  datatype Action =
    | SetEnv(name: string, value: string)   // os.environ[name] = value
    | Say(line: string)                     // a print statement (its newline left implicit)
    | Flush                                 // sys.stdout.flush()
    | System(cmd: string)                   // os.system(cmd)

  /** The bytes-per-task sizes of the outer loop, in order. */
  const Mems: seq<string> := ["1", "1k", "10k", "100k", "1M", "10M", "20M", "40M"]

  /** One run: a memory size and the two switches, each 0 or 1. */
  datatype Run = Run(mem: string, drom: int, lewi: int)

  /** The innermost loop body: a run only when at least one switch is on. */
  function LewiBlock(mem: string, drom: int, lewi: int): seq<Run>
  {
    if drom == 1 || lewi == 1 then [Run(mem, drom, lewi)] else []
  }

  function LewiBlockFn(mem: string, drom: int): int -> seq<Run>
  {
    l => LewiBlock(mem, drom, l)
  }

  function DromBlock(mem: string, drom: int): seq<Run>
  {
    ConcatMap(LewiBlockFn(mem, drom), [0, 1])
  }

  function DromBlockFn(mem: string): int -> seq<Run>
  {
    d => DromBlock(mem, d)
  }

  function MemBlock(mem: string): seq<Run>
  {
    ConcatMap(DromBlockFn(mem), [0, 1])
  }

  function MemBlockFn(): string -> seq<Run>
  {
    m => MemBlock(m)
  }

  /** Every run the script performs, in order. */
  function Runs(): seq<Run>
  {
    ConcatMap(MemBlockFn(), Mems)
  }

  /** `cmd_prefix + ' ' + mem + ' ' + cmd_suffix` */
  function Cmd(prefix: string, suffix: string, mem: string): string
  {
    prefix + " " + mem + " " + suffix
  }

  /** What Python 2's `print 'NANOS6_ENABLE_DROM =', drom, 'NANOS6_ENABLE_LEWI =', lewi` writes. */
  function Banner(drom: int, lewi: int): string
  {
    "NANOS6_ENABLE_DROM = " + IntText(drom) + " NANOS6_ENABLE_LEWI = " + IntText(lewi)
  }

  /** The body of the innermost `if`, for one run. */
  function RunActions(prefix: string, suffix: string, r: Run): seq<Action>
  {
    [SetEnv("NANOS6_ENABLE_DROM", IntText(r.drom)),
     SetEnv("NANOS6_ENABLE_LEWI", IntText(r.lewi)),
     Say(Banner(r.drom, r.lewi)),
     Say(Cmd(prefix, suffix, r.mem)),
     Flush,
     System(Cmd(prefix, suffix, r.mem))]
  }

  function RunActionsFn(prefix: string, suffix: string): Run -> seq<Action>
  {
    r => RunActions(prefix, suffix, r)
  }

  /** Everything the script does with the given prefix and suffix. */
  function Actions(prefix: string, suffix: string): seq<Action>
  {
    ConcatMap(RunActionsFn(prefix, suffix), Runs())
  }

  /**
   * `main(argv)`: with fewer than three arguments, reading argv[1] or
   * argv[2] raises IndexError before anything happens; otherwise the loops
   * perform the actions of every run in order.
   */
  method Perform(argv: seq<string>) returns (r: Result<seq<Action>, PyError>)
    ensures |argv| < 3 <==> r == Err(IndexError)
    ensures |argv| >= 3 ==> r == Ok(Actions(argv[1], argv[2]))
  {
    if |argv| < 3 {
      return Err(IndexError);
    }
    var prefix, suffix := argv[1], argv[2];
    var f := RunActionsFn(prefix, suffix);
    var out: seq<Action> := [];
    for i := 0 to |Mems|
      invariant out == ConcatMap(f, ConcatMap(MemBlockFn(), Mems[..i]))
    {
      var acts := MemLoop(prefix, suffix, Mems[i]);
      ConcatMapStep(MemBlockFn(), Mems, i);
      ConcatMapAppend(f, ConcatMap(MemBlockFn(), Mems[..i]), MemBlock(Mems[i]));
      out := out + acts;
    }
    assert Mems[..|Mems|] == Mems;
    return Ok(out);
  }

  /** One iteration of the memory loop: the drom loop and, inside it, the lewi loop. */
  method MemLoop(prefix: string, suffix: string, mem: string) returns (out: seq<Action>)
    ensures out == ConcatMap(RunActionsFn(prefix, suffix), MemBlock(mem))
  {
    var f := RunActionsFn(prefix, suffix);
    out := [];
    var drom := 0;
    while drom < 2
      invariant 0 <= drom <= 2
      invariant out == ConcatMap(f, ConcatMap(DromBlockFn(mem), [0, 1][..drom]))
    {
      var acts := DromLoop(prefix, suffix, mem, drom);
      ghost var runs := ConcatMap(DromBlockFn(mem), [0, 1][..drom]);
      ConcatMapStep(DromBlockFn(mem), [0, 1], drom);
      ConcatMapAppend(f, runs, DromBlock(mem, drom));
      out := out + acts;
      drom := drom + 1;
    }
    assert [0, 1][..2] == [0, 1];
  }

  /** One iteration of the drom loop: the lewi loop with its `if`. */
  method DromLoop(prefix: string, suffix: string, mem: string, drom: int) returns (out: seq<Action>)
    ensures out == ConcatMap(RunActionsFn(prefix, suffix), DromBlock(mem, drom))
  {
    var f := RunActionsFn(prefix, suffix);
    out := [];
    var lewi := 0;
    while lewi < 2
      invariant 0 <= lewi <= 2
      invariant out == ConcatMap(f, ConcatMap(LewiBlockFn(mem, drom), [0, 1][..lewi]))
    {
      ghost var runs := ConcatMap(LewiBlockFn(mem, drom), [0, 1][..lewi]);
      ConcatMapStep(LewiBlockFn(mem, drom), [0, 1], lewi);
      ConcatMapAppend(f, runs, LewiBlock(mem, drom, lewi));
      if drom == 1 || lewi == 1 {
        ConcatMapOne(f, Run(mem, drom, lewi));
        out := out + RunActions(prefix, suffix, Run(mem, drom, lewi));
      } else {
        assert LewiBlock(mem, drom, lewi) == [];
      }
      lewi := lewi + 1;
    }
    assert [0, 1][..2] == [0, 1];
  }

  /** For each memory size: DROM off and LEWI on, then DROM on and LEWI off, then both on. */
  lemma MemBlockShape(mem: string)
    ensures MemBlock(mem) == [Run(mem, 0, 1), Run(mem, 1, 0), Run(mem, 1, 1)]
  {
    assert DromBlock(mem, 0) == [Run(mem, 0, 1)] by {
      assert ConcatMap(LewiBlockFn(mem, 0), [0]) == [];
      assert [0, 1][..1] == [0];
    }
    assert DromBlock(mem, 1) == [Run(mem, 1, 0), Run(mem, 1, 1)] by {
      assert [0, 1][..1] == [0];
      ConcatMapOne(LewiBlockFn(mem, 1), 0);
    }
    assert [0, 1][..1] == [0];
    ConcatMapOne(DromBlockFn(mem), 0);
  }

  /**
   * There are 24 runs, memory size outermost: run 3m + j uses the m-th
   * size and the j-th of the pairs (0, 1), (1, 0), (1, 1); both switches
   * off never occurs.
   */
  lemma RunsShape(m: nat, j: nat)
    requires m < |Mems| && j < 3
    ensures |Runs()| == 24
    ensures Runs()[3 * m + j] == Run(Mems[m], [0, 1, 1][j], [1, 0, 1][j])
  {
    forall k | 0 <= k < |Mems| ensures |MemBlock(Mems[k])| == 3 {
      MemBlockShape(Mems[k]);
    }
    ConcatMapLength(MemBlockFn(), Mems, 3);
    ConcatMapIndex(MemBlockFn(), Mems, 3, m, j);
    MemBlockShape(Mems[m]);
  }

  /** No run has both switches off; every run has each switch at 0 or 1. */
  lemma RunsSwitches(r: Run)
    requires r in Runs()
    ensures r.drom in {0, 1} && r.lewi in {0, 1} && (r.drom == 1 || r.lewi == 1)
    ensures r.mem in Mems
  {
    RunsOfSizes(Mems, r);
  }

  /** Whatever the sizes, the loops give each run one of them and the three switch pairs. */
  lemma RunsOfSizes(mems: seq<string>, r: Run)
    requires r in ConcatMap(MemBlockFn(), mems)
    ensures r.drom in {0, 1} && r.lewi in {0, 1} && (r.drom == 1 || r.lewi == 1)
    ensures r.mem in mems
  {
    ConcatMapIn(MemBlockFn(), mems, r);
    var mem :| mem in mems && r in MemBlock(mem);
    MemBlockShape(mem);
  }

  /**
   * Run k performs the six actions at positions 6k..6k+5: both variables set
   * to the run's switches, the banner, the command echoed, a flush and the
   * command itself, which depends only on the memory size.
   */
  lemma ActionsOfRun(prefix: string, suffix: string, k: nat)
    requires k < |Runs()|
    ensures |Actions(prefix, suffix)| == 6 * |Runs()|
    ensures Actions(prefix, suffix)[6 * k .. 6 * k + 6] ==
      [SetEnv("NANOS6_ENABLE_DROM", IntText(Runs()[k].drom)),
       SetEnv("NANOS6_ENABLE_LEWI", IntText(Runs()[k].lewi)),
       Say(Banner(Runs()[k].drom, Runs()[k].lewi)),
       Say(Cmd(prefix, suffix, Runs()[k].mem)),
       Flush,
       System(Cmd(prefix, suffix, Runs()[k].mem))]
  {
    ActionsBlock(prefix, suffix, Runs(), k);
  }

  /** Whatever the runs, each contributes its six actions at its own place. */
  lemma ActionsBlock(prefix: string, suffix: string, runs: seq<Run>, k: nat)
    requires k < |runs|
    ensures |ConcatMap(RunActionsFn(prefix, suffix), runs)| == 6 * |runs|
    ensures ConcatMap(RunActionsFn(prefix, suffix), runs)[6 * k .. 6 * k + 6] == RunActions(prefix, suffix, runs[k])
  {
    var f := RunActionsFn(prefix, suffix);
    ConcatMapLength(f, runs, 6);
    ConcatMapBlock(f, runs, 6, k);
  }
}

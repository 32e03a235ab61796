/**
 * The redistribution test tests/dmalloc-redistribute.c: four application
 * ranks each run 240 tasks per iteration over blocks of a distributed
 * array, every task checks that its block still holds what the previous
 * iteration wrote and writes a new hash, and rank 0 tallies how many tasks
 * of each rank ran on each node and how much work each node received.
 * The tasks run one after another, as their `inout` dependencies on the
 * blocks allow; the node a task runs on is an input.
 */
module DmallocRedistribute {
  import opened CArith
  import WorkSplit

  const NumAppranks: nat := 4
  const BlockSize: nat := 1000
  const NumTasks: nat := 48 * 5
  const NumIter: nat := 3

  /** The milliseconds of one task, per apprank. */
  const Work: seq<int> := [486, 160, 25, 20]

  /** `hash`, in 32-bit `int`. */
  function Hash(i: int, j: int, k: int): int
  {
    Wrap32(i * 7001 + j * 7013 + k * 7019)
  }

  /** Within the test's iterations, tasks and block words the hash never overflows. */
  lemma HashExact(i: int, j: int, k: int)
    requires 0 <= i < NumIter && 0 <= j < NumTasks && 0 <= k < BlockSize
    ensures Hash(i, j, k) == i * 7001 + j * 7013 + k * 7019
  {
  }

  /**
   * What a block word holds after one iteration differs from what it held
   * after the one before, so a write that was lost is caught by the check.
   */
  lemma HashSeparatesIterations(i: int, j: int, k: int)
    requires 1 <= i < NumIter && 0 <= j < NumTasks && 0 <= k < BlockSize
    ensures Hash(i, j, k) == Hash(i - 1, j, k) + 7001
  {
    HashExact(i, j, k);
    HashExact(i - 1, j, k);
  }

  /** `get_work`: the work table rotated by the iteration. */
  function GetWork(apprank: nat, iter: nat): int
  {
    Work[(apprank + iter) % NumAppranks]
  }

  /** The work of ranks 0..3 in one iteration. */
  function RankWorks(iter: nat): seq<int>
  {
    [GetWork(0, iter), GetWork(1, iter), GetWork(2, iter), GetWork(3, iter)]
  }

  /** In every iteration the ranks get the work table rotated by the iteration. */
  lemma RotatedWork(iter: nat)
    ensures RankWorks(iter) == Work[iter % 4..] + Work[..iter % 4]
  {
    WorkShift(0, iter);
    WorkShift(1, iter);
    WorkShift(2, iter);
    WorkShift(3, iter);
    RotationValues(iter % 4);
  }

  /** So each rank gets one of the four values and each value goes to one rank. */
  lemma RankWorksPermute(iter: nat)
    ensures multiset(RankWorks(iter)) == multiset(Work)
  {
    RotatedWork(iter);
    RotationPermutes(Work, iter % 4);
  }

  /** So one task index weighs 691 milliseconds over all ranks, in every iteration. */
  lemma RankWorksTotal(iter: nat)
    ensures GetWork(0, iter) + GetWork(1, iter) + GetWork(2, iter) + GetWork(3, iter) == 691
  {
    WorkShift(0, iter);
    WorkShift(1, iter);
    WorkShift(2, iter);
    WorkShift(3, iter);
  }

  lemma RotationValues(r: nat)
    requires r < 4
    ensures Work[r..] + Work[..r] == [Work[r % 4], Work[(1 + r) % 4], Work[(2 + r) % 4], Work[(3 + r) % 4]]
  {
    RotateFour(Work, r);
  }

  lemma RotateFour(w: seq<int>, r: nat)
    requires |w| == 4 && r < 4
    ensures w[r..] + w[..r] == [w[r % 4], w[(1 + r) % 4], w[(2 + r) % 4], w[(3 + r) % 4]]
  {
    if r == 0 {
      assert w[0..] + w[..0] == [w[0], w[1], w[2], w[3]];
    } else if r == 1 {
      assert w[1..] + w[..1] == [w[1], w[2], w[3], w[0]];
    } else if r == 2 {
      assert w[2..] + w[..2] == [w[2], w[3], w[0], w[1]];
    } else {
      assert w[3..] + w[..3] == [w[3], w[0], w[1], w[2]];
    }
  }

  /** Rotating a sequence keeps its elements. */
  lemma RotationPermutes(s: seq<int>, r: nat)
    requires r <= |s|
    ensures multiset(s[r..] + s[..r]) == multiset(s)
  {
    assert s == s[..r] + s[r..];
  }

  lemma WorkShift(p: nat, iter: nat)
    requires p < 4
    ensures GetWork(p, iter) == Work[(p + iter % 4) % 4]
  {
    var r, q := iter % 4, iter / 4;
    assert iter == r + 4 * q;
    ModFour(p + r, q);
    assert p + iter == p + r + 4 * q;
  }

  lemma {:induction false} ModFour(x: nat, q: nat)
    ensures (x + 4 * q) % 4 == x % 4
  {
    if q > 0 {
      ModFour(x, q - 1);
      assert x + 4 * q == (x + 4 * (q - 1)) + 4;
    }
  }

  // ------------------------------------------------------------- the tasks

  /** The check loop of one task: every word of the block holds the previous iteration's hash. */
  method CheckBlock(a: array2<int>, iter: int, task: int) returns (ok: bool)
    requires 0 <= task < a.Length0
    ensures ok <==> forall w :: 0 <= w < a.Length1 ==> a[task, w] == Hash(iter - 1, task, w)
  {
    for w := 0 to a.Length1
      invariant forall v :: 0 <= v < w ==> a[task, v] == Hash(iter - 1, task, v)
    {
      if a[task, w] != Hash(iter - 1, task, w) {
        return false;
      }
    }
    return true;
  }

  /** The write loop of one task: the block gets this iteration's hash, nothing else changes. */
  method WriteBlock(a: array2<int>, iter: int, task: int)
    requires 0 <= task < a.Length0
    modifies a
    ensures forall w :: 0 <= w < a.Length1 ==> a[task, w] == Hash(iter, task, w)
    ensures forall t, w :: 0 <= t < a.Length0 && 0 <= w < a.Length1 && t != task ==> a[t, w] == old(a[t, w])
  {
    for w := 0 to a.Length1
      invariant forall v :: 0 <= v < w ==> a[task, v] == Hash(iter, task, v)
      invariant forall t, v :: 0 <= t < a.Length0 && 0 <= v < a.Length1 && t != task ==> a[t, v] == old(a[t, v])
    {
      a[task, w] := Hash(iter, task, w);
    }
  }

  /** Every block holds the hash of iteration iter. */
  ghost predicate Written(a: array2<int>, iter: int)
    reads a
  {
    forall t, w :: 0 <= t < a.Length0 && 0 <= w < a.Length1 ==> a[t, w] == Hash(iter, t, w)
  }

  /**
   * The task loop of one iteration: task t records the node it ran on,
   * from iteration 1 on checks its block (false: the assertion fails and
   * the program stops) and writes its block.
   */
  method RunTasks(a: array2<int>, ranks: array<int>, iter: nat, placement: seq<int>) returns (ok: bool)
    requires ranks.Length == a.Length0 == |placement|
    modifies a, ranks
    ensures ok <==> iter == 0 || old(Written(a, iter - 1))
    ensures ok ==> Written(a, iter) && ranks[..] == placement
  {
    for t := 0 to ranks.Length
      invariant iter > 0 ==> forall s, w :: 0 <= s < t && 0 <= w < a.Length1 ==> old(a[s, w]) == Hash(iter - 1, s, w)
      invariant forall s, w :: 0 <= s < t && 0 <= w < a.Length1 ==> a[s, w] == Hash(iter, s, w)
      invariant forall s, w :: t <= s < a.Length0 && 0 <= w < a.Length1 ==> a[s, w] == old(a[s, w])
      invariant ranks[..t] == placement[..t]
    {
      ranks[t] := placement[t];
      if iter > 0 {
        var good := CheckBlock(a, iter, t);
        if !good {
          return false;
        }
      }
      WriteBlock(a, iter, t);
      assert ranks[..t + 1] == placement[..t + 1];
    }
    assert ranks[..] == ranks[..ranks.Length];
    return true;
  }

  /**
   * The iterations: the check of iteration 0 is skipped and every later one
   * finds what the one before wrote, so the test never fails an assertion
   * whatever node each task runs on.
   */
  method RunAll(a: array2<int>, ranks: array<int>, placements: seq<seq<int>>) returns (ok: bool)
    requires ranks.Length == a.Length0
    requires forall i :: 0 <= i < |placements| ==> |placements[i]| == ranks.Length
    modifies a, ranks
    ensures ok
    ensures |placements| > 0 ==> Written(a, |placements| - 1) && ranks[..] == placements[|placements| - 1]
  {
    ok := true;
    for iter := 0 to |placements|
      invariant ok
      invariant iter > 0 ==> Written(a, iter - 1) && ranks[..] == placements[iter - 1]
    {
      ok := RunTasks(a, ranks, iter, placements[iter]);
    }
  }

  // ------------------------------------------------------------ the tally

  /** How many entries of row are node. */
  function Count(row: seq<int>, node: int): (c: nat)
    ensures c <= |row|
  {
    if row == [] then 0 else Count(row[..|row| - 1], node) + (if row[|row| - 1] == node then 1 else 0)
  }

  /** Every entry names one of the numNodes nodes (the assertion in the tally). */
  predicate AllIn(row: seq<int>, numNodes: int)
  {
    forall t :: 0 <= t < |row| ==> 0 <= row[t] < numNodes
  }

  /** The counts rank 0 prints for one rank: one per node. */
  function Counts(row: seq<int>, numNodes: nat): seq<nat>
  {
    seq(numNodes, n => Count(row, n))
  }

  /** The work the ranks' tasks bring to a node: each task of rank p weighs get_work(p, iter). */
  function WorkOn(rows: seq<seq<int>>, iter: nat, node: int): int
  {
    if rows == [] then 0
    else WorkOn(rows[..|rows| - 1], iter, node) + Count(rows[|rows| - 1], node) * GetWork(|rows| - 1, iter)
  }

  function WorkOnAll(rows: seq<seq<int>>, iter: nat, numNodes: nat): seq<int>
  {
    seq(numNodes, n => WorkOn(rows, iter, n))
  }

  /**
   * The inner loop of the tally: count rank p's tasks on one node and add
   * their work to the node; false when a task names no node.
   */
  method NodeCount(row: seq<int>, p: nat, iter: nat, node: nat, workOn: array<int>) returns (ok: bool, count: nat)
    requires node < workOn.Length
    modifies workOn
    ensures ok <==> AllIn(row, workOn.Length)
    ensures ok ==> count == Count(row, node)
    ensures ok ==> workOn[..] == old(workOn[..])[node := old(workOn[node]) + Count(row, node) * GetWork(p, iter)]
  {
    var g := GetWork(p, iter);
    count := 0;
    for t := 0 to |row|
      invariant AllIn(row[..t], workOn.Length)
      invariant count == Count(row[..t], node)
      invariant workOn[..] == old(workOn[..])[node := old(workOn[node]) + count * g]
    {
      assert row[..t + 1][..t] == row[..t];
      if !(0 <= row[t] < workOn.Length) {
        return false, count;
      }
      if row[t] == node {
        assert (count + 1) * g == count * g + g;
        count := count + 1;
        workOn[node] := workOn[node] + g;
      }
    }
    assert row[..|row|] == row;
    return true, count;
  }

  /** The node loop for rank p: every node's count, and every node's work grown by this rank's share. */
  method RankTally(row: seq<int>, p: nat, iter: nat, workOn: array<int>) returns (ok: bool, counts: seq<nat>)
    modifies workOn
    ensures ok <==> workOn.Length == 0 || AllIn(row, workOn.Length)
    ensures ok ==> counts == Counts(row, workOn.Length)
    ensures ok ==> forall n :: 0 <= n < workOn.Length ==> workOn[n] == old(workOn[n]) + Count(row, n) * GetWork(p, iter)
  {
    counts := [];
    for node := 0 to workOn.Length
      invariant node > 0 ==> AllIn(row, workOn.Length)
      invariant counts == Counts(row, node)
      invariant forall n :: 0 <= n < node ==> workOn[n] == old(workOn[n]) + Count(row, n) * GetWork(p, iter)
      invariant forall n :: node <= n < workOn.Length ==> workOn[n] == old(workOn[n])
    {
      var good, c := NodeCount(row, p, iter, node, workOn);
      if !good {
        return false, counts;
      }
      counts := counts + [c];
    }
    return true, counts;
  }

  /**
   * Rank 0's tally of one iteration over the gathered nodes, one row per
   * rank: `work_on` zeroed, then for each rank and node the task count and
   * the work; false when a gathered entry names no node (never checked when
   * there are no nodes).
   */
  method Tally(rows: seq<seq<int>>, numNodes: nat, iter: nat) returns (ok: bool, counts: seq<seq<nat>>, workOn: array<int>)
    ensures workOn.Length == numNodes
    ensures ok <==> numNodes == 0 || forall p :: 0 <= p < |rows| ==> AllIn(rows[p], numNodes)
    ensures ok ==> |counts| == |rows| && (forall p :: 0 <= p < |rows| ==> counts[p] == Counts(rows[p], numNodes))
    ensures ok ==> workOn[..] == WorkOnAll(rows, iter, numNodes)
  {
    workOn := new int[numNodes];
    for n := 0 to numNodes
      invariant forall m :: 0 <= m < n ==> workOn[m] == 0
    {
      workOn[n] := 0;
    }
    counts := [];
    for p := 0 to |rows|
      invariant numNodes == 0 || forall q :: 0 <= q < p ==> AllIn(rows[q], numNodes)
      invariant |counts| == p && forall q :: 0 <= q < p ==> counts[q] == Counts(rows[q], numNodes)
      invariant forall n :: 0 <= n < numNodes ==> workOn[n] == WorkOn(rows[..p], iter, n)
    {
      var good, c := RankTally(rows[p], p, iter, workOn);
      if !good {
        return false, counts, workOn;
      }
      assert rows[..p + 1][..p] == rows[..p];
      counts := counts + [c];
    }
    assert rows[..|rows|] == rows;
    return true, counts, workOn;
  }

  // ------------------------------------------------------- tally totals

  /** The sum of a rank's counts over nodes 0..k-1. */
  function CountSum(row: seq<int>, k: nat): nat
  {
    if k == 0 then 0 else CountSum(row, k - 1) + Count(row, k - 1)
  }

  lemma {:induction false} CountSumSnoc(row: seq<int>, x: int, k: nat)
    ensures CountSum(row + [x], k) == CountSum(row, k) + (if 0 <= x < k then 1 else 0)
  {
    assert (row + [x])[..|row|] == row;
    if k > 0 {
      CountSumSnoc(row, x, k - 1);
    }
  }

  lemma {:induction false} ZeroCounts(k: nat)
    ensures CountSum([], k) == 0
  {
    if k > 0 {
      ZeroCounts(k - 1);
    }
  }

  /** When every task of a rank names a node, the rank's counts add up to its tasks. */
  lemma {:induction false} CountsCoverRow(row: seq<int>, numNodes: nat)
    requires AllIn(row, numNodes)
    ensures CountSum(row, numNodes) == |row|
  {
    if row == [] {
      ZeroCounts(numNodes);
    } else {
      var init := row[..|row| - 1];
      assert row == init + [row[|row| - 1]];
      CountsCoverRow(init, numNodes);
      CountSumSnoc(init, row[|row| - 1], numNodes);
    }
  }

  lemma {:induction false} SumOfCounts(row: seq<int>, k: nat)
    ensures WorkSplit.Sum(Counts(row, k)) == CountSum(row, k)
  {
    if k > 0 {
      SumOfCounts(row, k - 1);
      assert Counts(row, k)[..k - 1] == Counts(row, k - 1);
    }
  }

  /** The counts printed for one rank add up to the rank's tasks once every task names a node. */
  lemma PrintedCountsCover(row: seq<int>, numNodes: nat)
    requires AllIn(row, numNodes)
    ensures WorkSplit.Sum(Counts(row, numNodes)) == |row|
  {
    SumOfCounts(row, numNodes);
    CountsCoverRow(row, numNodes);
  }

  /** The sum of the work over nodes 0..k-1. */
  function TotalWork(rows: seq<seq<int>>, iter: nat, k: nat): int
  {
    if k == 0 then 0 else TotalWork(rows, iter, k - 1) + WorkOn(rows, iter, k - 1)
  }

  lemma {:induction false} TotalWorkSnoc(rows: seq<seq<int>>, r: seq<int>, iter: nat, k: nat)
    ensures TotalWork(rows + [r], iter, k) == TotalWork(rows, iter, k) + CountSum(r, k) * GetWork(|rows|, iter)
  {
    assert (rows + [r])[..|rows|] == rows;
    if k > 0 {
      TotalWorkSnoc(rows, r, iter, k - 1);
      var g := GetWork(|rows|, iter);
      assert CountSum(r, k) * g == CountSum(r, k - 1) * g + Count(r, k - 1) * g;
    }
  }

  /** The work of the ranks' tasks, summed over ranks. */
  function RankWorkSum(rows: seq<seq<int>>, iter: nat): int
  {
    if rows == [] then 0 else RankWorkSum(rows[..|rows| - 1], iter) + |rows[|rows| - 1]| * GetWork(|rows| - 1, iter)
  }

  /** No work is lost or counted twice: the nodes together receive every rank's tasks' work. */
  lemma {:induction false} TotalWorkOfRanks(rows: seq<seq<int>>, iter: nat, numNodes: nat)
    requires forall p :: 0 <= p < |rows| ==> AllIn(rows[p], numNodes)
    ensures TotalWork(rows, iter, numNodes) == RankWorkSum(rows, iter)
  {
    if rows == [] {
      ZeroWork(iter, numNodes);
    } else {
      var init, r := rows[..|rows| - 1], rows[|rows| - 1];
      assert rows == init + [r];
      TotalWorkOfRanks(init, iter, numNodes);
      TotalWorkSnoc(init, r, iter, numNodes);
      CountsCoverRow(r, numNodes);
    }
  }

  lemma {:induction false} ZeroWork(iter: nat, k: nat)
    ensures TotalWork([], iter, k) == 0
  {
    if k > 0 {
      ZeroWork(iter, k - 1);
    }
  }

  /** The work of ranks 0..k-1 for one task each. */
  function WorkOfRanks(k: nat, iter: nat): int
  {
    if k == 0 then 0 else WorkOfRanks(k - 1, iter) + GetWork(k - 1, iter)
  }

  /** When every rank has n tasks, the ranks' work is n tasks' worth of each rank's work. */
  lemma {:induction false} UniformRanks(rows: seq<seq<int>>, iter: nat, n: nat)
    requires forall p :: 0 <= p < |rows| ==> |rows[p]| == n
    ensures RankWorkSum(rows, iter) == n * WorkOfRanks(|rows|, iter)
  {
    if rows != [] {
      var k := |rows|;
      UniformRanks(rows[..k - 1], iter, n);
      var w, g := WorkOfRanks(k - 1, iter), GetWork(k - 1, iter);
      assert RankWorkSum(rows, iter) == n * w + n * g;
      Distribute(n, w, g);
    }
  }

  lemma Distribute(n: int, a: int, b: int)
    ensures n * (a + b) == n * a + n * b
  {
  }

  /**
   * The test's own setting: four ranks of NumTasks tasks each, every task
   * on some node, so the nodes receive NumTasks * 691 milliseconds of work
   * in every iteration.
   */
  lemma TestTotalWork(rows: seq<seq<int>>, iter: nat, numNodes: nat)
    requires |rows| == NumAppranks && forall p :: 0 <= p < |rows| ==> |rows[p]| == NumTasks && AllIn(rows[p], numNodes)
    ensures TotalWork(rows, iter, numNodes) == NumTasks * 691
  {
    TotalWorkOfRanks(rows, iter, numNodes);
    UniformRanks(rows, iter, NumTasks);
    RankWorksTotal(iter);
    assert WorkOfRanks(1, iter) == GetWork(0, iter);
    assert WorkOfRanks(2, iter) == GetWork(0, iter) + GetWork(1, iter);
    assert WorkOfRanks(3, iter) == GetWork(0, iter) + GetWork(1, iter) + GetWork(2, iter);
  }

  // ----------------------------------------------------------- the maximum

  /** The largest work on a node, starting from 0 as the program does. */
  function MaxWork(s: seq<int>): int
  {
    if s == [] then 0 else var m := MaxWork(s[..|s| - 1]); if s[|s| - 1] > m then s[|s| - 1] else m
  }

  /** The maximum bounds every node's work and is either 0 or the work of some node. */
  lemma {:induction false} MaxWorkMeaning(s: seq<int>)
    ensures forall i :: 0 <= i < |s| ==> s[i] <= MaxWork(s)
    ensures MaxWork(s) >= 0
    ensures MaxWork(s) == 0 || exists i :: 0 <= i < |s| && s[i] == MaxWork(s)
  {
    if s != [] {
      var init := s[..|s| - 1];
      MaxWorkMeaning(init);
      if MaxWork(s) != 0 && MaxWork(s) != s[|s| - 1] {
        var i :| 0 <= i < |init| && init[i] == MaxWork(init);
        assert s[i] == MaxWork(s);
      }
    }
  }

  /** The last loop of the tally: the total and the largest work on a node. */
  method MaxAndTotal(workOn: array<int>) returns (maxWork: int, total: int)
    ensures maxWork == MaxWork(workOn[..])
    ensures total == WorkSplit.Sum(workOn[..])
  {
    maxWork, total := 0, 0;
    for node := 0 to workOn.Length
      invariant maxWork == MaxWork(workOn[..node])
      invariant total == WorkSplit.Sum(workOn[..node])
    {
      assert workOn[..node + 1][..node] == workOn[..node];
      total := total + workOn[node];
      if workOn[node] > maxWork {
        maxWork := workOn[node];
      }
    }
    assert workOn[..workOn.Length] == workOn[..];
  }

  /** The total the final loop adds up is the work the nodes received. */
  lemma {:induction false} SumOfWorkOn(rows: seq<seq<int>>, iter: nat, k: nat)
    ensures WorkSplit.Sum(WorkOnAll(rows, iter, k)) == TotalWork(rows, iter, k)
  {
    if k > 0 {
      SumOfWorkOn(rows, iter, k - 1);
      assert WorkOnAll(rows, iter, k)[..k - 1] == WorkOnAll(rows, iter, k - 1);
    }
  }
}

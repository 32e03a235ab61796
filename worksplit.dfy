/**
 * The work-distribution kernels the synthetic C benchmarks share:
 * `gen`, which cuts a total into bounded pieces at sorted random cut points
 * and retries until every piece fits, and `calculate_work`, which gives one
 * rank the worst amount of work and spreads the rest (or, when that is
 * larger, takes the slack away) over the others.
 *
 * The same `gen` appears in syntheticslow/syntheticslow.c,
 * syntheticslownord/syntheticslownord.c and syntheticscatter/test.c;
 * `calculate_work` appears in the three with a different choice of worst
 * rank (the last rank, or a random one) and, in syntheticslow.c, the choice
 * of a slow rank. `rand()` is modelled by its draws, given as inputs, and
 * the floating-point work amounts by the integers they are truncated to.
 */
module WorkSplit {
  import opened Wrappers
  import opened CArith

  // ------------------------------------------------------------------ sums

  function Sum(s: seq<int>): int
  {
    if s == [] then 0 else Sum(s[..|s| - 1]) + s[|s| - 1]
  }

  lemma {:induction false} SumAppend(a: seq<int>, b: seq<int>)
    ensures Sum(a + b) == Sum(a) + Sum(b)
    decreases |b|
  {
    if b == [] {
      assert a + b == a;
    } else {
      assert (a + b)[..|a + b| - 1] == a + b[..|b| - 1];
      SumAppend(a, b[..|b| - 1]);
    }
  }

  /** A non-negative sequence has no item above its sum. */
  lemma {:induction false} ItemAtMostSum(s: seq<int>, i: nat)
    requires forall k :: 0 <= k < |s| ==> s[k] >= 0
    requires i < |s|
    ensures 0 <= s[i] <= Sum(s)
    decreases |s|
  {
    var init := s[..|s| - 1];
    assert forall k :: 0 <= k < |init| ==> init[k] == s[k];
    if i < |init| {
      ItemAtMostSum(init, i);
      SumNonNegative(s[..|s| - 1]);
    } else {
      SumNonNegative(init);
    }
  }

  lemma {:induction false} SumNonNegative(s: seq<int>)
    requires forall k :: 0 <= k < |s| ==> s[k] >= 0
    ensures Sum(s) >= 0
    decreases |s|
  {
    if s != [] {
      var init := s[..|s| - 1];
      assert forall k :: 0 <= k < |init| ==> init[k] == s[k];
      SumNonNegative(init);
    }
  }

  /** Items of at most c sum to at most |s| * c. */
  lemma {:induction false} SumAtMost(s: seq<int>, c: int)
    requires forall k :: 0 <= k < |s| ==> s[k] <= c
    ensures Sum(s) <= |s| * c
    decreases |s|
  {
    if s != [] {
      var init := s[..|s| - 1];
      assert forall k :: 0 <= k < |init| ==> init[k] == s[k];
      SumAtMost(init, c);
      assert |s| * c == |init| * c + c;
    }
  }

  // --------------------------------------------------------------- sorting

  predicate Ascending(s: seq<int>)
  {
    forall i, j :: 0 <= i < j < |s| ==> s[i] <= s[j]
  }

  /** x placed before the first item it does not exceed. */
  function Insert(x: int, s: seq<int>): seq<int>
  {
    if s == [] || x <= s[0] then [x] + s else [s[0]] + Insert(x, s[1..])
  }

  /**
   * `qsort(tmp, m + 1, sizeof(int), cmpfunc)`. Where the values are
   * non-negative `cmpfunc` orders them as `<` does (CArith.CmpFuncSign); the
   * sort is specified by order and permutation alone, so an insertion sort
   * stands for the library's algorithm whatever the signs.
   */
  function Sort(s: seq<int>): seq<int>
  {
    if s == [] then [] else Insert(s[0], Sort(s[1..]))
  }

  lemma InsertSorted(x: int, s: seq<int>)
    requires Ascending(s)
    ensures Ascending(Insert(x, s))
    ensures multiset(Insert(x, s)) == multiset(s) + multiset{x}
  {
    InsertAscending(x, s);
    InsertPermutes(x, s);
  }

  lemma {:induction false} InsertAscending(x: int, s: seq<int>)
    requires Ascending(s)
    ensures Ascending(Insert(x, s))
    decreases |s|
  {
    if s != [] && x > s[0] {
      var t := s[1..];
      InsertAscending(x, t);
      InsertHead(x, t);
      ConsAscending(s[0], Insert(x, t));
    }
  }

  /** An item no larger than the head of an ascending sequence can go in front of it. */
  lemma ConsAscending(a: int, r: seq<int>)
    requires Ascending(r) && (r != [] ==> a <= r[0])
    ensures Ascending([a] + r)
  {
    var q := [a] + r;
    forall i, j | 0 <= i < j < |q| ensures q[i] <= q[j] {
      assert q[j] == r[j - 1];
      if i > 0 { assert q[i] == r[i - 1]; } else { assert r[0] <= r[j - 1]; }
    }
  }

  lemma {:induction false} InsertPermutes(x: int, s: seq<int>)
    ensures multiset(Insert(x, s)) == multiset(s) + multiset{x}
    decreases |s|
  {
    if s != [] && x > s[0] {
      InsertPermutes(x, s[1..]);
      assert s == [s[0]] + s[1..];
    }
  }

  lemma InsertHead(x: int, t: seq<int>)
    ensures Insert(x, t) != []
    ensures Insert(x, t)[0] == x || (t != [] && Insert(x, t)[0] == t[0])
  {
  }

  /** The sort yields the same values, ascending. */
  lemma {:induction false} SortSorted(s: seq<int>)
    ensures Ascending(Sort(s))
    ensures multiset(Sort(s)) == multiset(s)
    ensures |Sort(s)| == |s|
    decreases |s|
  {
    if s != [] {
      SortSorted(s[1..]);
      InsertOnto(s[0], Sort(s[1..]), s[1..]);
      assert [s[0]] + s[1..] == s;
    }
    SameLength(Sort(s), s);
  }

  /** Inserting x into an ascending arrangement of t arranges [x] + t. */
  lemma InsertOnto(x: int, r: seq<int>, t: seq<int>)
    requires Ascending(r) && multiset(r) == multiset(t)
    ensures Ascending(Insert(x, r)) && multiset(Insert(x, r)) == multiset([x] + t)
  {
    InsertSorted(x, r);
  }

  lemma SameLength(r: seq<int>, t: seq<int>)
    requires multiset(r) == multiset(t)
    ensures |r| == |t|
  {
    assert |r| == |multiset(r)|;
  }

  /** An ascending arrangement of values within [lo, hi] that include lo and hi starts at lo and ends at hi. */
  lemma SortedEnds(r: seq<int>, c: seq<int>, lo: int, hi: int)
    requires Ascending(r) && multiset(r) == multiset(c)
    requires forall k :: 0 <= k < |c| ==> lo <= c[k] <= hi
    requires lo in c && hi in c
    ensures |r| >= 1 && r[0] == lo && r[|r| - 1] == hi
  {
    assert lo in multiset(r);
    assert hi in multiset(r);
    assert r[0] in multiset(c);
    assert r[|r| - 1] in multiset(c);
    var a :| 0 <= a < |r| && r[a] == lo;
    var b :| 0 <= b < |r| && r[b] == hi;
  }

  // ------------------------------------------------------------------- gen

  /** How many `rand()` draws one attempt of `gen(m, ...)` makes: tmp[1..m-1]. */
  function DrawCount(m: nat): nat { if m == 0 then 0 else m - 1 }

  predicate WellDrawn(m: nat, attempts: seq<seq<nat>>)
  {
    forall k :: 0 <= k < |attempts| ==> |attempts[k]| == DrawCount(m)
  }

  /** `(total > 0) ? (rand() % total) : 0` for one non-negative draw. */
  function Cut(total: int, draw: nat): int
  {
    if total > 0 then draw % total else 0
  }

  /**
   * The array tmp before sorting: 0, one cut per draw, then total. With
   * m == 0 the last store overwrites the first, leaving only total.
   */
  function Cuts(m: nat, total: int, draws: seq<nat>): seq<int>
    requires |draws| == DrawCount(m)
  {
    if m == 0 then [total] else [0] + seq(m - 1, i requires 0 <= i < m - 1 => Cut(total, draws[i])) + [total]
  }

  /** Differences of neighbours: `pieces[i] = tmp[i+1] - tmp[i]`. */
  function Diffs(t: seq<int>): (d: seq<int>)
    requires |t| >= 1
    ensures |d| == |t| - 1
  {
    seq(|t| - 1, i requires 0 <= i < |t| - 1 => t[i + 1] - t[i])
  }

  /** The pieces one attempt produces. */
  function Attempt(m: nat, total: int, draws: seq<nat>): (p: seq<int>)
    requires |draws| == DrawCount(m)
    ensures |p| == m
  {
    SortSorted(Cuts(m, total, draws));
    Diffs(Sort(Cuts(m, total, draws)))
  }

  predicate Fits(pieces: seq<int>, max: int)
  {
    forall i :: 0 <= i < |pieces| ==> pieces[i] <= max
  }

  /** The pieces of the first attempt none of whose pieces exceeds max; None when no attempt fits. */
  function FirstFit(m: nat, total: int, max: int, attempts: seq<seq<nat>>): (r: Option<seq<int>>)
    requires WellDrawn(m, attempts)
    ensures r.Some? ==> |r.value| == m
  {
    if attempts == [] then None
    else if Fits(Attempt(m, total, attempts[0]), max) then Some(Attempt(m, total, attempts[0]))
    else FirstFit(m, total, max, attempts[1..])
  }

  /** The neighbour differences add up to the distance from the first item to the last. */
  lemma {:induction false} DiffsSum(t: seq<int>)
    requires |t| >= 1
    ensures Sum(Diffs(t)) == t[|t| - 1] - t[0]
    decreases |t|
  {
    if |t| >= 2 {
      var init := t[..|t| - 1];
      DiffsSum(init);
      assert Diffs(t) == Diffs(init) + [t[|t| - 1] - t[|t| - 2]];
      SumAppend(Diffs(init), [t[|t| - 1] - t[|t| - 2]]);
    } else {
      assert Diffs(t) == [];
    }
  }

  /** For a non-negative total the cuts lie in [0, total] and include both ends. */
  lemma CutsRange(m: nat, total: int, draws: seq<nat>)
    requires m >= 1 && total >= 0 && |draws| == DrawCount(m)
    ensures var c := Cuts(m, total, draws);
      0 in c && total in c && forall k :: 0 <= k < |c| ==> 0 <= c[k] <= total
  {
    var c := Cuts(m, total, draws);
    assert c[0] == 0 && c[|c| - 1] == total;
  }

  /**
   * With m >= 1 and a non-negative total, an attempt yields m pieces, each
   * non-negative, that add up to total.
   */
  lemma AttemptPieces(m: nat, total: int, draws: seq<nat>)
    requires m >= 1 && total >= 0 && |draws| == DrawCount(m)
    ensures var p := Attempt(m, total, draws);
      |p| == m && Sum(p) == total && forall i :: 0 <= i < |p| ==> p[i] >= 0
  {
    var c := Cuts(m, total, draws);
    var r := Sort(c);
    SortSorted(c);
    CutsRange(m, total, draws);
    SortedEnds(r, c, 0, total);
    DiffsSum(r);
  }

  /**
   * `gen` returns the first attempt that fits: its pieces exceed no max
   * and, for m >= 1 and a non-negative total, are non-negative and add up to
   * total. No result means no attempt fits.
   */
  lemma {:induction false} FirstFitPieces(m: nat, total: int, max: int, attempts: seq<seq<nat>>)
    requires WellDrawn(m, attempts)
    ensures FirstFit(m, total, max, attempts).None? <==>
      forall k :: 0 <= k < |attempts| ==> !Fits(Attempt(m, total, attempts[k]), max)
    ensures FirstFit(m, total, max, attempts).Some? ==>
      var p := FirstFit(m, total, max, attempts).value;
      Fits(p, max) && (m >= 1 && total >= 0 ==> |p| == m && Sum(p) == total && forall i :: 0 <= i < |p| ==> 0 <= p[i] <= max)
    decreases |attempts|
  {
    if attempts != [] {
      var rest := attempts[1..];
      assert WellDrawn(m, rest);
      FirstFitPieces(m, total, max, rest);
      assert forall k :: 0 <= k < |rest| ==> rest[k] == attempts[k + 1];
      if Fits(Attempt(m, total, attempts[0]), max) && m >= 1 && total >= 0 {
        AttemptPieces(m, total, attempts[0]);
      }
      if FirstFit(m, total, max, attempts).None? {
        forall k | 0 <= k < |attempts| ensures !Fits(Attempt(m, total, attempts[k]), max) {
          if k > 0 { assert attempts[k] == rest[k - 1]; }
        }
      }
    }
  }

  /** A total of at most max fits on the first attempt: no piece exceeds the whole. */
  lemma GenFirstTry(m: nat, total: int, max: int, attempts: seq<seq<nat>>)
    requires WellDrawn(m, attempts) && attempts != []
    requires m >= 1 && 0 <= total <= max
    ensures FirstFit(m, total, max, attempts) == Some(Attempt(m, total, attempts[0]))
  {
    var p := Attempt(m, total, attempts[0]);
    AttemptPieces(m, total, attempts[0]);
    forall i | 0 <= i < |p| ensures p[i] <= max {
      ItemAtMostSum(p, i);
    }
  }

  /** A total of 0 is cut into m pieces of 0. */
  lemma GenZero(m: nat, draws: seq<nat>)
    requires m >= 1 && |draws| == DrawCount(m)
    ensures Attempt(m, 0, draws) == seq(m, i => 0)
  {
    var p := Attempt(m, 0, draws);
    AttemptPieces(m, 0, draws);
    forall i | 0 <= i < m ensures p[i] == 0 {
      ItemAtMostSum(p, i);
    }
  }

  /**
   * When m pieces of at most max cannot make up total, no attempt ever
   * fits and `gen` retries for ever; in particular a single piece larger
   * than max (m == 1, total > max).
   */
  lemma GenNeverFits(m: nat, total: int, max: int, attempts: seq<seq<nat>>)
    requires WellDrawn(m, attempts)
    requires m >= 1 && total >= 0 && m * max < total
    ensures FirstFit(m, total, max, attempts) == None
  {
    FirstFitPieces(m, total, max, attempts);
    if FirstFit(m, total, max, attempts).Some? {
      SumAtMost(FirstFit(m, total, max, attempts).value, max);
    }
  }

  /** The cut points of one attempt, in an array of m + 1 ints (the first loop of the `do` body). */
  method CutPoints(m: nat, total: int, draws: seq<nat>) returns (tmp: array<int>)
    requires |draws| == DrawCount(m)
    ensures fresh(tmp) && tmp[..] == Cuts(m, total, draws)
  {
    tmp := new int[m + 1];
    tmp[0] := 0;
    var i := 1;
    while i < m
      invariant i == 1 || 1 < i <= m
      invariant tmp[0] == 0
      invariant forall k :: 1 <= k < i ==> tmp[k] == Cut(total, draws[k - 1])
    {
      tmp[i] := Cut(total, draws[i - 1]);
      i := i + 1;
    }
    tmp[m] := total;
    forall k | 0 <= k < m + 1 ensures tmp[k] == Cuts(m, total, draws)[k] {
      CutsAt(m, total, draws, k);
    }
    assert tmp[..] == Cuts(m, total, draws);
  }

  lemma CutsAt(m: nat, total: int, draws: seq<nat>, k: nat)
    requires |draws| == DrawCount(m) && k <= m
    ensures |Cuts(m, total, draws)| == m + 1
    ensures Cuts(m, total, draws)[k] == if k == m then total else if k == 0 then 0 else Cut(total, draws[k - 1])
  {
  }

  /**
   * The second loop of the `do` body: store each piece and stop at the first
   * one above max. On success all m pieces are stored.
   */
  method StorePieces(sorted: seq<int>, m: nat, max: int, pieces: array<int>) returns (fail: bool)
    requires |sorted| == m + 1 && pieces.Length >= m
    modifies pieces
    ensures fail <==> !Fits(Diffs(sorted), max)
    ensures !fail ==> pieces[..m] == Diffs(sorted)
    ensures forall k :: m <= k < pieces.Length ==> pieces[k] == old(pieces[k])
  {
    fail := false;
    var i := 0;
    while i < m
      invariant 0 <= i <= m
      invariant forall k :: 0 <= k < i ==> pieces[k] == Diffs(sorted)[k] && pieces[k] <= max
      invariant forall k :: m <= k < pieces.Length ==> pieces[k] == old(pieces[k])
    {
      pieces[i] := sorted[i + 1] - sorted[i];
      if pieces[i] > max {
        assert Diffs(sorted)[i] > max;
        fail := true;
        break;
      }
      i := i + 1;
    }
    if !fail {
      assert pieces[..m] == Diffs(sorted);
    }
  }

  /**
   * `gen(m, total, max, pieces)`: attempts run in order until one fits. Each
   * attempt is the list of draws its cut points take from `rand()`; when the
   * list runs out without a fit (done is false) the program would still be
   * retrying.
   */
  method Gen(m: nat, total: int, max: int, attempts: seq<seq<nat>>, pieces: array<int>) returns (done: bool)
    requires WellDrawn(m, attempts) && pieces.Length >= m
    modifies pieces
    ensures done <==> FirstFit(m, total, max, attempts).Some?
    ensures done ==> pieces[..m] == FirstFit(m, total, max, attempts).value
    ensures forall k :: m <= k < pieces.Length ==> pieces[k] == old(pieces[k])
  {
    var fail := true;
    var k := 0;
    while fail && k < |attempts|
      invariant 0 <= k <= |attempts|
      invariant WellDrawn(m, attempts[k..])
      invariant fail ==> FirstFit(m, total, max, attempts) == FirstFit(m, total, max, attempts[k..])
      invariant !fail ==> FirstFit(m, total, max, attempts) == Some(pieces[..m])
      invariant forall j :: m <= j < pieces.Length ==> pieces[j] == old(pieces[j])
    {
      var tmp := CutPoints(m, total, attempts[k]);
      var sorted := Sort(tmp[..]);
      SortSorted(tmp[..]);
      fail := StorePieces(sorted, m, max, pieces);
      assert attempts[k..][1..] == attempts[k + 1..];
      k := k + 1;
    }
    done := !fail;
  }

  // -------------------------------------------------------- calculate_work

  /**
   * How `calculate_work` ends: it returned 0 because the imbalance cannot
   * be reached, `gen` would still be retrying when the draws run out, or
   * every rank's work was written.
   */
  datatype Outcome = TooImbalanced | Retrying | Placed

  /** `slack_work = worst_work * (num_appranks - 1) - rest_work` */
  function Slack(n: int, worstWork: int, restWork: int): int
  {
    worstWork * (n - 1) - restWork
  }

  /** `tmp[i] = worst_work - tmp[i]` for every share. */
  function Complement(worstWork: int, p: seq<int>): (r: seq<int>)
    ensures |r| == |p|
  {
    seq(|p|, i requires 0 <= i < |p| => worstWork - p[i])
  }

  /**
   * The n - 1 shares of the ranks other than the worst: `gen` of rest_work
   * when it is below the slack, otherwise worst_work minus `gen` of the slack.
   */
  function Shares(n: nat, worstWork: int, restWork: int, attempts: seq<seq<nat>>): (r: Option<seq<int>>)
    requires n >= 1 && WellDrawn(n - 1, attempts)
    ensures r.Some? ==> |r.value| == n - 1
  {
    var slack := Slack(n, worstWork, restWork);
    if restWork < slack then FirstFit(n - 1, restWork, worstWork, attempts)
    else match FirstFit(n - 1, slack, worstWork, attempts)
      case None => None
      case Some(p) => Some(Complement(worstWork, p))
  }

  /** `work_per_rank`: the worst work at rank w and the shares, in order, at the others. */
  function Place(tmp: seq<int>, w: nat, worstWork: int): seq<int>
    requires w <= |tmp|
  {
    tmp[..w] + [worstWork] + tmp[w..]
  }

  lemma {:induction false} ComplementSum(worstWork: int, p: seq<int>)
    ensures Sum(Complement(worstWork, p)) == |p| * worstWork - Sum(p)
    decreases |p|
  {
    if p != [] {
      var init := p[..|p| - 1];
      ComplementSum(worstWork, init);
      assert Complement(worstWork, p) == Complement(worstWork, init) + [worstWork - p[|p| - 1]];
      SumAppend(Complement(worstWork, init), [worstWork - p[|p| - 1]]);
      assert |p| * worstWork == |init| * worstWork + worstWork;
    }
  }

  /**
   * When rest_work lies between 0 and worst_work * (n - 1) (the imbalance
   * is at least 1), each of the n - 1 shares lies in [0, worst_work] and the
   * shares add up to rest_work, in either branch.
   */
  lemma SharesBounds(n: nat, worstWork: int, restWork: int, attempts: seq<seq<nat>>)
    requires n >= 2 && WellDrawn(n - 1, attempts)
    requires 0 <= restWork <= worstWork * (n - 1)
    requires Shares(n, worstWork, restWork, attempts).Some?
    ensures var tmp := Shares(n, worstWork, restWork, attempts).value;
      |tmp| == n - 1 && Sum(tmp) == restWork && forall i :: 0 <= i < |tmp| ==> 0 <= tmp[i] <= worstWork
  {
    var m := n - 1;
    var slack := Slack(n, worstWork, restWork);
    SlackSplit(m, worstWork, restWork, slack);
    var tmp := Shares(n, worstWork, restWork, attempts).value;
    if restWork < slack {
      var p := FirstFit(m, restWork, worstWork, attempts).value;
      assert tmp == p;
      FirstFitPieces(m, restWork, worstWork, attempts);
    } else {
      var p := FirstFit(m, slack, worstWork, attempts).value;
      assert tmp == Complement(worstWork, p);
      SlackBranch(m, worstWork, slack, attempts);
    }
  }

  /** The slack and rest_work make up the n - 1 ranks' full work. */
  lemma SlackSplit(m: nat, worstWork: int, restWork: int, slack: int)
    requires slack == worstWork * m - restWork && 0 <= restWork <= worstWork * m
    ensures m * worstWork == slack + restWork && slack >= 0
  {
  }

  /** The else branch: worst_work minus the pieces of the slack. */
  lemma SlackBranch(m: nat, worstWork: int, slack: int, attempts: seq<seq<nat>>)
    requires m >= 1 && WellDrawn(m, attempts) && slack >= 0
    requires FirstFit(m, slack, worstWork, attempts).Some?
    ensures var tmp := Complement(worstWork, FirstFit(m, slack, worstWork, attempts).value);
      |tmp| == m && Sum(tmp) == m * worstWork - slack && forall i :: 0 <= i < |tmp| ==> 0 <= tmp[i] <= worstWork
  {
    FirstFitPieces(m, slack, worstWork, attempts);
    ComplementBounds(worstWork, FirstFit(m, slack, worstWork, attempts).value);
  }

  /** Taking pieces of [0, worst_work] away from worst_work leaves values in [0, worst_work]. */
  lemma ComplementBounds(worstWork: int, p: seq<int>)
    requires forall i :: 0 <= i < |p| ==> 0 <= p[i] <= worstWork
    ensures Sum(Complement(worstWork, p)) == |p| * worstWork - Sum(p)
    ensures forall i :: 0 <= i < |p| ==> 0 <= Complement(worstWork, p)[i] <= worstWork
  {
    ComplementSum(worstWork, p);
  }

  /** Placing keeps the shares in rank order around the worst rank and adds the worst work to the total. */
  lemma PlaceShape(tmp: seq<int>, w: nat, worstWork: int)
    requires w <= |tmp|
    ensures var work := Place(tmp, w, worstWork);
      |work| == |tmp| + 1 && work[w] == worstWork && Sum(work) == Sum(tmp) + worstWork &&
      (forall j :: 0 <= j < w ==> work[j] == tmp[j]) &&
      (forall j :: w < j < |work| ==> work[j] == tmp[j - 1])
  {
    SumAppend(tmp[..w] + [worstWork], tmp[w..]);
    SumAppend(tmp[..w], [worstWork]);
    SumAppend(tmp[..w], tmp[w..]);
    assert tmp[..w] + tmp[w..] == tmp;
    assert Sum([worstWork]) == worstWork by { assert [worstWork][..0] == []; }
  }

  /**
   * What every rank ends up with: the worst rank gets worst_work, every
   * rank gets between 0 and worst_work, and the ranks' work adds up to
   * worst_work + rest_work, so the worst rank carries the maximum.
   */
  lemma WorkPerRank(n: nat, w: nat, worstWork: int, restWork: int, attempts: seq<seq<nat>>)
    requires n >= 2 && w < n && WellDrawn(n - 1, attempts)
    requires 0 <= restWork <= worstWork * (n - 1)
    requires Shares(n, worstWork, restWork, attempts).Some?
    ensures var work := Place(Shares(n, worstWork, restWork, attempts).value, w, worstWork);
      |work| == n && work[w] == worstWork && Sum(work) == worstWork + restWork &&
      forall j :: 0 <= j < n ==> 0 <= work[j] <= worstWork
  {
    var tmp := Shares(n, worstWork, restWork, attempts).value;
    SharesBounds(n, worstWork, restWork, attempts);
    PlaceShape(tmp, w, worstWork);
  }

  /**
   * The rank syntheticslow.c's loop picks among ranks 0..k-1: a rank other
   * than w whose work is strictly below both worst_work and every earlier
   * pick, the last such update winning; -1 when there is none.
   */
  function BestUpTo(work: seq<int>, w: int, worstWork: int, k: nat): (r: int)
    requires k <= |work|
    ensures -1 <= r < k
  {
    if k == 0 then -1
    else
      var b := BestUpTo(work, w, worstWork, k - 1);
      var bestWork := if b == -1 then worstWork else work[b];
      if k - 1 != w && work[k - 1] < bestWork then k - 1 else b
  }

  /**
   * The pick is -1 exactly when no other rank has less than worst_work;
   * otherwise it is the lowest-numbered rank of least work, below worst_work.
   */
  lemma {:induction false} BestRankMeaning(work: seq<int>, w: int, worstWork: int, k: nat)
    requires k <= |work|
    ensures var r := BestUpTo(work, w, worstWork, k);
      (r == -1 <==> forall j :: 0 <= j < k && j != w ==> work[j] >= worstWork) &&
      (r != -1 ==> (r != w && work[r] < worstWork &&
        (forall j :: 0 <= j < k && j != w ==> work[r] <= work[j]) &&
        (forall j :: 0 <= j < r && j != w ==> work[r] < work[j])))
    decreases k
  {
    if k > 0 {
      BestRankMeaning(work, w, worstWork, k - 1);
    }
  }

  /** The shares step of `calculate_work`, filling the array tmp of n - 1 ints. */
  method MakeShares(n: nat, worstWork: int, restWork: int, attempts: seq<seq<nat>>, tmp: array<int>) returns (done: bool)
    requires n >= 1 && WellDrawn(n - 1, attempts) && tmp.Length == n - 1
    modifies tmp
    ensures done <==> Shares(n, worstWork, restWork, attempts).Some?
    ensures done ==> tmp[..] == Shares(n, worstWork, restWork, attempts).value
  {
    var slackWork := worstWork * (n - 1) - restWork;
    if restWork < slackWork {
      done := Gen(n - 1, restWork, worstWork, attempts, tmp);
      assert tmp[..] == tmp[..n - 1];
    } else {
      done := Gen(n - 1, slackWork, worstWork, attempts, tmp);
      if done {
        assert tmp[..] == tmp[..n - 1];
        SubtractFromWorst(worstWork, tmp);
      }
    }
  }

  /** `for (i = 0; i < num_appranks - 1; i++) tmp[i] = worst_work - tmp[i];` */
  method SubtractFromWorst(worstWork: int, tmp: array<int>)
    modifies tmp
    ensures tmp[..] == Complement(worstWork, old(tmp[..]))
  {
    for i := 0 to tmp.Length
      invariant forall k :: 0 <= k < i ==> tmp[k] == worstWork - old(tmp[k])
      invariant forall k :: i <= k < tmp.Length ==> tmp[k] == old(tmp[k])
    {
      tmp[i] := worstWork - tmp[i];
    }
  }

  /** The loop writing `work_per_rank`, with the running index i into tmp. */
  method PlaceWork(tmp: array<int>, w: nat, worstWork: int, workPerRank: array<int>)
    requires tmp != workPerRank && workPerRank.Length == tmp.Length + 1 && w < workPerRank.Length
    modifies workPerRank
    ensures workPerRank[..] == Place(tmp[..], w, worstWork)
  {
    var i := 0;
    for j := 0 to workPerRank.Length
      invariant i == if j <= w then j else j - 1
      invariant forall q :: 0 <= q < j ==> workPerRank[q] == Place(tmp[..], w, worstWork)[q]
    {
      if j != w {
        workPerRank[j] := tmp[i];
        i := i + 1;
      } else {
        workPerRank[j] := worstWork;
      }
    }
  }

  /** The same loop in syntheticslow.c, which also tracks best_rank and best_work. */
  method PlaceWorkTrackingBest(tmp: array<int>, w: nat, worstWork: int, workPerRank: array<int>) returns (bestRank: int)
    requires tmp != workPerRank && workPerRank.Length == tmp.Length + 1 && w < workPerRank.Length
    modifies workPerRank
    ensures workPerRank[..] == Place(tmp[..], w, worstWork)
    ensures bestRank == BestUpTo(workPerRank[..], w, worstWork, workPerRank.Length)
  {
    ghost var work := Place(tmp[..], w, worstWork);
    var i := 0;
    bestRank := -1;
    var bestWork := worstWork;
    for j := 0 to workPerRank.Length
      invariant i == if j <= w then j else j - 1
      invariant forall q :: 0 <= q < j ==> workPerRank[q] == work[q]
      invariant bestRank == BestUpTo(work, w, worstWork, j)
      invariant bestWork == if bestRank == -1 then worstWork else work[bestRank]
    {
      if j != w {
        workPerRank[j] := tmp[i];
        if tmp[i] < bestWork {
          bestWork := tmp[i];
          bestRank := j;
        }
        i := i + 1;
      } else {
        workPerRank[j] := worstWork;
      }
    }
    assert workPerRank[..] == work;
  }

  /**
   * `calculate_work` of syntheticslownord/syntheticslownord.c: the last
   * rank is the worst. Nothing is written when the target imbalance exceeds
   * the number of ranks or while `gen` is still retrying.
   */
  method CalculateWorkNord(n: nat, targetImbalance: real, worstWork: int, restWork: int,
                           attempts: seq<seq<nat>>, workPerRank: array<int>) returns (outcome: Outcome)
    requires n >= 1 && WellDrawn(n - 1, attempts) && workPerRank.Length == n
    modifies workPerRank
    ensures outcome == TooImbalanced <==> targetImbalance > n as real
    ensures outcome == Placed <==> targetImbalance <= n as real && Shares(n, worstWork, restWork, attempts).Some?
    ensures outcome == Placed ==> workPerRank[..] == Place(Shares(n, worstWork, restWork, attempts).value, n - 1, worstWork)
    ensures outcome != Placed ==> workPerRank[..] == old(workPerRank[..])
  {
    if targetImbalance > n as real {
      return TooImbalanced;
    }
    var worstRank := n - 1;
    var tmp := new int[n - 1];
    var done := MakeShares(n, worstWork, restWork, attempts, tmp);
    if !done {
      return Retrying;
    }
    PlaceWork(tmp, worstRank, worstWork, workPerRank);
    return Placed;
  }

  /**
   * `calculate_work` of syntheticscatter/test.c: worst_work is 500 and the
   * worst rank is `rand() % num_appranks`, given by its draw.
   */
  method CalculateWorkScatter(n: nat, targetImbalance: real, worstDraw: nat, restWork: int,
                              attempts: seq<seq<nat>>, workPerRank: array<int>) returns (outcome: Outcome)
    requires n >= 1 && WellDrawn(n - 1, attempts) && workPerRank.Length == n
    modifies workPerRank
    ensures outcome == TooImbalanced <==> targetImbalance > n as real
    ensures outcome == Placed <==> targetImbalance <= n as real && Shares(n, 500, restWork, attempts).Some?
    ensures outcome == Placed ==> workPerRank[..] == Place(Shares(n, 500, restWork, attempts).value, worstDraw % n, 500)
    ensures outcome != Placed ==> workPerRank[..] == old(workPerRank[..])
  {
    var worstWork := 500;
    if targetImbalance > n as real {
      return TooImbalanced;
    }
    var worstRank := worstDraw % n;
    var tmp := new int[n - 1];
    var done := MakeShares(n, worstWork, restWork, attempts, tmp);
    if !done {
      return Retrying;
    }
    PlaceWork(tmp, worstRank, worstWork, workPerRank);
    return Placed;
  }

  /**
   * `calculate_work` of syntheticslow/syntheticslow.c: the last rank is the
   * worst, and `*slow_rank` becomes that rank or the rank of least work
   * below it (None: not written).
   */
  method CalculateWorkSlow(n: nat, targetImbalance: real, worstWork: int, restWork: int,
                           attempts: seq<seq<nat>>, workPerRank: array<int>, slowIsWorstRank: bool)
    returns (outcome: Outcome, slowRank: Option<int>)
    requires n >= 1 && WellDrawn(n - 1, attempts) && workPerRank.Length == n
    modifies workPerRank
    ensures outcome == TooImbalanced <==> targetImbalance > n as real
    ensures outcome == Placed <==> targetImbalance <= n as real && Shares(n, worstWork, restWork, attempts).Some?
    ensures outcome == Placed ==> workPerRank[..] == Place(Shares(n, worstWork, restWork, attempts).value, n - 1, worstWork)
    ensures outcome == Placed ==>
      slowRank == Some(if slowIsWorstRank then n - 1 else BestUpTo(workPerRank[..], n - 1, worstWork, n))
    ensures outcome != Placed ==> workPerRank[..] == old(workPerRank[..]) && slowRank == None
  {
    if targetImbalance > n as real {
      return TooImbalanced, None;
    }
    var worstRank := n - 1;
    var tmp := new int[n - 1];
    var done := MakeShares(n, worstWork, restWork, attempts, tmp);
    if !done {
      return Retrying, None;
    }
    var bestRank := PlaceWorkTrackingBest(tmp, worstRank, worstWork, workPerRank);
    if slowIsWorstRank {
      slowRank := Some(worstRank);
    } else {
      slowRank := Some(bestRank);
    }
    return Placed, slowRank;
  }
}

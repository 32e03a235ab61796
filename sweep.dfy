/**
 * What the `commands` generators of the benchmark scripts share: the policy
 * and DLB-switch values substituted into the command template, the shape of
 * a template with a free-form `$hybrid_params` slot, and the nested-loop
 * enumeration (a concatenation of blocks) with its running time estimate.
 */
module Sweep {
  import opened Text

  /** The `--$policy` switch of runhybrid.py. */
  datatype Policy = Local | Global
  {
    function Name(): string
    {
      match this
      case Local => "local"
      case Global => "global"
    }
  }

  /** The policy loop of several sweeps: degree 1 runs only local; larger degrees run local, then global. */
  function Policies(degree: int): seq<Policy>
  {
    if degree == 1 then [Local] else [Local, Global]
  }

  /** How a Python 'true'/'false' string is written into the template. */
  function BoolText(b: bool): string { if b then "true" else "false" }

  /** The argument of `--config-override` that switches DROM and LEWI. */
  function Override(drom: bool, lewi: bool): string
  {
    "dlb.enable_drom=" + BoolText(drom) + ",dlb.enable_lewi=" + BoolText(lewi)
  }

  /** range(lo, hi) */
  function Range(lo: int, hi: int): (r: seq<int>)
    ensures |r| == if hi > lo then hi - lo else 0
    ensures forall k :: 0 <= k < |r| ==> r[k] == lo + k
  {
    if hi > lo then seq(hi - lo, k => lo + k) else []
  }

  lemma InRange(lo: int, hi: int, x: int)
    ensures x in Range(lo, hi) <==> lo <= x < hi
  {
    if lo <= x < hi {
      assert Range(lo, hi)[x - lo] == x;
    }
  }

  function Min(a: int, b: int): int { if a < b then a else b }

  /**
   * The runhybrid.py arguments every template shares from `--debug false`
   * on: vranks, the policy switch, the degree, the template's own monitor
   * and local-period timing, the DLB override and the application's own
   * command line.
   */
  function RunWords(vranks: int, policy: Policy, degree: int, timing: seq<string>,
                    drom: bool, lewi: bool, app: seq<string>): seq<string>
  {
    ["--debug", "false", "--vranks", IntText(vranks), "--" + policy.Name(), "--degree", IntText(degree)]
      + timing + ["--config-override", Override(drom, lewi)] + app
  }

  lemma FixedWords()
    ensures IsWord("--debug") && IsWord("false") && IsWord("--vranks") && IsWord("--degree")
    ensures IsWord("--config-override")
  {
    assert Graphic("--debug") && Graphic("false") && Graphic("--vranks") && Graphic("--degree");
    assert Graphic("--config-override");
    GraphicWord("--debug");
    GraphicWord("false");
    GraphicWord("--vranks");
    GraphicWord("--degree");
    GraphicWord("--config-override");
  }

  lemma PolicyIsWord(policy: Policy)
    ensures IsWord("--" + policy.Name())
  {
    assert Graphic("--" + policy.Name());
    GraphicWord("--" + policy.Name());
  }

  /** With word-only timing and application arguments, the shared arguments are all single words. */
  lemma RunWordsAreWords(vranks: int, policy: Policy, degree: int, timing: seq<string>,
                         drom: bool, lewi: bool, app: seq<string>)
    requires AllWords(timing) && AllWords(app)
    ensures AllWords(RunWords(vranks, policy, degree, timing, drom, lewi, app))
  {
    FixedWords();
    PolicyIsWord(policy);
    IntTextIsWord(vranks);
    IntTextIsWord(degree);
    OverrideIsWord(drom, lewi);
    var head := ["--debug", "false", "--vranks", IntText(vranks), "--" + policy.Name(), "--degree", IntText(degree)];
    var mid := ["--config-override", Override(drom, lewi)];
    assert AllWords(head);
    assert AllWords(mid);
    AllWordsConcat(head, timing);
    AllWordsConcat(head + timing, mid);
    AllWordsConcat(head + timing + mid, app);
  }

  /**
   * The words before the `$hybrid_params` slot; the template writes
   * `$$hybrid_directory`, which substitution turns into `$hybrid_directory`.
   */
  const HybridPrefix: seq<string> := ["runhybrid.py", "--hybrid-directory", "$hybrid_directory"]

  lemma HybridPrefixWords()
    ensures AllWords(HybridPrefix)
  {
    assert Graphic("runhybrid.py") && Graphic("--hybrid-directory") && Graphic("$hybrid_directory");
    GraphicWords(HybridPrefix);
  }

  /**
   * A template whose `$hybrid_params` slot (free text, possibly empty or
   * several words) sits between two runs of single words.
   */
  function WithParams(before: seq<string>, hybridParams: string, after: seq<string>): string
  {
    Join(before) + " " + hybridParams + " " + Join(after)
  }

  /** What the shell sees: the fixed words with the parameters' own words in between. */
  lemma WithParamsTokens(before: seq<string>, hybridParams: string, after: seq<string>)
    requires AllWords(before) && AllWords(after)
    ensures Tokens(WithParams(before, hybridParams, after)) == before + Tokens(hybridParams) + after
  {
    TokensAround(Join(before), hybridParams, Join(after));
    TokensJoin(before);
    TokensJoin(after);
  }

  lemma OverrideIsWord(drom: bool, lewi: bool)
    ensures IsWord(Override(drom, lewi))
  {
    var a, b, c, d := "dlb.enable_drom=", BoolText(drom), ",dlb.enable_lewi=", BoolText(lewi);
    assert Graphic(a) && Graphic(b) && Graphic(c) && Graphic(d);
    GraphicConcat(a, b);
    GraphicConcat(a + b, c);
    GraphicConcat(a + b + c, d);
    GraphicWord(a + b + c + d);
  }

  // ----------------------------------------------------------- enumeration

  /** The blocks f(x), for x in xs in order, one after another (nested for-loops). */
  function ConcatMap<A, B>(f: A -> seq<B>, xs: seq<A>): seq<B>
  {
    if xs == [] then [] else ConcatMap(f, xs[..|xs| - 1]) + f(xs[|xs| - 1])
  }

  /** One more iteration of the loop appends one more block. */
  lemma ConcatMapStep<A, B>(f: A -> seq<B>, xs: seq<A>, i: nat)
    requires i < |xs|
    ensures ConcatMap(f, xs[..i + 1]) == ConcatMap(f, xs[..i]) + f(xs[i])
  {
    assert xs[..i + 1][..i] == xs[..i];
  }

  lemma {:induction false} ConcatMapAppend<A, B>(f: A -> seq<B>, xs: seq<A>, ys: seq<A>)
    ensures ConcatMap(f, xs + ys) == ConcatMap(f, xs) + ConcatMap(f, ys)
    decreases |ys|
  {
    if ys != [] {
      var zs := ys[..|ys| - 1];
      assert (xs + ys)[..|xs + ys| - 1] == xs + zs;
      ConcatMapAppend(f, xs, zs);
    } else {
      assert xs + ys == xs;
    }
  }

  /** The first iteration of a loop over range(lo, hi) comes first. */
  lemma ConcatMapRangeFirst<B>(f: int -> seq<B>, lo: int, hi: int)
    requires lo < hi
    ensures ConcatMap(f, Range(lo, hi)) == f(lo) + ConcatMap(f, Range(lo + 1, hi))
  {
    RangeFirst(lo, hi);
    ConcatMapCons(f, lo, Range(lo + 1, hi));
  }

  lemma RangeFirst(lo: int, hi: int)
    requires lo < hi
    ensures Range(lo, hi) == [lo] + Range(lo + 1, hi)
  {
    var r, t := Range(lo, hi), [lo] + Range(lo + 1, hi);
    assert |r| == |t|;
    forall k | 0 <= k < |r| ensures r[k] == t[k] {
      if k > 0 { assert t[k] == Range(lo + 1, hi)[k - 1]; }
    }
  }

  /** The first block comes first. */
  lemma ConcatMapCons<A, B>(f: A -> seq<B>, x: A, ys: seq<A>)
    ensures ConcatMap(f, [x] + ys) == f(x) + ConcatMap(f, ys)
  {
    ConcatMapAppend(f, [x], ys);
    ConcatMapOne(f, x);
  }

  /** Every block of one size L: L items per loop iteration. */
  lemma {:induction false} ConcatMapLength<A, B>(f: A -> seq<B>, xs: seq<A>, len: nat)
    requires forall k :: 0 <= k < |xs| ==> |f(xs[k])| == len
    ensures |ConcatMap(f, xs)| == |xs| * len
    decreases |xs|
  {
    if xs != [] {
      var ys := xs[..|xs| - 1];
      assert forall k :: 0 <= k < |ys| ==> ys[k] == xs[k];
      ConcatMapLength(f, ys, len);
      assert |ConcatMap(f, xs)| == |ys| * len + len;
      assert |xs| * len == |ys| * len + len;
    }
  }

  /** The block of one iteration, spliced into the whole. */
  lemma ConcatMapOne<A, B>(f: A -> seq<B>, x: A)
    ensures ConcatMap(f, [x]) == f(x)
  {
    assert [x][..0] == [];
  }

  lemma MulMono(a: nat, b: nat, c: nat)
    requires a <= b
    ensures a * c <= b * c
  {
  }

  /**
   * With every block of length L, item j of the block of iteration m sits at
   * position m * L + j of the whole.
   */
  lemma {:induction false} ConcatMapIndex<A, B>(f: A -> seq<B>, xs: seq<A>, len: nat, m: nat, j: nat)
    requires forall k :: 0 <= k < |xs| ==> |f(xs[k])| == len
    requires m < |xs| && j < len
    ensures m * len + j < |ConcatMap(f, xs)|
    ensures ConcatMap(f, xs)[m * len + j] == f(xs[m])[j]
    decreases |xs|
  {
    var ys := xs[..|xs| - 1];
    assert forall k :: 0 <= k < |ys| ==> ys[k] == xs[k];
    ConcatMapLength(f, ys, len);
    assert ConcatMap(f, xs) == ConcatMap(f, ys) + f(xs[|xs| - 1]);
    if m < |ys| {
      ConcatMapIndex(f, ys, len, m, j);
      MulMono(m + 1, |ys|, len);
      MulStep(m, len);
    } else {
      assert m * len + j == |ConcatMap(f, ys)| + j;
    }
  }

  /** With every block of length L, the block of iteration m is the slice [m * L, m * L + L) of the whole. */
  lemma ConcatMapBlock<A, B>(f: A -> seq<B>, xs: seq<A>, len: nat, m: nat)
    requires forall k :: 0 <= k < |xs| ==> |f(xs[k])| == len
    requires m < |xs|
    ensures m * len + len <= |ConcatMap(f, xs)|
    ensures ConcatMap(f, xs)[m * len .. m * len + len] == f(xs[m])
  {
    var before, after := xs[..m], xs[m + 1..];
    assert xs == before + [xs[m]] + after;
    ConcatMapAppend(f, before + [xs[m]], after);
    ConcatMapAppend(f, before, [xs[m]]);
    ConcatMapOne(f, xs[m]);
    assert forall k :: 0 <= k < |before| ==> before[k] == xs[k];
    ConcatMapLength(f, before, len);
    MiddleSlice(ConcatMap(f, before), f(xs[m]), ConcatMap(f, after));
  }

  lemma MiddleSlice<B>(a: seq<B>, b: seq<B>, c: seq<B>)
    ensures (a + b + c)[|a|..|a| + |b|] == b
  {
  }

  lemma MulStep(a: nat, c: nat)
    ensures (a + 1) * c == a * c + c
  {
  }

  /** Loops whose inner blocks are singletons produce one item per outer iteration. */
  lemma {:induction false} ConcatMapSingle<A, B>(f: A -> seq<B>, g: A -> B, xs: seq<A>)
    requires forall k :: 0 <= k < |xs| ==> f(xs[k]) == [g(xs[k])]
    ensures ConcatMap(f, xs) == MapSeq(g, xs)
    decreases |xs|
  {
    if xs != [] {
      var ys := xs[..|xs| - 1];
      assert forall k :: 0 <= k < |ys| ==> ys[k] == xs[k];
      ConcatMapSingle(f, g, ys);
      assert xs == ys + [xs[|xs| - 1]];
      MapSeqStep(g, ys, xs[|xs| - 1]);
    }
  }

  /** An item is produced exactly when some iteration's block produces it. */
  lemma {:induction false} ConcatMapMember<A, B>(f: A -> seq<B>, xs: seq<A>, y: B)
    ensures y in ConcatMap(f, xs) <==> exists k :: 0 <= k < |xs| && y in f(xs[k])
    decreases |xs|
  {
    if xs != [] {
      var ys := xs[..|xs| - 1];
      ConcatMapMember(f, ys, y);
      if exists k :: 0 <= k < |xs| && y in f(xs[k]) {
        var k :| 0 <= k < |xs| && y in f(xs[k]);
        if k < |ys| { assert ys[k] == xs[k]; }
      }
      if exists k :: 0 <= k < |ys| && y in f(ys[k]) {
        var k :| 0 <= k < |ys| && y in f(ys[k]);
        assert xs[k] == ys[k];
      }
    }
  }

  /** The same, by element: an item is produced exactly when the block of some x in xs produces it. */
  lemma ConcatMapIn<A, B>(f: A -> seq<B>, xs: seq<A>, y: B)
    ensures y in ConcatMap(f, xs) <==> exists x :: x in xs && y in f(x)
  {
    ConcatMapMember(f, xs, y);
    if exists x :: x in xs && y in f(x) {
      var x :| x in xs && y in f(x);
      var k :| 0 <= k < |xs| && xs[k] == x;
      assert y in f(xs[k]);
    }
  }

  /** The running total of a per-item cost (the `est_time_secs += ...` of each yield). */
  function SumOf<A>(cost: A -> nat, xs: seq<A>): nat
  {
    if xs == [] then 0 else SumOf(cost, xs[..|xs| - 1]) + cost(xs[|xs| - 1])
  }

  lemma SumOfStep<A>(cost: A -> nat, xs: seq<A>, x: A)
    ensures SumOf(cost, xs + [x]) == SumOf(cost, xs) + cost(x)
  {
    assert (xs + [x])[..|xs|] == xs;
  }

  /** A cost that is the same for every command totals count × cost. */
  lemma {:induction false} SumOfConst<A>(cost: A -> nat, xs: seq<A>, c: nat)
    requires forall k :: 0 <= k < |xs| ==> cost(xs[k]) == c
    ensures SumOf(cost, xs) == |xs| * c
    decreases |xs|
  {
    if xs != [] {
      var ys := xs[..|xs| - 1];
      assert forall k :: 0 <= k < |ys| ==> ys[k] == xs[k];
      SumOfConst(cost, ys, c);
    }
  }

  lemma {:induction false} SumOfAppend<A>(cost: A -> nat, xs: seq<A>, ys: seq<A>)
    ensures SumOf(cost, xs + ys) == SumOf(cost, xs) + SumOf(cost, ys)
    decreases |ys|
  {
    if ys == [] {
      assert xs + ys == xs;
    } else {
      var zs := ys[..|ys| - 1];
      assert (xs + ys)[..|xs + ys| - 1] == xs + zs;
      SumOfAppend(cost, xs, zs);
    }
  }

  /** Blocks of equal total cost c: the loops' total is the number of blocks times c. */
  lemma {:induction false} SumOfConcatMapConst<A, B>(cost: B -> nat, f: A -> seq<B>, xs: seq<A>, c: nat)
    requires forall k :: 0 <= k < |xs| ==> SumOf(cost, f(xs[k])) == c
    ensures SumOf(cost, ConcatMap(f, xs)) == |xs| * c
    decreases |xs|
  {
    if xs != [] {
      var ys := xs[..|xs| - 1];
      assert forall k :: 0 <= k < |ys| ==> ys[k] == xs[k];
      SumOfConcatMapConst(cost, f, ys, c);
      SumOfAppend(cost, ConcatMap(f, ys), f(xs[|xs| - 1]));
      MulStep(|ys|, c);
    }
  }

  /**
   * An outer loop over non-decreasing keys whose blocks carry their key
   * produces items in non-decreasing key order.
   */
  lemma {:induction false} ConcatMapKeyOrder<B>(f: int -> seq<B>, xs: seq<int>, key: B -> int)
    requires forall k, y :: 0 <= k < |xs| && y in f(xs[k]) ==> key(y) == xs[k]
    requires forall i, j :: 0 <= i < j < |xs| ==> xs[i] <= xs[j]
    ensures forall i, j :: 0 <= i < j < |ConcatMap(f, xs)| ==> key(ConcatMap(f, xs)[i]) <= key(ConcatMap(f, xs)[j])
    decreases |xs|
  {
    if xs != [] {
      var ys := xs[..|xs| - 1];
      var last := xs[|xs| - 1];
      var front := ConcatMap(f, ys);
      var r := ConcatMap(f, xs);
      assert r == front + f(last);
      ConcatMapKeyOrder(f, ys, key);
      forall i | 0 <= i < |front| ensures key(front[i]) <= last {
        ConcatMapMember(f, ys, front[i]);
        var k :| 0 <= k < |ys| && front[i] in f(ys[k]);
        assert ys[k] == xs[k];
      }
      forall i, j | 0 <= i < j < |r| ensures key(r[i]) <= key(r[j]) {
        if j < |front| {
          assert r[i] == front[i] && r[j] == front[j];
        } else if i < |front| {
          assert r[i] == front[i] && r[j] in f(last);
        } else {
          assert r[i] in f(last) && r[j] in f(last);
        }
      }
    }
  }

  /**
   * The body every `commands` generator shares: for each setting of the
   * loops, in order, render the command line, add the setting's cost to the
   * running estimate and yield the line. The estimate starts from 0, as the
   * generators reset `est_time_secs` first.
   */
  method Enumerate<S>(grid: seq<S>, render: S -> string, cost: S -> nat) returns (cmds: seq<string>, estTimeSecs: nat)
    ensures cmds == MapSeq(render, grid)
    ensures estTimeSecs == SumOf(cost, grid)
  {
    cmds, estTimeSecs := [], 0;
    for i := 0 to |grid|
      invariant cmds == MapSeq(render, grid[..i])
      invariant estTimeSecs == SumOf(cost, grid[..i])
    {
      var s := grid[i];
      assert grid[..i + 1] == grid[..i] + [s];
      MapSeqStep(render, grid[..i], s);
      SumOfStep(cost, grid[..i], s);
      cmds := cmds + [render(s)];
      estTimeSecs := estTimeSecs + cost(s);
    }
    assert grid[..|grid|] == grid;
  }

  /** Each setting rendered by the template, in order. */
  function MapSeq<A, B>(f: A -> B, xs: seq<A>): (r: seq<B>)
    ensures |r| == |xs| && forall k :: 0 <= k < |xs| ==> r[k] == f(xs[k])
  {
    seq(|xs|, k requires 0 <= k < |xs| => f(xs[k]))
  }

  lemma MapSeqStep<A, B>(f: A -> B, xs: seq<A>, x: A)
    ensures MapSeq(f, xs + [x]) == MapSeq(f, xs) + [f(x)]
  {
  }
}

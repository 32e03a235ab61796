/**
 * The imbalance curve of syntheticconvergence.py's `process`: the map files
 * tell which node each external rank runs on, and every half-second tick
 * adds up the busy values of the ranks on each node, then records the
 * ratio of the busiest node to the average node.
 *
 * The busy samples of each tick and the parsed map files are inputs here;
 * reading and resampling the files is not modelled.
 */
module ConvergenceProcess {
  import opened Wrappers
  import opened Text
  import SyntheticConvergence

  // ------------------------------------------------------------ map files

  /** What one map file says: its `externalRank` and `nodeNum` entries (None when unreadable). */
  datatype MapEntry = MapEntry(extrank: Option<int>, nodeNum: Option<int>)

  /** The labels of the six lines of a map file, in file order. */
  const Labels: seq<string> := ["externalRank", "apprankNum", "internalRank", "nodeNum", "indexThisNode", "cpusOnNode"]

  /** `f.readline()` for line k: the empty string past the end of the file. */
  function Line(lines: seq<string>, k: nat): string
  {
    if k < |lines| then lines[k] else ""
  }

  /** The `read_map_entry` calls for lines k to 5; the first ValueError ends the read. */
  function ReadEntries(lines: seq<string>, k: nat): (r: Result<seq<Option<int>>, PyError>)
    requires k <= |Labels|
    ensures r.Ok? ==> |r.value| == |Labels| - k
    ensures r.Err? ==> r.error == ValueError
    decreases |Labels| - k
  {
    if k == |Labels| then Ok([])
    else match SyntheticConvergence.ReadMapEntry(Labels[k], Line(lines, k))
      case Err(e) => Err(e)
      case Ok(v) =>
        match ReadEntries(lines, k + 1)
        case Err(e) => Err(e)
        case Ok(vs) => Ok([v] + vs)
  }

  /** One map file: its first and fourth entries, or the ValueError of a malformed number. */
  function ReadMapFile(lines: seq<string>): Result<MapEntry, PyError>
  {
    match ReadEntries(lines, 0)
    case Err(e) => Err(e)
    case Ok(vs) => Ok(MapEntry(vs[0], vs[3]))
  }

  /** The six labelled lines as the runtime writes them. */
  function MapFileText(extrank: int, apprank: int, internal: int, node: int, index: int, cpus: int): seq<string>
  {
    var vs := [extrank, apprank, internal, node, index, cpus];
    seq(|Labels|, k requires 0 <= k < |Labels| => Join([Labels[k], IntText(vs[k])]) + "\n")
  }

  lemma LabelsAreWords()
    ensures forall k :: 0 <= k < |Labels| ==> IsWord(Labels[k])
  {
    assert Graphic("externalRank") && Graphic("apprankNum") && Graphic("internalRank");
    assert Graphic("nodeNum") && Graphic("indexThisNode") && Graphic("cpusOnNode");
    GraphicWords(Labels);
  }

  /** When every line from k on reads without error, the read yields those values. */
  lemma {:induction false} ReadEntriesFrom(lines: seq<string>, vals: seq<Option<int>>, k: nat)
    requires k <= |Labels| == |vals|
    requires forall j :: k <= j < |Labels| ==> SyntheticConvergence.ReadMapEntry(Labels[j], Line(lines, j)) == Ok(vals[j])
    ensures ReadEntries(lines, k) == Ok(vals[k..])
    decreases |Labels| - k
  {
    if k < |Labels| {
      ReadEntriesFrom(lines, vals, k + 1);
      assert SyntheticConvergence.ReadMapEntry(Labels[k], Line(lines, k)) == Ok(vals[k]);
      assert ReadEntries(lines, k) == Ok([vals[k]] + vals[k + 1..]);
      assert [vals[k]] + vals[k + 1..] == vals[k..];
    } else {
      assert vals[k..] == [];
    }
  }

  /** A map file written by the runtime reads back as its external rank and node. */
  lemma MapFileRoundTrip(extrank: int, apprank: int, internal: int, node: int, index: int, cpus: int)
    ensures ReadMapFile(MapFileText(extrank, apprank, internal, node, index, cpus)) == Ok(MapEntry(Some(extrank), Some(node)))
  {
    var lines := MapFileText(extrank, apprank, internal, node, index, cpus);
    var vs := [extrank, apprank, internal, node, index, cpus];
    var vals := seq(|Labels|, k requires 0 <= k < |Labels| => Some(vs[k]));
    forall k | 0 <= k < |Labels|
      ensures SyntheticConvergence.ReadMapEntry(Labels[k], Line(lines, k)) == Ok(vals[k])
    {
      MapFileLine(vs, k);
    }
    ReadEntriesFrom(lines, vals, 0);
  }

  /** Line k of a written map file reads back as its value. */
  lemma MapFileLine(vs: seq<int>, k: nat)
    requires |vs| == |Labels| && k < |Labels|
    ensures SyntheticConvergence.ReadMapEntry(Labels[k], Line(MapFileText(vs[0], vs[1], vs[2], vs[3], vs[4], vs[5]), k)) == Ok(Some(vs[k]))
  {
    var lines := MapFileText(vs[0], vs[1], vs[2], vs[3], vs[4], vs[5]);
    assert [vs[0], vs[1], vs[2], vs[3], vs[4], vs[5]] == vs;
    assert Line(lines, k) == Join([Labels[k], IntText(vs[k])]) + "\n";
    LabelsAreWords();
    SyntheticConvergence.ReadMapEntryWritten(Labels[k], vs[k]);
  }

  /** A file cut short reads None for the missing lines instead of failing. */
  lemma EmptyMapFile()
    ensures ReadMapFile([]) == Ok(MapEntry(None, None))
  {
    forall k | 0 <= k < |Labels|
      ensures SyntheticConvergence.ReadMapEntry(Labels[k], Line([], k)) == Ok(None)
    {
      assert Tokens("") == [];
    }
    ReadEntriesFrom([], seq(|Labels|, k => None), 0);
  }

  /** The external ranks of the files, in listing order. */
  function Extranks(entries: seq<MapEntry>): seq<Option<int>>
  {
    seq(|entries|, i requires 0 <= i < |entries| => entries[i].extrank)
  }

  /** The node of each file, in listing order. */
  function NodeNums(entries: seq<MapEntry>): seq<Option<int>>
  {
    seq(|entries|, i requires 0 <= i < |entries| => entries[i].nodeNum)
  }

  /** No two map files name the same external rank. */
  predicate DistinctRanks(entries: seq<MapEntry>)
  {
    forall a, b :: 0 <= a < b < |entries| ==> entries[a].extrank != entries[b].extrank
  }

  /** The dict `extrank_to_node` after the loop: later files overwrite earlier ones. */
  function NodeOf(entries: seq<MapEntry>): map<Option<int>, Option<int>>
  {
    if entries == [] then map[]
    else
      var e := entries[|entries| - 1];
      NodeOf(entries[..|entries| - 1])[e.extrank := e.nodeNum]
  }

  /** The ranks the dict knows are exactly the ranks of the files, and it maps them to nodes of the files. */
  lemma {:induction false} NodeOfDomain(entries: seq<MapEntry>)
    ensures forall k :: k in NodeOf(entries) <==> exists i :: 0 <= i < |entries| && entries[i].extrank == k
    ensures forall k :: k in NodeOf(entries) ==> exists i :: 0 <= i < |entries| && entries[i].nodeNum == NodeOf(entries)[k]
  {
    if entries != [] {
      var init := entries[..|entries| - 1];
      NodeOfDomain(init);
      forall k | k in NodeOf(entries)
        ensures exists i :: 0 <= i < |entries| && entries[i].extrank == k
        ensures exists i :: 0 <= i < |entries| && entries[i].nodeNum == NodeOf(entries)[k]
      {
        if k == entries[|entries| - 1].extrank {
          assert entries[|entries| - 1].nodeNum == NodeOf(entries)[k];
        } else {
          assert k in NodeOf(init) && NodeOf(entries)[k] == NodeOf(init)[k];
          var i :| 0 <= i < |init| && init[i].extrank == k;
          assert entries[i] == init[i];
          var j :| 0 <= j < |init| && init[j].nodeNum == NodeOf(init)[k];
          assert entries[j] == init[j];
        }
      }
      forall k | exists i :: 0 <= i < |entries| && entries[i].extrank == k
        ensures k in NodeOf(entries)
      {
        var i :| 0 <= i < |entries| && entries[i].extrank == k;
        if i < |init| {
          assert init[i] == entries[i];
        }
      }
    }
  }

  /** With distinct external ranks, every file's rank maps to that file's own node. */
  lemma {:induction false} NodeOfDistinct(entries: seq<MapEntry>, i: int)
    requires DistinctRanks(entries)
    requires 0 <= i < |entries|
    ensures entries[i].extrank in NodeOf(entries)
    ensures NodeOf(entries)[entries[i].extrank] == entries[i].nodeNum
  {
    if i < |entries| - 1 {
      var init := entries[..|entries| - 1];
      assert init[i] == entries[i];
      NodeOfDistinct(init, i);
    }
  }

  /**
   * The map-file loop: the list of external ranks in listing order, the
   * rank-to-node dict and the set of nodes.
   */
  method GatherMaps(entries: seq<MapEntry>)
    returns (extranks: seq<Option<int>>, extrankToNode: map<Option<int>, Option<int>>, nodes: set<Option<int>>)
    ensures extranks == Extranks(entries)
    ensures extrankToNode == NodeOf(entries)
    ensures forall n :: n in nodes <==> exists i :: 0 <= i < |entries| && entries[i].nodeNum == n
  {
    extranks, extrankToNode, nodes := [], map[], {};
    for i := 0 to |entries|
      invariant |extranks| == i && forall j :: 0 <= j < i ==> extranks[j] == entries[j].extrank
      invariant extrankToNode == NodeOf(entries[..i])
      invariant forall n :: n in nodes <==> exists j :: 0 <= j < i && entries[j].nodeNum == n
    {
      assert entries[..i + 1][..i] == entries[..i];
      extranks := extranks + [entries[i].extrank];
      extrankToNode := extrankToNode[entries[i].extrank := entries[i].nodeNum];
      nodes := nodes + {entries[i].nodeNum};
    }
    assert entries[..|entries|] == entries;
  }


  // ------------------------------------------------------------ owners

  /**
   * As written: `enumerate(busies)` charges the i-th busy value to the node
   * of external rank i, although the i-th generator reads the file of
   * `extranks[i]`. KeyError when some rank i below `count` is not in the dict.
   */
  function OwnersAsWritten(count: nat, extrankToNode: map<Option<int>, Option<int>>): (r: Result<seq<Option<int>>, PyError>)
    ensures r.Ok? <==> forall i :: 0 <= i < count ==> Some(i) in extrankToNode
    ensures r.Err? ==> r.error == KeyError
    ensures r.Ok? ==> |r.value| == count && forall i :: 0 <= i < count ==> r.value[i] == extrankToNode[Some(i)]
  {
    if count == 0 then Ok([])
    else match OwnersAsWritten(count - 1, extrankToNode)
      case Err(e) => Err(e)
      case Ok(o) =>
        if Some(count - 1) in extrankToNode then Ok(o + [extrankToNode[Some(count - 1)]])
        else Err(KeyError)
  }

  /** Corrected: the i-th busy value belongs to the node of `extranks[i]`. */
  function Owners(extranks: seq<Option<int>>, extrankToNode: map<Option<int>, Option<int>>): (r: Result<seq<Option<int>>, PyError>)
    ensures r.Ok? <==> forall i :: 0 <= i < |extranks| ==> extranks[i] in extrankToNode
    ensures r.Err? ==> r.error == KeyError
    ensures r.Ok? ==> |r.value| == |extranks| && forall i :: 0 <= i < |extranks| ==> r.value[i] == extrankToNode[extranks[i]]
  {
    if extranks == [] then Ok([])
    else match Owners(extranks[..|extranks| - 1], extrankToNode)
      case Err(e) => Err(e)
      case Ok(o) =>
        var k := extranks[|extranks| - 1];
        if k in extrankToNode then Ok(o + [extrankToNode[k]]) else Err(KeyError)
  }

  /**
   * For the dict and node set the map-file loop builds, the corrected
   * lookup never fails and every owner it returns is one of the nodes.
   */
  lemma GatheredOwners(entries: seq<MapEntry>, nodes: set<Option<int>>)
    requires forall n :: n in nodes <==> exists i :: 0 <= i < |entries| && entries[i].nodeNum == n
    ensures Owners(Extranks(entries), NodeOf(entries)).Ok?
    ensures forall i :: 0 <= i < |entries| ==> Owners(Extranks(entries), NodeOf(entries)).value[i] in nodes
  {
    NodeOfDomain(entries);
  }

  /** With distinct ranks, the corrected lookup charges each file's busy value to that file's own node. */
  lemma CorrectedOwners(entries: seq<MapEntry>)
    requires DistinctRanks(entries)
    ensures Owners(Extranks(entries), NodeOf(entries)) == Ok(NodeNums(entries))
  {
    forall i | 0 <= i < |entries|
      ensures entries[i].extrank in NodeOf(entries) && NodeOf(entries)[entries[i].extrank] == entries[i].nodeNum
    {
      NodeOfDistinct(entries, i);
    }
    var ks := Extranks(entries);
    assert |ks| == |entries| && forall i :: 0 <= i < |ks| ==> ks[i] == entries[i].extrank;
    var r := Owners(ks, NodeOf(entries));
    assert r.Ok?;
    assert |r.value| == |NodeNums(entries)|;
    assert forall i :: 0 <= i < |entries| ==> r.value[i] == NodeNums(entries)[i];
    assert r.value == NodeNums(entries);
  }

  // ------------------------------------------------------------ one tick

  /** `sum(l)`. */
  function Sum(xs: seq<real>): real
  {
    if xs == [] then 0.0 else Sum(xs[..|xs| - 1]) + xs[|xs| - 1]
  }

  /** `max(l)` of a non-empty list. */
  function Max(xs: seq<real>): (r: real)
    requires |xs| > 0
    ensures forall k :: 0 <= k < |xs| ==> xs[k] <= r
    ensures exists k :: 0 <= k < |xs| && xs[k] == r
  {
    if |xs| == 1 then xs[0]
    else
      var m := Max(xs[..|xs| - 1]);
      if xs[|xs| - 1] > m then xs[|xs| - 1] else m
  }

  /** The busy values charged to node n: the sum of `busies[i]` over the i whose owner is n. */
  function BusyOn<N(==)>(n: N, owners: seq<N>, busies: seq<real>): real
    requires |owners| == |busies|
  {
    if owners == [] then 0.0
    else
      var k := |owners| - 1;
      BusyOn(n, owners[..k], busies[..k]) + (if owners[k] == n then busies[k] else 0.0)
  }

  /** `work_on_node.values()`, one entry per node in the order of `nodes`. */
  function Values<N(==)>(nodes: seq<N>, owners: seq<N>, busies: seq<real>): (r: seq<real>)
    requires |owners| == |busies|
  {
    seq(|nodes|, k requires 0 <= k < |nodes| => BusyOn(nodes[k], owners, busies))
  }

  /**
   * The dict update of one tick: every node starts at 0 and each busy value
   * is added to its owner's entry.
   */
  method NodeWork<N(==)>(nodes: seq<N>, owners: seq<N>, busies: seq<real>) returns (values: seq<real>)
    requires |owners| == |busies|
    requires forall i :: 0 <= i < |owners| ==> owners[i] in nodes
    ensures values == Values(nodes, owners, busies)
  {
    var work := map n | n in nodes :: 0.0;
    for i := 0 to |busies|
      invariant forall n :: n in work <==> n in nodes
      invariant forall n :: n in nodes ==> work[n] == BusyOn(n, owners[..i], busies[..i])
    {
      assert owners[..i + 1][..i] == owners[..i];
      assert busies[..i + 1][..i] == busies[..i];
      work := work[owners[i] := work[owners[i]] + busies[i]];
    }
    assert owners[..|owners|] == owners && busies[..|busies|] == busies;
    values := seq(|nodes|, k requires 0 <= k < |nodes| => work[nodes[k]]);
  }

  /**
   * The point of one tick: the AssertionError on an empty node list, no point
   * when no node's total is above 0, otherwise `max / average` (with
   * Python's ZeroDivisionError when the average is 0).
   */
  function TickPoint(values: seq<real>): Result<Option<real>, PyError>
  {
    if |values| == 0 then Err(AssertionError)
    else if Max(values) > 0.0 then
      var avg := Sum(values) / (|values| as real);
      if avg == 0.0 then Err(ZeroDivisionError) else Ok(Some(Max(values) / avg))
    else Ok(None)
  }

  /** A sum of non-negative values is at least each of them and at least 0. */
  lemma {:induction false} SumAtLeast(xs: seq<real>, k: int)
    requires forall j :: 0 <= j < |xs| ==> xs[j] >= 0.0
    requires 0 <= k < |xs|
    ensures xs[k] <= Sum(xs)
  {
    var init := xs[..|xs| - 1];
    assert forall j :: 0 <= j < |init| ==> init[j] == xs[j];
    if k < |init| {
      SumAtLeast(init, k);
      assert init[k] == xs[k];
    } else if init != [] {
      SumAtLeast(init, 0);
    }
  }

  /** A sum of values that are all at most m is at most |xs| times m. */
  lemma {:induction false} SumAtMost(xs: seq<real>, m: real)
    requires forall j :: 0 <= j < |xs| ==> xs[j] <= m
    ensures Sum(xs) <= (|xs| as real) * m
  {
    if xs != [] {
      var init := xs[..|xs| - 1];
      assert forall j :: 0 <= j < |init| ==> init[j] == xs[j];
      SumAtMost(init, m);
      assert (|init| as real) * m + m == (|xs| as real) * m;
    }
  }

  lemma RatioBounds(m: real, s: real, c: real)
    requires 0.0 < m <= s <= c * m
    ensures 1.0 <= m / (s / c) <= c
  {
    assert c > 0.0;
    assert m / (s / c) == m * c / s;
    assert m * c / s <= c by {
      assert m * c <= s * c;
    }
  }

  /**
   * With non-negative busy values a tick never fails, emits a point exactly
   * when some node worked, and that point lies between 1 (perfect balance)
   * and the number of nodes (all work on one node).
   */
  lemma TickPointBounds(values: seq<real>)
    requires |values| > 0 && forall k :: 0 <= k < |values| ==> values[k] >= 0.0
    ensures TickPoint(values).Ok?
    ensures TickPoint(values).value.Some? <==> exists k :: 0 <= k < |values| && values[k] > 0.0
    ensures TickPoint(values).value.Some? ==> 1.0 <= TickPoint(values).value.value <= |values| as real
  {
    var m := Max(values);
    if m > 0.0 {
      var k :| 0 <= k < |values| && values[k] == m;
      SumAtLeast(values, k);
      SumAtMost(values, m);
      RatioBounds(m, Sum(values), |values| as real);
    }
  }

  /** A tick whose node totals are all 0 emits nothing. */
  lemma IdleTick(values: seq<real>)
    requires |values| > 0 && forall k :: 0 <= k < |values| ==> values[k] == 0.0
    ensures TickPoint(values) == Ok(None)
  {
  }

  // ------------------------------------------------------------ the curve

  /** Every tick carries one busy value per generator, and the owners are nodes. */
  predicate WellFormed<N(==)>(nodes: seq<N>, owners: Result<seq<N>, PyError>, ticks: seq<seq<real>>)
  {
    owners.Ok? ==>
      (forall i :: 0 <= i < |owners.value| ==> owners.value[i] in nodes) &&
      (forall t :: 0 <= t < |ticks| ==> |ticks[t]| == |owners.value|)
  }

  /**
   * `(xx, yy)` after the given ticks: tick t is at time 0.5·t; the owner
   * lookup and the tick's assert fail on the first tick.
   */
  function Curve<N(==)>(nodes: seq<N>, owners: Result<seq<N>, PyError>, ticks: seq<seq<real>>): Result<(seq<real>, seq<real>), PyError>
    requires WellFormed(nodes, owners, ticks)
    decreases |ticks|
  {
    if ticks == [] then Ok(([], []))
    else
      var prev := Curve(nodes, owners, ticks[..|ticks| - 1]);
      if prev.Err? then prev
      else if owners.Err? then Err(owners.error)
      else match TickPoint(Values(nodes, owners.value, ticks[|ticks| - 1]))
        case Err(e) => Err(e)
        case Ok(None) => prev
        case Ok(Some(v)) => Ok((prev.value.0 + [0.5 * ((|ticks| - 1) as real)], prev.value.1 + [v]))
  }

  /** Once the curve has failed, later ticks keep the same error. */
  lemma {:induction false} CurveErrSticks<N>(nodes: seq<N>, owners: Result<seq<N>, PyError>, ticks: seq<seq<real>>, t: nat)
    requires WellFormed(nodes, owners, ticks) && t <= |ticks|
    requires Curve(nodes, owners, ticks[..t]).Err?
    ensures Curve(nodes, owners, ticks) == Curve(nodes, owners, ticks[..t])
    decreases |ticks|
  {
    if t < |ticks| {
      var init := ticks[..|ticks| - 1];
      assert init[..t] == ticks[..t];
      CurveErrSticks(nodes, owners, init, t);
    } else {
      assert ticks[..t] == ticks;
    }
  }

  /** The tick loop of `process`, with one busy list per tick until a generator stops. */
  method Process<N(==)>(nodes: seq<N>, owners: Result<seq<N>, PyError>, ticks: seq<seq<real>>)
    returns (r: Result<(seq<real>, seq<real>), PyError>)
    requires WellFormed(nodes, owners, ticks)
    ensures r == Curve(nodes, owners, ticks)
  {
    var currTime := 0.0;
    var xx: seq<real>, yy: seq<real> := [], [];
    for t := 0 to |ticks|
      invariant WellFormed(nodes, owners, ticks[..t])
      invariant Curve(nodes, owners, ticks[..t]) == Ok((xx, yy))
      invariant currTime == 0.5 * (t as real)
    {
      WellFormedPrefix(nodes, owners, ticks, t + 1);
      if owners.Err? {
        assert ticks[..t + 1][..t] == ticks[..t];
        CurveErrSticks(nodes, owners, ticks, t + 1);
        return Err(owners.error);
      }
      var values := NodeWork(nodes, owners.value, ticks[t]);
      CurveNext(nodes, owners.value, ticks, t, xx, yy);
      match TickPoint(values) {
        case Err(e) =>
          return Err(e);
        case Ok(None) =>
        case Ok(Some(v)) =>
          xx := xx + [currTime];
          yy := yy + [v];
      }
      currTime := currTime + 0.5;
    }
    assert ticks[..|ticks|] == ticks;
    r := Ok((xx, yy));
  }

  /** What the loop body does with tick t: fail for good, skip the tick, or add a point. */
  lemma CurveNext<N>(nodes: seq<N>, owners: seq<N>, ticks: seq<seq<real>>, t: nat, xx: seq<real>, yy: seq<real>)
    requires WellFormed(nodes, Ok(owners), ticks) && t < |ticks|
    requires Curve(nodes, Ok(owners), ticks[..t]) == Ok((xx, yy))
    ensures TickPoint(Values(nodes, owners, ticks[t])).Err? ==>
      Curve(nodes, Ok(owners), ticks) == Err(TickPoint(Values(nodes, owners, ticks[t])).error)
    ensures TickPoint(Values(nodes, owners, ticks[t])) == Ok(None) ==>
      Curve(nodes, Ok(owners), ticks[..t + 1]) == Ok((xx, yy))
    ensures TickPoint(Values(nodes, owners, ticks[t])).Ok? && TickPoint(Values(nodes, owners, ticks[t])).value.Some? ==>
      Curve(nodes, Ok(owners), ticks[..t + 1]) ==
        Ok((xx + [0.5 * (t as real)], yy + [TickPoint(Values(nodes, owners, ticks[t])).value.value]))
  {
    CurveExtend(nodes, owners, ticks, t, xx, yy);
    if Curve(nodes, Ok(owners), ticks[..t + 1]).Err? {
      CurveErrSticks(nodes, Ok(owners), ticks, t + 1);
    }
  }

  lemma WellFormedPrefix<N>(nodes: seq<N>, owners: Result<seq<N>, PyError>, ticks: seq<seq<real>>, t: nat)
    requires WellFormed(nodes, owners, ticks) && t <= |ticks|
    ensures WellFormed(nodes, owners, ticks[..t])
  {
  }

  /** One more tick extends a curve that has not failed by that tick's point. */
  lemma CurveExtend<N>(nodes: seq<N>, owners: seq<N>, ticks: seq<seq<real>>, t: nat, xx: seq<real>, yy: seq<real>)
    requires WellFormed(nodes, Ok(owners), ticks) && t < |ticks|
    requires Curve(nodes, Ok(owners), ticks[..t]) == Ok((xx, yy))
    ensures Curve(nodes, Ok(owners), ticks[..t + 1]) ==
      match TickPoint(Values(nodes, owners, ticks[t]))
        case Err(e) => Err(e)
        case Ok(None) => Ok((xx, yy))
        case Ok(Some(v)) => Ok((xx + [0.5 * (t as real)], yy + [v]))
  {
    assert ticks[..t + 1][..t] == ticks[..t];
    assert ticks[..t + 1][t] == ticks[t];
  }

  /** A failed owner lookup or an empty node list ends the curve on the first tick. */
  lemma CurveErrors<N>(nodes: seq<N>, owners: Result<seq<N>, PyError>, ticks: seq<seq<real>>)
    requires WellFormed(nodes, owners, ticks) && ticks != []
    requires owners.Err? || nodes == []
    ensures Curve(nodes, owners, ticks) == Err(if owners.Err? then owners.error else AssertionError)
  {
    assert ticks[..1][..0] == [];
    CurveErrSticks(nodes, owners, ticks, 1);
  }

  /** A successful curve has one imbalance per time, with times rising from 0 and below 0.5 per tick. */
  lemma {:induction false} CurveOrder<N>(nodes: seq<N>, owners: seq<N>, ticks: seq<seq<real>>)
    requires WellFormed(nodes, Ok(owners), ticks) && |nodes| > 0
    requires Curve(nodes, Ok(owners), ticks).Ok?
    ensures |Curve(nodes, Ok(owners), ticks).value.0| == |Curve(nodes, Ok(owners), ticks).value.1|
    ensures forall i, j :: 0 <= i < j < |Curve(nodes, Ok(owners), ticks).value.0| ==>
              Curve(nodes, Ok(owners), ticks).value.0[i] < Curve(nodes, Ok(owners), ticks).value.0[j]
    ensures forall i :: 0 <= i < |Curve(nodes, Ok(owners), ticks).value.0| ==>
              0.0 <= Curve(nodes, Ok(owners), ticks).value.0[i] < 0.5 * (|ticks| as real)
    decreases |ticks|
  {
    if ticks != [] {
      var init := ticks[..|ticks| - 1];
      CurveOrder(nodes, owners, init);
      var (xx, yy) := Curve(nodes, Ok(owners), init).value;
      var now := 0.5 * ((|ticks| - 1) as real);
      var p := TickPoint(Values(nodes, owners, ticks[|ticks| - 1]));
      if p != Ok(None) {
        var xx' := xx + [now];
        assert Curve(nodes, Ok(owners), ticks).value == (xx', yy + [p.value.value]);
        assert forall i :: 0 <= i < |xx| ==> xx'[i] == xx[i] < now;
      }
    }
  }

  /**
   * A successful curve has a point at time 0.5·t exactly when the busiest
   * node of tick t is above 0; idle ticks leave a gap in the times.
   */
  lemma {:induction false} CurvePoints<N>(nodes: seq<N>, owners: seq<N>, ticks: seq<seq<real>>)
    requires WellFormed(nodes, Ok(owners), ticks) && |nodes| > 0
    requires Curve(nodes, Ok(owners), ticks).Ok?
    ensures forall t :: 0 <= t < |ticks| ==>
              ((0.5 * (t as real)) in Curve(nodes, Ok(owners), ticks).value.0 <==> Max(Values(nodes, owners, ticks[t])) > 0.0)
    decreases |ticks|
  {
    if ticks != [] {
      var init := ticks[..|ticks| - 1];
      assert forall t :: 0 <= t < |init| ==> init[t] == ticks[t];
      CurvePoints(nodes, owners, init);
      CurveOrder(nodes, owners, init);
      var xx := Curve(nodes, Ok(owners), init).value.0;
      var now := 0.5 * ((|ticks| - 1) as real);
      assert now !in xx;
    }
  }

  /** Every node total is non-negative when the busy values are. */
  lemma {:induction false} BusyOnNonNegative<N>(n: N, owners: seq<N>, busies: seq<real>)
    requires |owners| == |busies| && forall i :: 0 <= i < |busies| ==> busies[i] >= 0.0
    ensures BusyOn(n, owners, busies) >= 0.0
  {
    if owners != [] {
      var k := |owners| - 1;
      assert forall i :: 0 <= i < k ==> busies[..k][i] == busies[i];
      BusyOnNonNegative(n, owners[..k], busies[..k]);
    }
  }

  /**
   * With non-negative busy values and at least one node the curve never
   * fails, and every recorded imbalance lies between 1 and the node count.
   */
  lemma {:induction false} CurveBounds<N>(nodes: seq<N>, owners: seq<N>, ticks: seq<seq<real>>)
    requires WellFormed(nodes, Ok(owners), ticks) && |nodes| > 0
    requires forall t, i :: 0 <= t < |ticks| && 0 <= i < |ticks[t]| ==> ticks[t][i] >= 0.0
    ensures Curve(nodes, Ok(owners), ticks).Ok?
    ensures forall k :: 0 <= k < |Curve(nodes, Ok(owners), ticks).value.1| ==>
              1.0 <= Curve(nodes, Ok(owners), ticks).value.1[k] <= |nodes| as real
    decreases |ticks|
  {
    if ticks != [] {
      var init := ticks[..|ticks| - 1];
      var last := ticks[|ticks| - 1];
      assert forall t :: 0 <= t < |init| ==> init[t] == ticks[t];
      CurveBounds(nodes, owners, init);
      var values := Values(nodes, owners, last);
      forall k | 0 <= k < |values|
        ensures values[k] >= 0.0
      {
        BusyOnNonNegative(nodes[k], owners, last);
      }
      TickPointBounds(values);
    }
  }

  // ------------------------------------------------------------ listing order

  /** Node totals split over two halves of the busy list. */
  lemma {:induction false} BusyOnAppend<N>(n: N, o1: seq<N>, o2: seq<N>, b1: seq<real>, b2: seq<real>)
    requires |o1| == |b1| && |o2| == |b2|
    ensures BusyOn(n, o1 + o2, b1 + b2) == BusyOn(n, o1, b1) + BusyOn(n, o2, b2)
    decreases |o2|
  {
    if o2 != [] {
      var k := |o2| - 1;
      assert (o1 + o2)[..|o1| + k] == o1 + o2[..k];
      assert (b1 + b2)[..|b1| + k] == b1 + b2[..k];
      BusyOnAppend(n, o1, o2[..k], b1, b2[..k]);
      assert (o1 + o2)[|o1| + k] == o2[k] && (b1 + b2)[|b1| + k] == b2[k];
    } else {
      assert o1 + o2 == o1 && b1 + b2 == b1;
    }
  }

  /** Node totals do not depend on which half of the listing comes first. */
  lemma ValuesRotate<N>(nodes: seq<N>, o1: seq<N>, o2: seq<N>, b1: seq<real>, b2: seq<real>)
    requires |o1| == |b1| && |o2| == |b2|
    ensures Values(nodes, o2 + o1, b2 + b1) == Values(nodes, o1 + o2, b1 + b2)
  {
    forall k | 0 <= k < |nodes|
      ensures BusyOn(nodes[k], o2 + o1, b2 + b1) == BusyOn(nodes[k], o1 + o2, b1 + b2)
    {
      BusyOnAppend(nodes[k], o1, o2, b1, b2);
      BusyOnAppend(nodes[k], o2, o1, b2, b1);
    }
  }

  /** Reordering the two halves of a listing keeps the ranks distinct. */
  lemma DistinctRotate(e1: seq<MapEntry>, e2: seq<MapEntry>)
    requires DistinctRanks(e1 + e2)
    ensures DistinctRanks(e2 + e1)
  {
    forall a, b | 0 <= a < b < |e2 + e1|
      ensures (e2 + e1)[a].extrank != (e2 + e1)[b].extrank
    {
      var a' := if a < |e2| then |e1| + a else a - |e2|;
      var b' := if b < |e2| then |e1| + b else b - |e2|;
      assert (e2 + e1)[a] == (e1 + e2)[a'] && (e2 + e1)[b] == (e1 + e2)[b'];
    }
  }

  /**
   * Corrected attribution: with distinct ranks, the node totals of a tick
   * are the same whichever order the directory lists the map files in
   * (the busy values follow their files).
   */
  lemma ListingOrderIrrelevant(nodes: seq<Option<int>>, e1: seq<MapEntry>, e2: seq<MapEntry>, b1: seq<real>, b2: seq<real>)
    requires DistinctRanks(e1 + e2) && |b1| == |e1| && |b2| == |e2|
    ensures Owners(Extranks(e1 + e2), NodeOf(e1 + e2)) == Ok(NodeNums(e1 + e2))
    ensures Owners(Extranks(e2 + e1), NodeOf(e2 + e1)) == Ok(NodeNums(e2 + e1))
    ensures Values(nodes, NodeNums(e2 + e1), b2 + b1) == Values(nodes, NodeNums(e1 + e2), b1 + b2)
  {
    CorrectedOwners(e1 + e2);
    DistinctRotate(e1, e2);
    CorrectedOwners(e2 + e1);
    NodeNumsAppend(e1, e2);
    NodeNumsAppend(e2, e1);
    ValuesRotate(nodes, NodeNums(e1), NodeNums(e2), b1, b2);
  }

  lemma NodeNumsAppend(e1: seq<MapEntry>, e2: seq<MapEntry>)
    ensures NodeNums(e1 + e2) == NodeNums(e1) + NodeNums(e2)
  {
  }

  lemma NodeOfThree(x: MapEntry, y: MapEntry, z: MapEntry)
    ensures NodeOf([x, y, z]) == map[x.extrank := x.nodeNum][y.extrank := y.nodeNum][z.extrank := z.nodeNum]
  {
    assert [x, y, z][..2] == [x, y];
    assert [x, y][..1] == [x];
    assert [x][..0] == [];
    assert NodeOf([x]) == map[x.extrank := x.nodeNum];
    assert NodeOf([x, y]) == map[x.extrank := x.nodeNum][y.extrank := y.nodeNum];
  }

  lemma BusyOnThree<N>(n: N, o: seq<N>, b: seq<real>)
    requires |o| == 3 && |b| == 3
    ensures BusyOn(n, o, b) == (if o[0] == n then b[0] else 0.0) + (if o[1] == n then b[1] else 0.0) + (if o[2] == n then b[2] else 0.0)
  {
    assert o[..2][..1] == o[..1] && b[..2][..1] == b[..1];
    assert o[..1][..0] == [] && b[..1][..0] == [];
    assert BusyOn(n, o[..1], b[..1]) == (if o[0] == n then b[0] else 0.0);
    assert BusyOn(n, o[..2], b[..2]) == BusyOn(n, o[..1], b[..1]) + (if o[1] == n then b[1] else 0.0);
  }

  /**
   * As written, one run's three map files listed in two orders charge the
   * busy values to the same owners: rank 2 on node 1 (busy 5) and ranks 0
   * and 1 on node 0 (busy 1 each).
   */
  lemma ListingOrderAsWritten()
    ensures OwnersAsWritten(3, NodeOf([MapEntry(Some(2), Some(1)), MapEntry(Some(0), Some(0)), MapEntry(Some(1), Some(0))]))
            == Ok([Some(0), Some(0), Some(1)])
    ensures OwnersAsWritten(3, NodeOf([MapEntry(Some(0), Some(0)), MapEntry(Some(1), Some(0)), MapEntry(Some(2), Some(1))]))
            == Ok([Some(0), Some(0), Some(1)])
    ensures NodeNums([MapEntry(Some(2), Some(1)), MapEntry(Some(0), Some(0)), MapEntry(Some(1), Some(0))])
            == [Some(1), Some(0), Some(0)]
  {
    var a, b, c := MapEntry(Some(2), Some(1)), MapEntry(Some(0), Some(0)), MapEntry(Some(1), Some(0));
    NodeOfThree(a, b, c);
    NodeOfThree(b, c, a);
    var m := map[Some(2) := Some(1), Some(0) := Some(0), Some(1) := Some(0)];
    assert NodeOf([a, b, c]) == m && NodeOf([b, c, a]) == m;
    assert OwnersAsWritten(3, m).value == [Some(0), Some(0), Some(1)];
  }

  /**
   * ... so the listing order decides the node totals: 6 and 1 in the first
   * order, 2 and 5 in the second, where the files say 2 and 5 (the corrected
   * owners, the files' own nodes, give 2 and 5).
   */
  lemma ListingOrderTotals()
    ensures Values([Some(0), Some(1)], [Some(0), Some(0), Some(1)], [5.0, 1.0, 1.0]) == [6.0, 1.0]
    ensures Values([Some(0), Some(1)], [Some(0), Some(0), Some(1)], [1.0, 1.0, 5.0]) == [2.0, 5.0]
    ensures Values([Some(0), Some(1)], [Some(1), Some(0), Some(0)], [5.0, 1.0, 1.0]) == [2.0, 5.0]
  {
    var o := [Some(0), Some(0), Some(1)];
    BusyOnThree(Some(0), o, [5.0, 1.0, 1.0]);
    BusyOnThree(Some(1), o, [5.0, 1.0, 1.0]);
    BusyOnThree(Some(0), o, [1.0, 1.0, 5.0]);
    BusyOnThree(Some(1), o, [1.0, 1.0, 5.0]);
    BusyOnThree(Some(0), [Some(1), Some(0), Some(0)], [5.0, 1.0, 1.0]);
    BusyOnThree(Some(1), [Some(1), Some(0), Some(0)], [5.0, 1.0, 1.0]);
  }

  /** ... and the imbalance point: 12/7 as written in the first order, 10/7 as the files say. */
  lemma ListingOrderPoints()
    ensures TickPoint([6.0, 1.0]) == Ok(Some(12.0 / 7.0))
    ensures TickPoint([2.0, 5.0]) == Ok(Some(10.0 / 7.0))
  {
    assert [6.0, 1.0][..1] == [6.0] && [2.0, 5.0][..1] == [2.0];
    assert [6.0][..0] == [] && [2.0][..0] == [];
    assert Max([6.0, 1.0]) == 6.0 && Sum([6.0, 1.0]) == 7.0;
    assert Max([2.0, 5.0]) == 5.0 && Sum([2.0, 5.0]) == 7.0;
    assert 6.0 / (7.0 / 2.0) == 12.0 / 7.0 && 5.0 / (7.0 / 2.0) == 10.0 / 7.0;
  }
}

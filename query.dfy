/**
 * The result-query helpers that every benchmark script carries a copy of:
 * `get_values` (the sorted distinct values of one field over all results),
 * `split_by_times` (one (x, y) sample per measured time) and the best-degree
 * choice of bestdegree/bestdegree.py.
 */
module Query {
  import opened Wrappers

  /** A field value of a parsed result: the log carries integers and strings. */
  datatype Value = Int(i: int) | Str(s: string)

  /** Python's `<` on two strings: code point by code point, a proper prefix first. */
  predicate StrBelow(a: string, b: string)
    decreases |a|
  {
    if a == [] then b != []
    else if b == [] then false
    else if a[0] != b[0] then a[0] < b[0]
    else StrBelow(a[1..], b[1..])
  }

  lemma {:induction false} StrBelowIrreflexive(a: string)
    ensures !StrBelow(a, a)
    decreases |a|
  {
    if a != [] { StrBelowIrreflexive(a[1..]); }
  }

  lemma {:induction false} StrBelowTransitive(a: string, b: string, c: string)
    requires StrBelow(a, b) && StrBelow(b, c)
    ensures StrBelow(a, c)
    decreases |a|
  {
    if a != [] && a[0] == b[0] && b[0] == c[0] {
      StrBelowTransitive(a[1..], b[1..], c[1..]);
    }
  }

  lemma {:induction false} StrBelowTotal(a: string, b: string)
    requires a != b
    ensures StrBelow(a, b) || StrBelow(b, a)
    decreases |a|
  {
    if a != [] && b != [] && a[0] == b[0] {
      assert a == [a[0]] + a[1..] && b == [b[0]] + b[1..];
      StrBelowTotal(a[1..], b[1..]);
    }
  }

  /** Both values are of one kind, so Python can order them. */
  predicate SameKind(a: Value, b: Value) { a.Int? == b.Int? }

  /** Python's `<` on two values of one kind. */
  predicate Below(a: Value, b: Value)
  {
    match (a, b)
    case (Int(x), Int(y)) => x < y
    case (Str(x), Str(y)) => StrBelow(x, y)
    case _ => false
  }

  lemma BelowTransitive(a: Value, b: Value, c: Value)
    requires Below(a, b) && Below(b, c)
    ensures Below(a, c)
  {
    if a.Str? { StrBelowTransitive(a.s, b.s, c.s); }
  }

  lemma BelowTotal(a: Value, b: Value)
    requires SameKind(a, b) && a != b
    ensures Below(a, b) || Below(b, a)
  {
    if a.Str? { StrBelowTotal(a.s, b.s); }
  }

  lemma BelowIrreflexive(a: Value)
    ensures !Below(a, a)
  {
    if a.Str? { StrBelowIrreflexive(a.s); }
  }

  /** Strictly ascending, hence also free of repeats. */
  predicate Ascending(s: seq<Value>)
  {
    forall i, j :: 0 <= i < j < |s| ==> Below(s[i], s[j])
  }

  /** Every value of the collection is of one kind (Python could sort it). */
  predicate Uniform(values: set<Value>)
  {
    forall a, b :: a in values && b in values ==> SameKind(a, b)
  }

  /** x put into its place in an ascending sequence (nothing changes if it is there). */
  function Insert(x: Value, s: seq<Value>): (r: seq<Value>)
    requires Ascending(s)
    requires forall k :: 0 <= k < |s| ==> SameKind(s[k], x)
    ensures Ascending(r)
    ensures forall v :: v in r <==> v in s || v == x
    ensures forall k :: 0 <= k < |r| ==> SameKind(r[k], x)
    decreases |s|
  {
    if s == [] then [x]
    else if s[0] == x then s
    else if Below(x, s[0]) then
      InsertFront(x, s);
      [x] + s
    else
      assert SameKind(s[0], x);
      BelowTotal(x, s[0]);
      var t := Insert(x, s[1..]);
      assert forall k :: 0 <= k < |t| ==> Below(s[0], t[k]) by {
        forall k | 0 <= k < |t| ensures Below(s[0], t[k]) {
          if t[k] != x {
            assert t[k] in s[1..];
            var i :| 0 <= i < |s[1..]| && s[1..][i] == t[k];
            assert s[i + 1] == t[k];
          }
        }
      }
      InsertBehind(s[0], t);
      [s[0]] + t
  }

  lemma InsertFront(x: Value, s: seq<Value>)
    requires Ascending(s) && s != [] && Below(x, s[0])
    ensures Ascending([x] + s)
  {
    var r := [x] + s;
    forall i, j | 0 <= i < j < |r| ensures Below(r[i], r[j]) {
      if i == 0 && j > 1 { BelowTransitive(x, s[0], s[j - 1]); }
    }
  }

  lemma InsertBehind(h: Value, t: seq<Value>)
    requires Ascending(t) && forall k :: 0 <= k < |t| ==> Below(h, t[k])
    ensures Ascending([h] + t)
  {
  }

  /** Two ascending sequences with the same elements are the same sequence. */
  lemma {:induction false} AscendingUnique(a: seq<Value>, b: seq<Value>)
    requires Ascending(a) && Ascending(b)
    requires forall v :: v in a <==> v in b
    ensures a == b
    decreases |a|
  {
    NonEmptyHasMember(a);
    NonEmptyHasMember(b);
    if a != [] {
      assert b != [];
      assert a[0] in b && b[0] in a;
      HeadLeast(a, b[0]);
      HeadLeast(b, a[0]);
      BelowAsymmetric(a[0], b[0]);
      forall v ensures v in a[1..] <==> v in b[1..] {
        AscendingRest(a, v);
        AscendingRest(b, v);
      }
      AscendingUnique(a[1..], b[1..]);
      assert a == [a[0]] + a[1..] && b == [b[0]] + b[1..];
    }
  }

  lemma NonEmptyHasMember(a: seq<Value>)
    ensures a != [] <==> exists v :: v in a
  {
    if a != [] { assert a[0] in a; }
  }

  /** The head of an ascending sequence is its least element. */
  lemma HeadLeast(a: seq<Value>, v: Value)
    requires Ascending(a) && v in a
    ensures v == a[0] || Below(a[0], v)
  {
    var k :| 0 <= k < |a| && a[k] == v;
  }

  lemma BelowAsymmetric(x: Value, y: Value)
    ensures !(Below(x, y) && Below(y, x))
  {
    if Below(x, y) && Below(y, x) {
      BelowTransitive(x, y, x);
      BelowIrreflexive(x);
    }
  }

  /** In an ascending sequence, the rest holds exactly the elements other than the head. */
  lemma AscendingRest(a: seq<Value>, v: Value)
    requires Ascending(a) && a != []
    ensures v in a[1..] <==> v in a && v != a[0]
  {
    if v in a[1..] {
      var k :| 0 <= k < |a[1..]| && a[1..][k] == v;
      assert Below(a[0], a[k + 1]);
      BelowIrreflexive(a[0]);
    }
    if v in a && v != a[0] {
      var k :| 0 <= k < |a| && a[k] == v;
      assert a[1..][k - 1] == v;
    }
  }

  /**
   * Python's `sorted` of a set: the ascending list of its elements, or the
   * TypeError raised when two of them are of different kinds.
   */
  method SortedOf(values: set<Value>) returns (r: Result<seq<Value>, PyError>)
    ensures r.Ok? <==> Uniform(values)
    ensures r.Err? ==> r.error == TypeError
    ensures r.Ok? ==> Ascending(r.value) && forall v :: v in r.value <==> v in values
  {
    var rest := values;
    var acc: seq<Value> := [];
    while rest != {}
      invariant rest <= values
      invariant Ascending(acc)
      invariant forall v :: v in acc <==> v in values && v !in rest
      invariant forall k :: 0 <= k < |acc| ==> SameKind(acc[k], acc[0])
      decreases |rest|
    {
      var x :| x in rest;
      if acc != [] && !SameKind(acc[0], x) {
        assert acc[0] in values;
        return Err(TypeError);
      }
      acc := Insert(x, acc);
      rest := rest - {x};
    }
    if acc != [] {
      forall a, b | a in values && b in values ensures SameKind(a, b) {
        assert a in acc && b in acc;
      }
    }
    return Ok(acc);
  }

  /** A parsed result: its fields and its list of measured times. */
  datatype Run = Run(fields: map<string, Value>, times: seq<real>)

  /** The values `r[field]` takes over the results, when every result has the field. */
  ghost predicate TakesValue(results: seq<Run>, field: string, v: Value)
  {
    exists k :: 0 <= k < |results| && field in results[k].fields && results[k].fields[field] == v
  }

  predicate HasField(results: seq<Run>, field: string)
  {
    forall k :: 0 <= k < |results| ==> field in results[k].fields
  }

  /** No two values `r[field]` takes are an integer and a string. */
  ghost predicate TakenUniform(results: seq<Run>, field: string)
  {
    forall a, b :: TakesValue(results, field, a) && TakesValue(results, field, b) ==> SameKind(a, b)
  }

  /**
   * `get_values(results, field)`: the first result without the field raises
   * KeyError; otherwise the distinct values in ascending order (TypeError if
   * integers and strings are mixed).
   */
  method GetValues(results: seq<Run>, field: string) returns (r: Result<seq<Value>, PyError>)
    ensures !HasField(results, field) <==> r == Err(KeyError)
    ensures HasField(results, field) ==> (r.Ok? <==> TakenUniform(results, field))
    ensures r.Err? ==> r.error == KeyError || r.error == TypeError
    ensures r.Ok? ==> Ascending(r.value)
    ensures r.Ok? ==> forall v :: v in r.value <==> TakesValue(results, field, v)
  {
    var values: set<Value> := {};
    for k := 0 to |results|
      invariant HasField(results[..k], field)
      invariant forall v :: v in values <==> TakesValue(results[..k], field, v)
    {
      if field !in results[k].fields {
        return Err(KeyError);
      }
      values := values + {results[k].fields[field]};
      assert forall v :: TakesValue(results[..k + 1], field, v) <==>
        TakesValue(results[..k], field, v) || v == results[k].fields[field] by {
        forall v ensures TakesValue(results[..k + 1], field, v) <==>
          TakesValue(results[..k], field, v) || v == results[k].fields[field] {
          if TakesValue(results[..k + 1], field, v) {
            var j :| 0 <= j < k + 1 && field in results[..k + 1][j].fields && results[..k + 1][j].fields[field] == v;
            if j < k { assert results[..k][j] == results[..k + 1][j]; }
          }
          if TakesValue(results[..k], field, v) {
            var j :| 0 <= j < k && field in results[..k][j].fields && results[..k][j].fields[field] == v;
            assert results[..k + 1][j] == results[..k][j];
          }
          if v == results[k].fields[field] {
            assert results[..k + 1][k] == results[k];
          }
        }
      }
    }
    assert results[..|results|] == results;
    r := SortedOf(values);
  }

  // ------------------------------------------------------------ split_by_times

  /** The measured times, all lists one after another. */
  function FlatYs<Y>(yy: seq<seq<Y>>): seq<Y>
  {
    if yy == [] then [] else FlatYs(yy[..|yy| - 1]) + yy[|yy| - 1]
  }

  /** Each x repeated once per time measured for it. */
  function FlatXs<X, Y>(xx: seq<X>, yy: seq<seq<Y>>): seq<X>
    requires |xx| == |yy|
  {
    if yy == [] then [] else FlatXs(xx[..|xx| - 1], yy[..|yy| - 1]) + seq(|yy[|yy| - 1]|, _ => xx[|xx| - 1])
  }

  /** The total number of times, Σ|yy[j]|. */
  function TotalLen<Y>(yy: seq<seq<Y>>): nat
  {
    if yy == [] then 0 else TotalLen(yy[..|yy| - 1]) + |yy[|yy| - 1]|
  }

  /**
   * `split_by_times(xx, yy)`: the assertion fails on lists of different
   * lengths; otherwise one (xx[j], y) pair per y of yy[j], in order.
   */
  method SplitByTimes<X, Y>(xx: seq<X>, yy: seq<seq<Y>>) returns (r: Result<(seq<X>, seq<Y>), PyError>)
    ensures |xx| != |yy| <==> r == Err(AssertionError)
    ensures |xx| == |yy| ==> r.Ok?
    ensures r.Ok? ==> r.value.0 == FlatXs(xx, yy) && r.value.1 == FlatYs(yy)
  {
    var n := |xx|;
    if n != |yy| {
      return Err(AssertionError);
    }
    var outXx: seq<X> := [];
    var outYy: seq<Y> := [];
    for j := 0 to n
      invariant outXx == FlatXs(xx[..j], yy[..j]) && outYy == FlatYs(yy[..j])
    {
      var ys := yy[j];
      for i := 0 to |ys|
        invariant outXx == FlatXs(xx[..j], yy[..j]) + seq(i, _ => xx[j])
        invariant outYy == FlatYs(yy[..j]) + ys[..i]
      {
        outXx := outXx + [xx[j]];
        outYy := outYy + [ys[i]];
        assert ys[..i + 1] == ys[..i] + [ys[i]];
      }
      assert ys[..|ys|] == ys;
      assert xx[..j + 1][..j] == xx[..j] && yy[..j + 1][..j] == yy[..j];
    }
    assert xx[..n] == xx && yy[..n] == yy;
    return Ok((outXx, outYy));
  }

  /** Both output lists hold Σ|yy[j]| samples. */
  lemma {:induction false} FlatLengths<X, Y>(xx: seq<X>, yy: seq<seq<Y>>)
    requires |xx| == |yy|
    ensures |FlatXs(xx, yy)| == TotalLen(yy) && |FlatYs(yy)| == TotalLen(yy)
    decreases |yy|
  {
    if yy != [] { FlatLengths(xx[..|xx| - 1], yy[..|yy| - 1]); }
  }

  /** The i-th time of yy[j] sits at position TotalLen(yy[..j]) + i, paired with xx[j]. */
  lemma {:induction false} FlatPairing<X, Y>(xx: seq<X>, yy: seq<seq<Y>>, j: nat, i: nat)
    requires |xx| == |yy| && j < |yy| && i < |yy[j]|
    ensures TotalLen(yy[..j]) + i < |FlatYs(yy)| && TotalLen(yy[..j]) + i < |FlatXs(xx, yy)|
    ensures FlatXs(xx, yy)[TotalLen(yy[..j]) + i] == xx[j]
    ensures FlatYs(yy)[TotalLen(yy[..j]) + i] == yy[j][i]
    decreases |yy|
  {
    FlatLengths(xx, yy);
    var m := |yy| - 1;
    var px, py := xx[..m], yy[..m];
    FlatLengths(px, py);
    if j < m {
      assert py[..j] == yy[..j];
      FlatPairing(px, py, j, i);
    } else {
      assert py == yy[..j];
    }
  }
}

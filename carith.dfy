/**
 * C integer arithmetic the benchmarks rely on: `int` wrap-around, `/` and
 * `%` truncating toward zero, the `qsort` comparator that subtracts its
 * arguments and the microseconds-to-`timespec` split.
 */
module CArith {
  const Int32Min: int := -0x8000_0000
  const Int32Max: int := 0x7FFF_FFFF
  const Two32: int := 0x1_0000_0000

  predicate InInt32(x: int) { Int32Min <= x <= Int32Max }

  /** The value a 32-bit two's-complement `int` holds after an overflowing operation. */
  function Wrap32(x: int): (r: int)
    ensures InInt32(r)
    ensures (x - r) % Two32 == 0
    ensures InInt32(x) ==> r == x
  {
    var m := x % Two32;
    if m > Int32Max then m - Two32 else m
  }

  /** C's `a / b`: the quotient truncated toward zero. */
  function TDiv(a: int, b: int): int
    requires b != 0
  {
    if a >= 0 then (if b > 0 then a / b else -(a / -b))
    else (if b > 0 then -((-a) / b) else (-a) / (-b))
  }

  /** C's `a % b`: what is left after the truncated quotient. */
  function TMod(a: int, b: int): int
    requires b != 0
  {
    a - b * TDiv(a, b)
  }

  /** Truncating division: the remainder is smaller than the divisor and takes the dividend's sign. */
  lemma TDivMod(a: int, b: int)
    requires b != 0
    ensures a == TDiv(a, b) * b + TMod(a, b)
    ensures -(if b > 0 then b else -b) < TMod(a, b) < (if b > 0 then b else -b)
    ensures a >= 0 ==> TMod(a, b) >= 0
    ensures a <= 0 ==> TMod(a, b) <= 0
    ensures a >= 0 && b > 0 ==> TDiv(a, b) == a / b && TMod(a, b) == a % b
  {
    var x, y := if a >= 0 then a else -a, if b > 0 then b else -b;
    var q, r := x / y, x % y;
    assert x == q * y + r && 0 <= r < y;
    assert TDiv(a, b) == if (a >= 0) == (b > 0) then q else -q;
    RemainderOfSigns(a, b, q, r);
  }

  lemma RemainderOfSigns(a: int, b: int, q: int, r: int)
    requires b != 0
    requires (if a >= 0 then a else -a) == q * (if b > 0 then b else -b) + r
    requires TDiv(a, b) == if (a >= 0) == (b > 0) then q else -q
    ensures TMod(a, b) == if a >= 0 then r else -r
  {
    var t := TDiv(a, b);
    if a >= 0 && b > 0 {
      assert b * t == q * b;
    } else if a >= 0 {
      assert b * t == q * -b;
    } else if b > 0 {
      assert b * t == -(q * b);
    } else {
      assert b * t == -(q * -b);
    }
  }

  /**
   * `ts.tv_sec = us / 1000000; ts.tv_nsec = (us % 1000000) * 1000;` as a
   * pair (seconds, nanoseconds).
   */
  function Timespec(us: int): (int, int)
  {
    (TDiv(us, 1000000), TMod(us, 1000000) * 1000)
  }

  /**
   * For a non-negative number of microseconds the split loses nothing and
   * the nanoseconds are normalised; a negative number gives a
   * non-positive nanoseconds field, which nanosleep rejects.
   */
  lemma TimespecSplit(us: int)
    ensures us >= 0 ==> Timespec(us).0 * 1000000 + Timespec(us).1 / 1000 == us
    ensures us >= 0 ==> 0 <= Timespec(us).1 < 1000000000 && Timespec(us).1 % 1000 == 0
    ensures us < 0 ==> -1000000000 < Timespec(us).1 <= 0
  {
    TDivMod(us, 1000000);
    var r := TMod(us, 1000000);
    assert (r * 1000) / 1000 == r;
  }

  /** `cmpfunc`: `*a - *b` computed in 32-bit `int`. */
  function CmpFunc(a: int, b: int): int
  {
    Wrap32(a - b)
  }

  /** On non-negative ints the subtraction cannot overflow, so the comparator orders them as `<` does. */
  lemma CmpFuncSign(a: int, b: int)
    requires 0 <= a <= Int32Max && 0 <= b <= Int32Max
    ensures CmpFunc(a, b) < 0 <==> a < b
    ensures CmpFunc(a, b) == 0 <==> a == b
  {
    assert InInt32(a - b);
  }

  /** Far apart values of opposite sign overflow: the comparator then calls the larger value the smaller. */
  lemma CmpFuncOverflow()
    ensures CmpFunc(Int32Max, -1) < 0
  {
    assert Wrap32(Int32Max + 1) == Int32Min;
  }
}

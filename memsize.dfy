/**
 * The memory-size codec of micropp/micropp.py: `from_mem` reads a size such
 * as "20M" (decimal multipliers k, M, G) and `format_mem` prints a byte count
 * with the largest suffix that leaves no remainder.
 */
module MemSize {
  import opened Wrappers
  import opened Text

  /** The suffix table of `from_mem`. */
  function Multiplier(c: char): Option<nat>
  {
    if c == 'k' then Some(1000)
    else if c == 'M' then Some(1000000)
    else if c == 'G' then Some(1000000000)
    else None
  }

  /** `from_mem`: an empty string fails the assertion, a bad number is a ValueError. */
  function FromMem(s: string): Result<int, PyError>
  {
    if |s| == 0 then Err(AssertionError)
    else match Multiplier(s[|s| - 1])
      case Some(m) =>
        (match PyInt(s[..|s| - 1])
         case Some(v) => Ok(v * m)
         case None => Err(ValueError))
      case None =>
        (match PyInt(s)
         case Some(v) => Ok(v)
         case None => Err(ValueError))
  }

  function Pow1000(k: nat): (p: nat)
    ensures p >= 1
  {
    if k == 0 then 1 else 1000 * Pow1000(k - 1)
  }

  /** The suffixes `format_mem` indexes with the number of divisions minus one. */
  const Suffixes: string := "kMGTPE"

  /**
   * What the loop of `format_mem` leaves: the mantissa m and the number of
   * divisions by 1000. The mantissa times 1000^num is the input, and the
   * mantissa can not be divided once more.
   */
  function Reduced(x: int): (p: (int, nat))
    ensures p.0 * Pow1000(p.1) == x
    ensures !(p.0 >= 1000 && p.0 % 1000 == 0)
    ensures (p.1 == 0) == !(x >= 1000 && x % 1000 == 0)
    ensures x >= 1 ==> p.0 >= 1
    decreases if x > 0 then x else 0
  {
    if x >= 1000 && x % 1000 == 0 then
      var q := Reduced(x / 1000);
      assert q.0 * Pow1000(q.1 + 1) == 1000 * (q.0 * Pow1000(q.1));
      (q.0, q.1 + 1)
    else (x, 0)
  }

  /** The text `format_mem` returns for x, or the IndexError past 'E'. */
  function MemText(x: int): Result<string, PyError>
  {
    var (m, num) := Reduced(x);
    if num == 0 then Ok(IntText(m))
    else if num <= |Suffixes| then Ok(IntText(m) + [Suffixes[num - 1]])
    else Err(IndexError)
  }

  /**
   * `format_mem`: divide by 1000 while the value is at least 1000 and a multiple of it.
   * The division is exact here; Python's float `/=` agrees while every quotient is at most 2^53.
   */
  method FormatMem(x0: int) returns (r: Result<string, PyError>)
    ensures r == MemText(x0)
  {
    var num: nat := 0;
    var x := x0;
    while x >= 1000 && x % 1000 == 0
      invariant Reduced(x0) == (Reduced(x).0, Reduced(x).1 + num)
      decreases x
    {
      num := num + 1;
      x := x / 1000;
    }
    if num == 0 {
      r := Ok(IntText(x));
    } else if num <= |Suffixes| {
      r := Ok(IntText(x) + [Suffixes[num - 1]]);
    } else {
      r := Err(IndexError);
    }
  }

  /** Below 1000, or off a multiple of 1000, the size is printed as a plain decimal. */
  lemma FormatMemPlain(x: int)
    requires x < 1000 || x % 1000 != 0
    ensures MemText(x) == Ok(IntText(x))
  {
  }

  /** A multiple of 1000 (at least 1000) always gets a suffix letter, or fails past 'E'. */
  lemma FormatMemSuffixed(x: int)
    requires x >= 1000 && x % 1000 == 0
    ensures MemText(x).Ok? ==> !IsDigit(MemText(x).value[|MemText(x).value| - 1])
  {
  }

  /** A plain decimal parses back to its value. */
  lemma ParsePlain(m: int)
    ensures FromMem(IntText(m)) == Ok(m)
  {
    var s := IntText(m);
    IntTextNoSpaceEnds(m);
    PyIntOfIntText(m);
    FromMemDigitLast(s);
  }

  /** A string ending in a digit is read by int() as a whole. */
  lemma FromMemDigitLast(s: string)
    requires |s| > 0 && IsDigit(s[|s| - 1])
    ensures PyInt(s).Some? ==> FromMem(s) == Ok(PyInt(s).value)
  {
    assert Multiplier(s[|s| - 1]) == None;
  }

  /** A known suffix letter scales what int() reads before it. */
  lemma FromMemScaledText(s: string, c: char)
    requires Multiplier(c).Some? && PyInt(s).Some?
    ensures FromMem(s + [c]) == Ok(PyInt(s).value * Multiplier(c).value)
  {
    var t := s + [c];
    assert t[..|t| - 1] == s;
    assert t[|t| - 1] == c;
  }

  /** int() accepts underscores between digits, so a k, M or G size may be written in digit groups. */
  lemma FromMemGroupedOf(a: string, b: string, c: char)
    requires |a| >= 1 && AllDigits(a) && |b| >= 1 && AllDigits(b) && Multiplier(c).Some?
    ensures FromMem(a + "_" + b + [c]) == Ok(DigitsValue(a + b) * Multiplier(c).value)
  {
    PyIntJoined(a, b);
    FromMemScaledText(a + "_" + b, c);
  }

  lemma ThousandValue()
    ensures DigitsValue("1000") == 1000
  {
    assert "1000"[..3] == "100" && "100"[..2] == "10" && "10"[..1] == "1" && "1"[..0] == [];
  }

  /** "1_000k" is 10^6 bytes. */
  lemma FromMemGrouped()
    ensures FromMem("1_000k") == Ok(1000000)
  {
    assert "1" + "_" + "000" + ['k'] == "1_000k" && "1" + "000" == "1000";
    FromMemGroupedOf("1", "000", 'k');
    ThousandValue();
  }

  /** A suffix letter past 'G' leaves the whole string to int(). */
  lemma FromMemBadText(s: string, c: char)
    requires c == 'T' || c == 'P' || c == 'E'
    requires PyInt(s + [c]) == None
    ensures FromMem(s + [c]) == Err(ValueError)
  {
    var t := s + [c];
    assert t[|t| - 1] == c;
    assert Multiplier(c) == None;
  }

  /** A decimal followed by k, M or G is scaled by the matching power of 1000. */
  lemma ParseScaled(m: int, num: nat)
    requires 1 <= num <= 3
    ensures FromMem(IntText(m) + [Suffixes[num - 1]]) == Ok(m * Pow1000(num))
  {
    var s, c := IntText(m), Suffixes[num - 1];
    PyIntOfIntText(m);
    SuffixMultiplier(num);
    FromMemScaledText(s, c);
  }

  /** A decimal followed by T, P or E is not understood by `from_mem`. */
  lemma ParseUnknownSuffix(m: int, c: char)
    requires c == 'T' || c == 'P' || c == 'E'
    ensures FromMem(IntText(m) + [c]) == Err(ValueError)
  {
    PyIntRejectsLetter(m, c);
    FromMemBadText(IntText(m), c);
  }

  /** The letters k, M and G stand for the first three powers of 1000. */
  lemma SuffixMultiplier(num: nat)
    requires 1 <= num <= 3
    ensures Multiplier(Suffixes[num - 1]) == Some(Pow1000(num))
  {
    assert Pow1000(1) == 1000;
    assert Pow1000(2) == 1000000;
    assert Pow1000(3) == 1000000000;
  }

  /**
   * `from_mem(format_mem(n)) == n` exactly when the suffix is none, k, M or G;
   * the T, P and E suffixes are not understood by `from_mem`. Of the program this holds
   * for sizes up to 2^53 * 1000, where its float division is exact.
   */
  lemma FormatThenParse(n: int)
    ensures Reduced(n).1 <= 3 ==> MemText(n).Ok? && FromMem(MemText(n).value) == Ok(n)
    ensures 4 <= Reduced(n).1 <= 6 ==> MemText(n).Ok? && FromMem(MemText(n).value) == Err(ValueError)
    ensures Reduced(n).1 > 6 ==> MemText(n) == Err(IndexError)
  {
    var p := Reduced(n);
    if p.1 == 0 {
      ParsePlain(p.0);
    } else if p.1 <= 6 {
      if p.1 <= 3 {
        ParseScaled(p.0, p.1);
      } else {
        var c := Suffixes[p.1 - 1];
        assert c == 'T' || c == 'P' || c == 'E';
        ParseUnknownSuffix(p.0, c);
      }
    }
  }

  /** Every size below 10^12 (in particular every size the sweeps use) survives the round trip. */
  lemma FormatThenParseBelowTera(n: int)
    requires n < Pow1000(4)
    ensures MemText(n).Ok? && FromMem(MemText(n).value) == Ok(n)
  {
    ReducedBelow(n, 4);
    FormatThenParse(n);
  }

  /** Below 1000^k, `format_mem` divides fewer than k times. */
  lemma {:induction false} ReducedBelow(n: int, k: nat)
    requires k >= 1 && n < Pow1000(k)
    ensures Reduced(n).1 < k
    decreases k
  {
    if n >= 1000 && n % 1000 == 0 {
      assert n == 1000 * (n / 1000);
      ReducedBelow(n / 1000, k - 1);
    }
  }

  /**
   * A multiple of 1000^num reads the same written out or with the suffix
   * letter: "1000" and "1k" are both 1000.
   */
  lemma PlainAndSuffixedAgree(m: int, num: nat)
    requires 1 <= num <= 3
    ensures FromMem(IntText(m * Pow1000(num))) == FromMem(IntText(m) + [Suffixes[num - 1]])
  {
    var x := m * Pow1000(num);
    ParsePlain(x);
    ParseScaled(m, num);
  }

  /** Of the two spellings, `format_mem` picks the one with the letter: 1000 prints as "1k". */
  lemma FormatPicksSuffix(m: int, num: nat)
    requires 1 <= num <= 3 && m >= 1 && !(m >= 1000 && m % 1000 == 0)
    ensures MemText(m * Pow1000(num)) == Ok(IntText(m) + [Suffixes[num - 1]])
  {
    ReducedOfScaled(m, num);
  }

  /** Reduced undoes a scaling by 1000^num of a positive mantissa that is not itself a multiple of 1000. */
  lemma {:induction false} ReducedOfScaled(m: int, num: nat)
    requires m >= 1 && !(m >= 1000 && m % 1000 == 0)
    ensures Reduced(m * Pow1000(num)) == (m, num)
    decreases num
  {
    if num > 0 {
      var p := Pow1000(num - 1);
      assert Pow1000(num) == 1000 * p;
      ReducedOfScaled(m, num - 1);
      MulShift(m, p);
      MulPositive(m, p);
      ReducedStep(m * p);
    } else {
      assert m * Pow1000(num) == m;
    }
  }

  lemma MulShift(m: int, p: int)
    ensures m * (1000 * p) == 1000 * (m * p)
  {
  }

  lemma MulPositive(m: int, p: int)
    requires m >= 1 && p >= 1
    ensures m * p >= 1
  {
  }

  /** One more factor of 1000 is one more division in `format_mem`'s loop. */
  lemma ReducedStep(y: int)
    requires y >= 1
    ensures Reduced(1000 * y) == (Reduced(y).0, Reduced(y).1 + 1)
  {
    var x := 1000 * y;
    assert x >= 1000 && x % 1000 == 0 && x / 1000 == y;
  }

  /** `from_mem` of the empty string fails its assertion. */
  lemma FromMemEmpty()
    ensures FromMem("") == Err(AssertionError)
  {
  }
}

/**
 * The checks and bookkeeping of synthetic/unbalanced.c: the argument count,
 * the bytes-per-task argument with its k/M/G suffix read through `strtoll`,
 * the first-byte correctness counter of every task's memory, and the
 * result line rank 0 prints after each iteration. MPI, the OmpSs tasks,
 * sleeping and timing are not modelled; the tasks of one iteration run one
 * after another, as their `inout` dependencies order them.
 */
module Unbalanced {
  import opened Wrappers
  import opened Text
  import opened CArith
  import MemSize

  // ------------------------------------------------------------- arguments

  /** Why `main` returns 1. */
  datatype ArgError = Usage | BadSuffix | ZeroBytes

  const LLongMax: int := 0x7FFF_FFFF_FFFF_FFFF
  const LLongMin: int := -0x8000_0000_0000_0000
  const Two64: int := 0x1_0000_0000_0000_0000

  /** C's isspace in the "C" locale. */
  predicate CSpace(c: char)
  {
    c == ' ' || ('\t' <= c <= '\r')
  }

  function SkipSpace(s: string, i: nat): (j: nat)
    requires i <= |s|
    ensures i <= j <= |s| && (j < |s| ==> !CSpace(s[j]))
    decreases |s| - i
  {
    if i < |s| && CSpace(s[i]) then SkipSpace(s, i + 1) else i
  }

  /** The end of the run of decimal digits starting at i. */
  function DigitEnd(s: string, i: nat): (e: nat)
    requires i <= |s|
    ensures i <= e <= |s| && AllDigits(s[i..e]) && (e < |s| ==> !IsDigit(s[e]))
    decreases |s| - i
  {
    if i < |s| && IsDigit(s[i]) then
      var e := DigitEnd(s, i + 1);
      assert s[i..e] == [s[i]] + s[i + 1..e];
      e
    else i
  }

  function Clamp(x: int): int
  {
    if x > LLongMax then LLongMax else if x < LLongMin then LLongMin else x
  }

  /**
   * `strtoll(s, &end, 10)`: leading white space, an optional sign and
   * decimal digits, saturating at the `long long` limits. Without digits
   * the value is 0 and the end is the start of the string.
   */
  function StrToLL(s: string): (int, nat)
  {
    var i := SkipSpace(s, 0);
    var j := if i < |s| && (s[i] == '+' || s[i] == '-') then i + 1 else i;
    var e := DigitEnd(s, j);
    if e == j then (0, 0)
    else
      var v: int := DigitsValue(s[j..e]);
      (Clamp(if i < |s| && s[i] == '-' then -v else v), e)
  }

  /** `atoi`: `strtol` truncated to `int`. */
  function Atoi(s: string): int
  {
    Wrap32(StrToLL(s).0)
  }

  /** The character `*endPtr` names: the terminating NUL past the end. */
  function EndChar(s: string, e: nat): char
  {
    if e < |s| then s[e] else '\0'
  }

  /**
   * The bytes-per-task argument as the program reads it: `strtoll`
   * converted to `size_t`, scaled in `size_t` by the character right after
   * the digits (none, k, M or G, the same table as MemSize.Multiplier),
   * and rejected when the result is 0.
   */
  function BytesPerTaskAsWritten(arg: string): (r: Result<nat, ArgError>)
    ensures r.Ok? ==> 1 <= r.value < Two64
  {
    var (v, e) := StrToLL(arg);
    var b := v % Two64;
    var c := EndChar(arg, e);
    if c == '\0' then (if b == 0 then Err(ZeroBytes) else Ok(b))
    else match MemSize.Multiplier(c)
      case None => Err(BadSuffix)
      case Some(m) => var scaled := (b * m) % Two64; if scaled == 0 then Err(ZeroBytes) else Ok(scaled)
  }

  /**
   * The check the program intends ("Bytes/task must be at least 1"): the
   * signed value, scaled by its suffix, must be at least 1.
   */
  function BytesPerTask(arg: string): (r: Result<nat, ArgError>)
    ensures r.Ok? ==> r.value >= 1
  {
    var (v, e) := StrToLL(arg);
    var c := EndChar(arg, e);
    var m: Option<nat> := if c == '\0' then Some(1) else MemSize.Multiplier(c);
    if m.None? then Err(BadSuffix)
    else if v * m.value < 1 then Err(ZeroBytes)
    else Ok(v * m.value)
  }

  /** What `main` has read once the checks pass. */
  datatype Config = Config(niter: int, ntasks: int, bytesPerTask: nat, noflush: int, myWork: string)

  /**
   * The argument handling of `main` for rank id of numAppranks, as the
   * program does it: the count check, `atoi` of the counts, `strtoll` of the
   * bytes per task stored in a `size_t`, the suffix multiplication in
   * `size_t`, the `== 0` refusal, and this rank's milliseconds per task,
   * argv[5 + id] (kept as text: `atof` is not modelled).
   */
  method ParseArgs(argv: seq<string>, numAppranks: int, id: int) returns (r: Result<Config, ArgError>)
    requires 0 <= id < numAppranks
    ensures r == Err(Usage) <==> |argv| < 5 + numAppranks
    ensures |argv| >= 5 + numAppranks && BytesPerTaskAsWritten(argv[3]).Err? ==>
      r == Err(BytesPerTaskAsWritten(argv[3]).error)
    ensures |argv| >= 5 + numAppranks && BytesPerTaskAsWritten(argv[3]).Ok? ==>
      r == Ok(Config(Atoi(argv[1]), Atoi(argv[2]), BytesPerTaskAsWritten(argv[3]).value, Atoi(argv[4]), argv[5 + id]))
    ensures r.Ok? ==> 1 <= r.value.bytesPerTask < Two64
  {
    if |argv| < 5 + numAppranks {
      return Err(Usage);
    }
    var niter := Atoi(argv[1]);
    var ntasks := Atoi(argv[2]);
    var (value, endIdx) := StrToLL(argv[3]);
    var bytesPerTask := value % Two64;
    var noflush := Atoi(argv[4]);
    var c := EndChar(argv[3], endIdx);
    if c == '\0' {
    } else if c == 'k' {
      bytesPerTask := (bytesPerTask * 1000) % Two64;
    } else if c == 'M' {
      bytesPerTask := (bytesPerTask * 1000000) % Two64;
    } else if c == 'G' {
      bytesPerTask := (bytesPerTask * 1000000000) % Two64;
    } else {
      return Err(BadSuffix);
    }
    if bytesPerTask == 0 {
      return Err(ZeroBytes);
    }
    return Ok(Config(niter, ntasks, bytesPerTask, noflush, argv[5 + id]));
  }

  /** strtoll on digits that start the string reads exactly those digits. */
  lemma StrToLLDigits(d: string, rest: string)
    requires |d| >= 1 && AllDigits(d) && (rest != [] ==> !IsDigit(rest[0]))
    ensures StrToLL(d + rest) == (Clamp(DigitsValue(d)), |d|)
  {
    var s := d + rest;
    assert s[0] == d[0];
    assert SkipSpace(s, 0) == 0;
    DigitEndOf(s, d, 0);
    assert s[0..|d|] == d;
  }

  lemma {:induction false} DigitEndOf(s: string, d: string, i: nat)
    requires AllDigits(d) && i <= |d| <= |s| && s[..|d|] == d
    requires |d| < |s| ==> !IsDigit(s[|d|])
    ensures DigitEnd(s, i) == |d|
    decreases |d| - i
  {
    if i < |d| {
      assert s[i] == d[i];
      DigitEndOf(s, d, i + 1);
    }
  }

  /** The outcome of the intended check for a non-negative value read up to a given character. */
  lemma BytesOfValue(arg: string, v: int, c: char)
    requires v >= 0 && StrToLL(arg).0 == v && EndChar(arg, StrToLL(arg).1) == c
    requires c == '\0' || MemSize.Multiplier(c).Some?
    ensures c == '\0' ==> BytesPerTask(arg) == (if v == 0 then Err(ZeroBytes) else Ok(v))
    ensures c != '\0' ==>
      BytesPerTask(arg) == (if v == 0 then Err(ZeroBytes) else Ok(v * MemSize.Multiplier(c).value))
  {
    if c != '\0' {
      var m := MemSize.Multiplier(c).value;
      assert m >= 1;
      if v >= 1 { assert v * m >= 1 * m; }
    }
  }

  /** A count without suffix is taken as it is. */
  lemma BytesPlain(d: string)
    requires |d| >= 1 && AllDigits(d) && DigitsValue(d) <= LLongMax
    ensures BytesPerTask(d) == (if DigitsValue(d) == 0 then Err(ZeroBytes) else Ok(DigitsValue(d)))
  {
    StrToLLDigits(d, []);
    assert d + [] == d;
    BytesOfValue(d, DigitsValue(d), '\0');
  }

  /**
   * k, M and G multiply the count by 10^3, 10^6 and 10^9, and only the one
   * character after the digits is looked at ("20Mb" reads as "20M").
   */
  lemma BytesScaled(d: string, tail: string)
    requires |d| >= 1 && AllDigits(d) && DigitsValue(d) <= LLongMax
    requires tail != [] && MemSize.Multiplier(tail[0]).Some?
    ensures BytesPerTask(d + tail) ==
      (if DigitsValue(d) == 0 then Err(ZeroBytes) else Ok(DigitsValue(d) * MemSize.Multiplier(tail[0]).value))
  {
    var s := d + tail;
    StrToLLDigits(d, tail);
    assert s[|d|] == tail[0];
    assert EndChar(s, StrToLL(s).1) == tail[0];
    BytesOfValue(s, DigitsValue(d), tail[0]);
  }

  /** Any other character after the digits is a bad suffix. */
  lemma BytesBadSuffix(d: string, c: char, rest: string)
    requires |d| >= 1 && AllDigits(d)
    requires c != '\0' && !IsDigit(c) && MemSize.Multiplier(c).None?
    ensures BytesPerTask(d + [c] + rest) == Err(BadSuffix)
    ensures BytesPerTaskAsWritten(d + [c] + rest) == Err(BadSuffix)
  {
    StrToLLDigits(d, [c] + rest);
    assert d + [c] + rest == d + ([c] + rest);
    assert EndChar(d + [c] + rest, |d|) == c;
  }

  /** A size of 0 after scaling is refused, also when a suffix has no digits before it. */
  lemma BytesZero()
    ensures BytesPerTask("0") == Err(ZeroBytes) && BytesPerTaskAsWritten("0") == Err(ZeroBytes)
    ensures BytesPerTask("0k") == Err(ZeroBytes) && BytesPerTaskAsWritten("0k") == Err(ZeroBytes)
    ensures BytesPerTask("k") == Err(ZeroBytes) && BytesPerTaskAsWritten("k") == Err(ZeroBytes)
  {
    StrToLLDigits("0", []);
    assert "0" + [] == "0";
    StrToLLDigits("0", "k");
    assert SkipSpace("k", 0) == 0;
    assert DigitEnd("k", 0) == 0;
  }

  /**
   * Finding: a negative count passes the zero check, since its conversion
   * to `size_t` wraps round to a huge size: "-1" asks for 2^64 - 1 bytes
   * per task where the intended check refuses it.
   */
  lemma NegativeBytesAccepted()
    ensures BytesPerTaskAsWritten("-1") == Ok(Two64 - 1)
    ensures BytesPerTask("-1") == Err(ZeroBytes)
  {
    var s := "-1";
    assert SkipSpace(s, 0) == 0;
    assert DigitEnd(s, 1) == 2 by { assert DigitEnd(s, 2) == 2; }
    assert s[1..2] == "1";
    assert DigitsValue("1") == 1 by { assert "1"[..0] == []; }
    assert StrToLL(s) == (-1, 2);
  }

  /** Wherever the intended check accepts a size below 2^64, the program reads the same size. */
  lemma BytesAgreeBelowWrap(arg: string)
    requires BytesPerTask(arg).Ok? && BytesPerTask(arg).value < Two64
    ensures BytesPerTaskAsWritten(arg) == BytesPerTask(arg)
  {
    var (v, e) := StrToLL(arg);
    var c := EndChar(arg, e);
    assert v >= 1;
    if c != '\0' {
      var m := MemSize.Multiplier(c).value;
      assert v * m < Two64;
      assert v < Two64 by { assert v <= v * m; }
      assert v % Two64 == v;
    }
  }

  /**
   * The suffixes agree with micropp/micropp.py's `from_mem`: a count with
   * k, M or G gives the same number of bytes in both.
   */
  lemma SameSuffixesAsFromMem(n: nat, num: nat)
    requires 1 <= n && 1 <= num <= 3 && n <= LLongMax
    ensures BytesPerTask(NatText(n) + [MemSize.Suffixes[num - 1]]) == Ok(n * MemSize.Pow1000(num))
    ensures MemSize.FromMem(NatText(n) + [MemSize.Suffixes[num - 1]]) == Ok(n * MemSize.Pow1000(num))
  {
    var c := MemSize.Suffixes[num - 1];
    MemSize.SuffixMultiplier(num);
    NatTextValue(n);
    BytesScaled(NatText(n), [c]);
    MemSize.ParseScaled(n, num);
  }

  // -------------------------------------------------------- first bytes

  /** A `char` store keeps the value modulo 256. */
  function Byte(x: int): int { x % 256 }

  /**
   * `mem[i*bytes_per_task] = i+10` for every task: firstBytes[t] stands for
   * the first byte of task t's block.
   */
  method InitFirstBytes(firstBytes: array<int>)
    modifies firstBytes
    ensures forall t :: 0 <= t < firstBytes.Length ==> firstBytes[t] == Byte(t + 10)
  {
    for i := 0 to firstBytes.Length
      invariant forall t :: 0 <= t < i ==> firstBytes[t] == Byte(t + 10)
    {
      firstBytes[i] := Byte(i + 10);
    }
  }

  /**
   * The tasks of iteration iter, in order: each asserts that its first
   * byte is `(char)(task + iter + 10)` and increments it. The result is
   * false when an assertion fails (the program aborts there).
   */
  method RunIteration(firstBytes: array<int>, iter: nat) returns (ok: bool)
    modifies firstBytes
    ensures ok <==> forall t :: 0 <= t < firstBytes.Length ==> old(firstBytes[t]) == Byte(t + iter + 10)
    ensures ok ==> forall t :: 0 <= t < firstBytes.Length ==> firstBytes[t] == Byte(t + iter + 11)
  {
    for task := 0 to firstBytes.Length
      invariant forall t :: 0 <= t < task ==> old(firstBytes[t]) == Byte(t + iter + 10)
      invariant forall t :: 0 <= t < task ==> firstBytes[t] == Byte(t + iter + 11)
      invariant forall t :: task <= t < firstBytes.Length ==> firstBytes[t] == old(firstBytes[t])
    {
      if firstBytes[task] != Byte(task + iter + 10) {
        return false;
      }
      firstBytes[task] := Byte(firstBytes[task] + 1);
      ByteStep(task + iter + 10);
    }
    return true;
  }

  lemma ByteStep(x: int)
    ensures Byte(Byte(x) + 1) == Byte(x + 1)
  {
  }

  /**
   * Initialisation and niter iterations: run in order, no correctness
   * assertion ever fails, and every first byte ends at task + niter + 10.
   */
  method RunAll(firstBytes: array<int>, niter: nat) returns (ok: bool)
    modifies firstBytes
    ensures ok
    ensures forall t :: 0 <= t < firstBytes.Length ==> firstBytes[t] == Byte(t + niter + 10)
  {
    InitFirstBytes(firstBytes);
    ok := true;
    for iter := 0 to niter
      invariant ok
      invariant forall t :: 0 <= t < firstBytes.Length ==> firstBytes[t] == Byte(t + iter + 10)
    {
      ok := RunIteration(firstBytes, iter);
    }
  }

  // ---------------------------------------------------------- result line

  /** Spaced grows by one word at a time, as the printing loop does. */
  lemma {:induction false} SpacedSnoc(ws: seq<string>, w: string)
    ensures Spaced(ws + [w]) == Spaced(ws) + w + " "
    decreases |ws|
  {
    if ws == [] {
      assert Spaced([w]) == w + " " + Spaced([]);
    } else {
      assert (ws + [w])[1..] == ws[1..] + [w];
      SpacedSnoc(ws[1..], w);
    }
  }

  /** Printing argument i after the arguments before it. */
  lemma PrintArgument(head: string, argv: seq<string>, i: nat)
    requires 1 <= i < |argv|
    ensures head + Spaced(argv[1..i + 1]) == head + Spaced(argv[1..i]) + argv[i] + " "
  {
    assert argv[1..i + 1] == argv[1..i] + [argv[i]];
    SpacedSnoc(argv[1..i], argv[i]);
  }

  /** The words `"# %s appranks=%d deg=%d "` prints. */
  function HeadWords(argv0: string, appranks: int, degree: int): seq<string>
  {
    ["#", argv0, "appranks=" + IntText(appranks), "deg=" + IntText(degree)]
  }

  /** The words `": iter=%d time=%3.2f sec\n"` prints; the seconds are given as `%3.2f` prints them. */
  function TailWords(iter: int, secsText: string): seq<string>
  {
    [":", "iter=" + IntText(iter), "time=" + secsText, "sec"]
  }

  /** The fixed head of the line, up to and including the space after the degree. */
  function LineHead(argv0: string, appranks: int, degree: int): string
  {
    Join(HeadWords(argv0, appranks, degree)) + " "
  }

  /** The fixed tail of the line, with its newline. */
  function LineTail(iter: int, secsText: string): string
  {
    Join(TailWords(iter, secsText)) + "\n"
  }

  /** The printf calls of one result line: the head, each argument followed by a space, the tail. */
  method ResultLine(argv: seq<string>, appranks: int, degree: int, iter: int, secsText: string) returns (line: string)
    requires |argv| >= 1
    ensures line == LineHead(argv[0], appranks, degree) + Spaced(argv[1..]) + LineTail(iter, secsText)
  {
    var head := LineHead(argv[0], appranks, degree);
    line := head;
    for i := 1 to |argv|
      invariant line == head + Spaced(argv[1..i])
    {
      PrintArgument(head, argv, i);
      line := line + argv[i] + " ";
    }
    assert argv[1..|argv|] == argv[1..];
    line := line + LineTail(iter, secsText);
  }

  /**
   * Split into words, a result line gives back the program name, the
   * counts, every argument in order, the iteration and the time.
   */
  lemma LineTokens(argv: seq<string>, appranks: int, degree: int, iter: int, secsText: string)
    requires |argv| >= 1 && AllWords(argv) && IsWord(secsText)
    ensures Tokens(LineHead(argv[0], appranks, degree) + Spaced(argv[1..]) + LineTail(iter, secsText)) ==
      HeadWords(argv[0], appranks, degree) + argv[1..] + TailWords(iter, secsText)
  {
    var head, tail := HeadWords(argv[0], appranks, degree), TailWords(iter, secsText);
    LabelWords(appranks, degree, iter, secsText);
    assert IsWord(argv[0]);
    assert AllWords(head) && AllWords(tail);
    assert AllWords(argv[1..]);
    TokensLine(head, argv[1..], tail);
  }

  lemma LabelWords(appranks: int, degree: int, iter: int, secsText: string)
    requires IsWord(secsText)
    ensures IsWord("#") && IsWord(":") && IsWord("sec")
    ensures IsWord("appranks=" + IntText(appranks)) && IsWord("deg=" + IntText(degree))
    ensures IsWord("iter=" + IntText(iter)) && IsWord("time=" + secsText)
  {
    ShortLabels();
    LongLabels();
    IntTextIsWord(appranks);
    IntTextIsWord(degree);
    IntTextIsWord(iter);
    WordConcat("appranks=", IntText(appranks));
    WordConcat("deg=", IntText(degree));
    WordConcat("iter=", IntText(iter));
    WordConcat("time=", secsText);
  }

  lemma ShortLabels()
    ensures IsWord("#") && IsWord(":") && IsWord("sec")
  {
    assert Graphic("#");
    GraphicWord("#");
    assert Graphic(":");
    GraphicWord(":");
    assert Graphic("sec");
    GraphicWord("sec");
  }

  lemma LongLabels()
    ensures IsWord("appranks=") && IsWord("deg=") && IsWord("iter=") && IsWord("time=")
  {
    assert Graphic("appranks=");
    GraphicWord("appranks=");
    assert Graphic("deg=");
    GraphicWord("deg=");
    assert Graphic("iter=");
    GraphicWord("iter=");
    assert Graphic("time=");
    GraphicWord("time=");
  }
}

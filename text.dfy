/**
 * Text handling shared by the Python helpers and the C programs: decimal
 * rendering (Python's str() of an int, C's %d), Python's int() on a string,
 * Python's str.split() with no argument, and substring search.
 */
module Text {
  import opened Wrappers

  predicate IsDigit(c: char) { '0' <= c <= '9' }

  predicate AllDigits(s: string) { forall i :: 0 <= i < |s| ==> IsDigit(s[i]) }

  function DigitChar(d: nat): (c: char)
    requires d < 10
    ensures IsDigit(c) && c as int - '0' as int == d
  {
    (d + '0' as int) as char
  }

  /** Decimal digits of a natural number, without leading zeros. */
  function NatText(n: nat): (s: string)
    ensures |s| >= 1 && AllDigits(s)
    ensures (s[0] == '0') == (n == 0)
    ensures |s| > 1 ==> n >= 10
    decreases n
  {
    if n < 10 then [DigitChar(n)] else NatText(n / 10) + [DigitChar(n % 10)]
  }

  /** Decimal rendering of an integer, with a leading '-' when negative. */
  function IntText(i: int): string
  {
    if i < 0 then "-" + NatText(-i) else NatText(i)
  }

  /** The value of a string of decimal digits (leading zeros allowed). */
  function DigitsValue(s: string): nat
    requires AllDigits(s)
    decreases |s|
  {
    if s == [] then 0 else DigitsValue(s[..|s| - 1]) * 10 + (s[|s| - 1] as int - '0' as int)
  }

  lemma {:induction false} NatTextValue(n: nat)
    ensures DigitsValue(NatText(n)) == n
    decreases n
  {
    if n >= 10 {
      NatTextValue(n / 10);
      var s := NatText(n);
      assert s[..|s| - 1] == NatText(n / 10);
    }
  }

  /** Whitespace as Python's str.split(), str.strip() and int() see it. */
  predicate IsSpace(c: char)
  {
    ('\t' <= c <= '\r') || ('\U{1C}' <= c <= '\U{1F}') || c == ' ' || c == '\U{85}' || c == '\U{A0}'
    || c == '\U{1680}' || ('\U{2000}' <= c <= '\U{200A}') || c == '\U{2028}' || c == '\U{2029}'
    || c == '\U{202F}' || c == '\U{205F}' || c == '\U{3000}'
  }

  predicate NoSpace(s: string) { forall i :: 0 <= i < |s| ==> !IsSpace(s[i]) }

  function StripLeft(s: string): (t: string)
    ensures |t| <= |s| && t == s[|s| - |t|..]
    ensures t != [] ==> !IsSpace(t[0])
    decreases |s|
  {
    if s != [] && IsSpace(s[0]) then StripLeft(s[1..]) else s
  }

  function StripRight(s: string): (t: string)
    ensures |t| <= |s| && t == s[..|t|]
    ensures t != [] ==> !IsSpace(t[|t| - 1])
    decreases |s|
  {
    if s != [] && IsSpace(s[|s| - 1]) then StripRight(s[..|s| - 1]) else s
  }

  /** Python's str.strip() with no argument. */
  function Strip(s: string): string { StripRight(StripLeft(s)) }

  predicate DigitsOrUnderscores(t: string) { forall i :: 0 <= i < |t| ==> IsDigit(t[i]) || t[i] == '_' }

  /**
   * Decimal digits with single underscores between them, the digit part
   * of a Python integer literal ("1_000").
   */
  predicate DigitGroups(t: string)
  {
    && |t| >= 1 && IsDigit(t[0]) && IsDigit(t[|t| - 1]) && DigitsOrUnderscores(t)
    && forall i, j :: 0 <= i < |t| && 0 <= j < |t| && j == i + 1 ==> t[i] != '_' || t[j] != '_'
  }

  /** The value of the digits of g, underscores skipped. */
  function GroupsValue(g: string): nat
  {
    if g == [] then 0
    else if IsDigit(g[|g| - 1]) then GroupsValue(g[..|g| - 1]) * 10 + (g[|g| - 1] as int - '0' as int)
    else GroupsValue(g[..|g| - 1])
  }

  /** The value of a literal of digit groups; None when g is not one. */
  function ParseGroups(g: string): Option<nat>
  {
    if DigitGroups(g) then Some(GroupsValue(g)) else None
  }

  /** An optionally signed literal of digit groups, as int() reads it after stripping. */
  function ParseSigned(t: string): Option<int>
  {
    if |t| >= 2 && (t[0] == '+' || t[0] == '-') then
      match ParseGroups(t[1..])
      case Some(v) => Some(if t[0] == '-' then -(v as int) else v as int)
      case None => None
    else ParseGroups(t)
  }

  /** Python's int() applied to a string; None stands for ValueError. */
  function PyInt(s: string): Option<int>
  {
    ParseSigned(Strip(s))
  }

  lemma StripUnchanged(s: string)
    requires s != [] && !IsSpace(s[0]) && !IsSpace(s[|s| - 1])
    ensures Strip(s) == s
  {
  }

  lemma IntTextNoSpaceEnds(i: int)
    ensures IntText(i) != [] && !IsSpace(IntText(i)[0]) && !IsSpace(IntText(i)[|IntText(i)| - 1])
    ensures IntText(i)[0] == '-' || IsDigit(IntText(i)[0])
    ensures IsDigit(IntText(i)[|IntText(i)| - 1])
  {
  }

  lemma ParseSignedDigits(t: string)
    requires |t| >= 1 && AllDigits(t)
    ensures ParseSigned(t) == Some(DigitsValue(t))
    ensures ParseSigned("-" + t) == Some(-(DigitsValue(t) as int))
  {
    ParseUnsignedDigits(t);
    ParseNegatedDigits(t);
  }

  lemma ParseGroupsDigits(t: string)
    requires |t| >= 1 && AllDigits(t)
    ensures ParseGroups(t) == Some(DigitsValue(t))
  {
    DigitsAreGroups(t);
    GroupsValueDigits(t);
  }

  /** Without underscores the groups' value is the digits' value. */
  lemma {:induction false} GroupsValueDigits(t: string)
    requires AllDigits(t)
    ensures GroupsValue(t) == DigitsValue(t)
    decreases |t|
  {
    if t != [] {
      var init := t[..|t| - 1];
      assert AllDigits(init) by {
        forall i | 0 <= i < |init| ensures IsDigit(init[i]) { assert init[i] == t[i]; }
      }
      GroupsValueDigits(init);
      assert IsDigit(t[|t| - 1]);
    }
  }

  lemma ParseUnsignedDigits(t: string)
    requires |t| >= 1 && AllDigits(t)
    ensures ParseSigned(t) == Some(DigitsValue(t))
  {
    ParseGroupsDigits(t);
    assert t[0] != '+' && t[0] != '-' by { assert IsDigit(t[0]); }
  }

  lemma ParseNegatedDigits(t: string)
    requires |t| >= 1 && AllDigits(t)
    ensures ParseSigned("-" + t) == Some(-(DigitsValue(t) as int))
  {
    ParseGroupsDigits(t);
    var u := "-" + t;
    assert |u| >= 2 && u[0] == '-' && u[1..] == t;
    assert ParseGroups(u[1..]) == Some(DigitsValue(t));
    assert ParseSigned(u) == Some(-(DigitsValue(t) as int));
  }

  /** A leading '+' is accepted and changes nothing. */
  lemma ParsePlusDigits(t: string)
    requires |t| >= 1 && AllDigits(t)
    ensures ParseSigned("+" + t) == Some(DigitsValue(t) as int)
  {
    ParseGroupsDigits(t);
    var u := "+" + t;
    assert |u| >= 2 && u[0] == '+' && u[1..] == t;
  }

  lemma StripDigits(t: string)
    requires |t| >= 1 && AllDigits(t)
    ensures Strip(t) == t && Strip("-" + t) == "-" + t
  {
    assert IsDigit(t[0]) && IsDigit(t[|t| - 1]);
    StripUnchanged(t);
    StripUnchanged("-" + t);
  }

  /** int() reads a run of digits, with or without a leading '-'. */
  lemma PyIntOfDigits(t: string)
    requires |t| >= 1 && AllDigits(t)
    ensures PyInt(t) == Some(DigitsValue(t))
    ensures PyInt("-" + t) == Some(-(DigitsValue(t) as int))
  {
    StripDigits(t);
    ParseSignedDigits(t);
  }

  lemma PyIntOfNatText(k: nat)
    ensures PyInt(NatText(k)) == Some(k)
    ensures PyInt("-" + NatText(k)) == Some(-(k as int))
  {
    PyIntOfDigits(NatText(k));
    NatTextValue(k);
  }

  /** int(str(i)) == i: Python reads back the decimal text it prints. */
  lemma PyIntOfIntText(i: int)
    ensures PyInt(IntText(i)) == Some(i)
  {
    if i < 0 {
      var k: nat := -i;
      assert IntText(i) == "-" + NatText(k);
      PyIntOfNatText(k);
    } else {
      assert IntText(i) == NatText(i);
      PyIntOfNatText(i);
    }
  }

  /** A plain run of digits is a literal of one group. */
  lemma DigitsAreGroups(t: string)
    requires |t| >= 1 && AllDigits(t)
    ensures DigitGroups(t)
  {
    assert IsDigit(t[0]) && IsDigit(t[|t| - 1]);
  }

  /** Two runs of digits joined by one underscore form digit groups, which read as the digits run together. */
  lemma JoinedGroups(a: string, b: string)
    requires |a| >= 1 && AllDigits(a) && |b| >= 1 && AllDigits(b)
    ensures DigitGroups(a + "_" + b) && GroupsValue(a + "_" + b) == DigitsValue(a + b)
  {
    JoinedShape(a, b);
    JoinedValue(a, b);
  }

  /** The underscore adds no digit: the value reads on from a's digits into b's. */
  lemma {:induction false} JoinedValue(a: string, b: string)
    requires AllDigits(a) && AllDigits(b)
    ensures GroupsValue(a + "_" + b) == DigitsValue(a + b)
    decreases |b|
  {
    var t := a + "_" + b;
    if b == [] {
      assert t[..|t| - 1] == a && t[|t| - 1] == '_';
      assert a + b == a;
      GroupsValueDigits(a);
    } else {
      var b' := b[..|b| - 1];
      var d := b[|b| - 1];
      assert AllDigits(b') by {
        forall i | 0 <= i < |b'| ensures IsDigit(b'[i]) { assert b'[i] == b[i]; }
      }
      JoinedValue(a, b');
      assert t[..|t| - 1] == a + "_" + b' && t[|t| - 1] == d;
      assert IsDigit(d);
      var ab := a + b;
      assert ab[..|ab| - 1] == a + b' && ab[|ab| - 1] == d;
    }
  }

  lemma JoinedShape(a: string, b: string)
    requires |a| >= 1 && AllDigits(a) && |b| >= 1 && AllDigits(b)
    ensures DigitGroups(a + "_" + b)
  {
    var t := a + "_" + b;
    forall i | 0 <= i < |t| && i != |a| ensures IsDigit(t[i]) {
      if i < |a| { assert t[i] == a[i]; } else { assert t[i] == b[i - |a| - 1]; }
    }
    forall i, j | 0 <= i < |t| && 0 <= j < |t| && j == i + 1 ensures t[i] != '_' || t[j] != '_' {
      if i != |a| { assert IsDigit(t[i]); }
    }
    assert t[0] == a[0] && t[|t| - 1] == b[|b| - 1];
  }

  /** Python's int() drops an underscore between digits: int("1_000") == 1000. */
  lemma PyIntJoined(a: string, b: string)
    requires |a| >= 1 && AllDigits(a) && |b| >= 1 && AllDigits(b)
    ensures PyInt(a + "_" + b) == Some(DigitsValue(a + b))
  {
    var t := a + "_" + b;
    JoinedGroups(a, b);
    assert t[0] == a[0] && t[|t| - 1] == b[|b| - 1];
    assert t[0] != '+' && t[0] != '-' by { assert IsDigit(a[0]); }
    StripUnchanged(t);
  }

  /** Two underscores in a row are not a literal. */
  lemma DoubledUnderscore(a: string, b: string)
    ensures !DigitGroups(a + "__" + b)
  {
    var t := a + "__" + b;
    assert t[|a|] == '_' && t[|a| + 1] == '_';
  }

  /** A literal ends in a digit. */
  lemma NotGroupsLastChar(t: string)
    requires |t| >= 1 && !IsDigit(t[|t| - 1])
    ensures !DigitGroups(t)
  {
  }

  /** A decimal text followed by a letter is not an int literal. */
  lemma PyIntRejectsLetter(i: int, c: char)
    requires !IsDigit(c) && !IsSpace(c)
    ensures PyInt(IntText(i) + [c]) == None
  {
    var s := IntText(i) + [c];
    IntTextNoSpaceEnds(i);
    StripUnchanged(s);
    NotGroupsLastChar(s);
    if |s| >= 2 {
      assert s[1..][|s| - 2] == c;
      NotGroupsLastChar(s[1..]);
    }
  }

  // ---------------------------------------------------------------- tokens

  /** The end of the word that starts at i: the first whitespace at or after i. */
  function WordEnd(s: string, i: nat): (e: nat)
    requires i <= |s|
    ensures i <= e <= |s|
    ensures i < |s| && !IsSpace(s[i]) ==> i < e
    decreases |s| - i
  {
    if i == |s| || IsSpace(s[i]) then i else WordEnd(s, i + 1)
  }

  /** Python's str.split() with no argument: the maximal runs of non-whitespace. */
  function Tokens(s: string): seq<string>
    decreases |s|
  {
    if s == [] then []
    else if IsSpace(s[0]) then Tokens(s[1..])
    else
      var e := WordEnd(s, 0);
      [s[..e]] + Tokens(s[e..])
  }

  /** A word a command line or a log line can carry as one token. */
  predicate IsWord(w: string) { w != [] && NoSpace(w) }

  /** Printable ASCII other than the blank. */
  predicate Graphic(s: string) { forall i :: 0 <= i < |s| ==> '!' <= s[i] <= '~' }

  lemma GraphicConcat(a: string, b: string)
    requires Graphic(a) && Graphic(b)
    ensures Graphic(a + b)
  {
  }

  lemma GraphicWord(s: string)
    requires s != [] && Graphic(s)
    ensures IsWord(s)
  {
  }

  lemma {:induction false} WordEndOfWord(w: string, rest: string, i: nat)
    requires NoSpace(w) && i <= |w|
    requires rest != [] && IsSpace(rest[0])
    ensures WordEnd(w + rest, i) == |w|
    decreases |w| - i
  {
    var s := w + rest;
    if i < |w| {
      assert s[i] == w[i];
      WordEndOfWord(w, rest, i + 1);
    } else {
      assert s[i] == rest[0];
    }
  }

  lemma TokensWordSpace(w: string, rest: string)
    requires IsWord(w)
    ensures Tokens(w + " " + rest) == [w] + Tokens(rest)
  {
    var s := w + " " + rest;
    assert s == w + (" " + rest);
    WordEndOfWord(w, " " + rest, 0);
    assert s[0] == w[0];
    assert s[..|w|] == w;
    var t := s[|w|..];
    assert t == " " + rest;
    assert t[1..] == rest;
  }

  lemma {:induction false} WordEndToEnd(w: string, i: nat)
    requires NoSpace(w) && i <= |w|
    ensures WordEnd(w, i) == |w|
    decreases |w| - i
  {
    if i < |w| { WordEndToEnd(w, i + 1); }
  }

  lemma TokensOfWord(w: string)
    requires IsWord(w)
    ensures Tokens(w) == [w]
  {
    WordEndToEnd(w, 0);
    assert w[..|w|] == w;
    assert w[|w|..] == [];
    assert Tokens(w) == [w[..|w|]] + Tokens(w[|w|..]);
  }

  lemma TokensSpaceFirst(rest: string)
    ensures Tokens(" " + rest) == Tokens(rest)
  {
    assert (" " + rest)[1..] == rest;
  }

  lemma IntTextZero()
    ensures IntText(0) == "0"
  {
  }

  /** An integer's decimal text is one word. */
  lemma IntTextIsWord(i: int)
    ensures IsWord(IntText(i))
  {
    var s := IntText(i);
    forall k | 0 <= k < |s| ensures !IsSpace(s[k]) {
      if i >= 0 || k > 0 {
        assert s[k] == NatText(if i < 0 then -i else i)[if i < 0 then k - 1 else k];
      }
    }
  }

  /** The words, each followed by one space (how C's printf("%s ", ...) loops write them). */
  function Spaced(ws: seq<string>): string
  {
    if ws == [] then [] else ws[0] + " " + Spaced(ws[1..])
  }

  /** The words separated by single spaces (Python's ' '.join). */
  function Join(ws: seq<string>): string
  {
    if ws == [] then [] else if |ws| == 1 then ws[0] else ws[0] + " " + Join(ws[1..])
  }

  lemma SpacedCons(ws: seq<string>, tail: string)
    requires ws != []
    ensures Spaced(ws) + tail == ws[0] + " " + (Spaced(ws[1..]) + tail)
  {
  }

  predicate AllWords(ws: seq<string>) { forall i :: 0 <= i < |ws| ==> IsWord(ws[i]) }

  /** Non-empty printable-ASCII strings are words. */
  lemma GraphicWords(ws: seq<string>)
    requires forall i :: 0 <= i < |ws| ==> ws[i] != [] && Graphic(ws[i])
    ensures AllWords(ws)
  {
    forall i | 0 <= i < |ws| ensures IsWord(ws[i]) {
      GraphicWord(ws[i]);
    }
  }

  lemma WordConcat(a: string, b: string)
    requires IsWord(a) && NoSpace(b)
    ensures IsWord(a + b)
  {
  }

  lemma AllWordsConcat(a: seq<string>, b: seq<string>)
    requires AllWords(a) && AllWords(b)
    ensures AllWords(a + b)
  {
  }

  lemma {:induction false} TokensSpaced(ws: seq<string>, tail: string)
    requires AllWords(ws)
    ensures Tokens(Spaced(ws) + tail) == ws + Tokens(tail)
    decreases |ws|
  {
    if ws == [] {
      assert Spaced(ws) + tail == tail;
    } else {
      AllWordsTail(ws);
      TokensSpaced(ws[1..], tail);
      TokensSpacedStep(ws, tail);
    }
  }

  lemma AllWordsTail(ws: seq<string>)
    requires AllWords(ws) && ws != []
    ensures IsWord(ws[0]) && AllWords(ws[1..])
  {
    var more := ws[1..];
    forall i | 0 <= i < |more| ensures IsWord(more[i]) { assert more[i] == ws[i + 1]; }
  }

  lemma TokensSpacedStep(ws: seq<string>, tail: string)
    requires ws != [] && IsWord(ws[0])
    requires Tokens(Spaced(ws[1..]) + tail) == ws[1..] + Tokens(tail)
    ensures Tokens(Spaced(ws) + tail) == ws + Tokens(tail)
  {
    TokensSpacedUnfold(ws, tail);
    TokensWordThen(ws[0], Spaced(ws[1..]) + tail, ws[1..], Tokens(tail));
    assert ws == [ws[0]] + ws[1..];
  }

  lemma TokensSpacedUnfold(ws: seq<string>, tail: string)
    requires ws != []
    ensures Tokens(Spaced(ws) + tail) == Tokens(ws[0] + " " + (Spaced(ws[1..]) + tail))
  {
    SpacedCons(ws, tail);
  }

  lemma TokensWordThen(w: string, rest: string, more: seq<string>, after: seq<string>)
    requires IsWord(w) && Tokens(rest) == more + after
    ensures Tokens(w + " " + rest) == [w] + more + after
  {
    TokensWordSpace(w, rest);
  }

  /** str.split() undoes ' '.join on words. */
  lemma {:induction false} TokensJoin(ws: seq<string>)
    requires AllWords(ws)
    ensures Tokens(Join(ws)) == ws
    decreases |ws|
  {
    if |ws| == 1 {
      TokensOfWord(ws[0]);
    } else if |ws| > 1 {
      TokensJoin(ws[1..]);
      TokensWordSpace(ws[0], Join(ws[1..]));
      assert ws == [ws[0]] + ws[1..];
    }
  }

  /** A whitespace character splits a string into two independently tokenised halves. */
  lemma {:induction false} TokensSplit(a: string, c: char, b: string)
    requires IsSpace(c)
    ensures Tokens(a + [c] + b) == Tokens(a) + Tokens(b)
    decreases |a|
  {
    if a == [] {
      assert (a + [c] + b)[1..] == b;
    } else if IsSpace(a[0]) {
      TokensSplit(a[1..], c, b);
      TokensSplitSpace(a, c, b);
    } else {
      TokensSplit(a[WordEnd(a, 0)..], c, b);
      TokensSplitWord(a, c, b);
    }
  }

  /** Leading whitespace of a is dropped on both sides. */
  lemma TokensSplitSpace(a: string, c: char, b: string)
    requires IsSpace(c) && a != [] && IsSpace(a[0])
    requires Tokens(a[1..] + [c] + b) == Tokens(a[1..]) + Tokens(b)
    ensures Tokens(a + [c] + b) == Tokens(a) + Tokens(b)
  {
    assert (a + [c] + b)[1..] == a[1..] + [c] + b;
  }

  /** The first word of a stays the first word when whitespace and more text follow a. */
  lemma TokensSplitWord(a: string, c: char, b: string)
    requires IsSpace(c) && a != [] && !IsSpace(a[0])
    requires Tokens(a[WordEnd(a, 0)..] + [c] + b) == Tokens(a[WordEnd(a, 0)..]) + Tokens(b)
    ensures Tokens(a + [c] + b) == Tokens(a) + Tokens(b)
  {
    var e := WordEnd(a, 0);
    TokensFirstWord(a, c, b);
    assert Tokens(a) == [a[..e]] + Tokens(a[e..]);
    ConsAppend(a[..e], Tokens(a[e..]), Tokens(b));
  }

  lemma TokensFirstWord(a: string, c: char, b: string)
    requires IsSpace(c) && a != [] && !IsSpace(a[0])
    ensures Tokens(a + [c] + b) == [a[..WordEnd(a, 0)]] + Tokens(a[WordEnd(a, 0)..] + [c] + b)
  {
    var s, e := a + [c] + b, WordEnd(a, 0);
    WordEndPrefix(a, [c] + b, 0);
    assert s == a + ([c] + b);
    assert s[..e] == a[..e];
    assert s[e..] == a[e..] + [c] + b;
  }

  lemma ConsAppend<T>(x: T, p: seq<T>, q: seq<T>)
    ensures [x] + (p + q) == [x] + p + q
  {
  }

  /** The end of a word inside a is the same when a is followed by whitespace. */
  lemma {:induction false} WordEndPrefix(a: string, rest: string, i: nat)
    requires i <= |a| && rest != [] && IsSpace(rest[0])
    ensures WordEnd(a + rest, i) == WordEnd(a, i)
    decreases |a| - i
  {
    var s := a + rest;
    if i < |a| {
      assert s[i] == a[i];
      if !IsSpace(a[i]) { WordEndPrefix(a, rest, i + 1); }
    } else {
      assert s[i] == rest[0];
    }
  }

  /** Words joined by single spaces, then a space and more text. */
  lemma {:induction false} TokensJoinThen(ws: seq<string>, b: string)
    requires AllWords(ws)
    ensures Tokens(Join(ws) + " " + b) == ws + Tokens(b)
  {
    TokensSplit(Join(ws), ' ', b);
    TokensJoin(ws);
  }

  /** A trailing newline adds no token. */
  lemma TokensNewline(a: string)
    ensures Tokens(a + "\n") == Tokens(a)
  {
    assert a + "\n" == a + ['\n'] + [];
    TokensSplit(a, '\n', []);
  }

  /** A line of joined words, a space, spaced words and joined words reads back as all the words in order. */
  lemma TokensLine(head: seq<string>, args: seq<string>, tail: seq<string>)
    requires AllWords(head) && AllWords(args) && AllWords(tail)
    ensures Tokens(Join(head) + " " + Spaced(args) + (Join(tail) + "\n")) == head + args + tail
  {
    var last := Join(tail) + "\n";
    TokensNewline(Join(tail));
    TokensJoin(tail);
    TokensSpaced(args, last);
    TokensJoinThen(head, Spaced(args) + last);
    TokensRegroup(Join(head), Spaced(args), last, head, args, tail);
  }

  lemma TokensRegroup(a: string, m: string, z: string, ws: seq<string>, vs: seq<string>, us: seq<string>)
    requires Tokens(a + " " + (m + z)) == ws + Tokens(m + z)
    requires Tokens(m + z) == vs + Tokens(z)
    requires Tokens(z) == us
    ensures Tokens(a + " " + m + z) == ws + vs + us
  {
    assert a + " " + m + z == a + " " + (m + z);
  }

  /** Text between two single spaces is tokenised apart from what surrounds it. */
  lemma TokensAround(a: string, m: string, b: string)
    ensures Tokens(a + " " + m + " " + b) == Tokens(a) + Tokens(m) + Tokens(b)
  {
    assert a + " " + m + " " + b == a + [' '] + (m + [' '] + b);
    TokensSplit(a, ' ', m + [' '] + b);
    TokensSplit(m, ' ', b);
  }

  // ------------------------------------------------------------ substrings

  predicate OccursAt(s: string, t: string, i: int)
  {
    0 <= i <= |s| - |t| && s[i..i + |t|] == t
  }

  predicate Contains(s: string, t: string)
  {
    exists i | 0 <= i <= |s| - |t| :: OccursAt(s, t, i)
  }

  lemma ContainsMiddle(a: string, t: string, b: string)
    ensures Contains(a + t + b, t)
  {
    var s := a + t + b;
    assert s[|a|..|a| + |t|] == t;
    assert OccursAt(s, t, |a|);
  }
}

/**
 * The parts of the C library's `sscanf` that the parsers use, read over a
 * character buffer from a position on.  A position at or past the end of the
 * buffer reads as the terminating NUL, which is neither white space nor a digit,
 * so every conversion stops there.
 */
module Scanf {
  import opened Common

  /** The character at `i`, NUL past the end. */
  function At(s: string, i: nat): char
  {
    if i < |s| then s[i] else '\0'
  }

  /** `isspace`. */
  predicate IsSpace(c: char) { c == ' ' || c == '\t' || c == '\n' || c == '\r' || c == '\U{B}' || c == '\U{C}' }

  /** The first position at or after `i` that is not white space. */
  function SkipSpaces(s: string, i: nat): (j: nat)
    ensures i <= j && !IsSpace(At(s, j)) && forall k :: i <= k < j ==> IsSpace(At(s, k))
    decreases |s| - i
  {
    if i < |s| && IsSpace(s[i]) then SkipSpaces(s, i + 1) else i
  }

  function DigitValue(c: char): nat
  {
    if '0' <= c <= '9' then c as int - '0' as int
    else if 'a' <= c <= 'f' then c as int - 'a' as int + 10
    else if 'A' <= c <= 'F' then c as int - 'A' as int + 10
    else 16
  }

  predicate IsDigitIn(c: char, base: nat) { DigitValue(c) < base }

  /** The end of the run of digits of `base` that starts at `i`. */
  function DigitEnd(s: string, i: nat, base: nat): (e: nat)
    requires base <= 16
    ensures i <= e && (e == i || e <= |s|) && !IsDigitIn(At(s, e), base)
    ensures forall k :: i <= k < e ==> IsDigitIn(s[k], base)
    decreases |s| - i
  {
    if i < |s| && IsDigitIn(s[i], base) then DigitEnd(s, i + 1, base) else i
  }

  function Pow(b: nat, n: nat): nat
  {
    if n == 0 then 1 else b * Pow(b, n - 1)
  }

  /** One more digit below `base` after a value below `p` gives a value below `p * base`. */
  lemma DigitAppendBound(v: nat, d: nat, base: nat, p: nat)
    ensures v < p && d < base ==> v * base + d < p * base
  {
    if v < p && d < base {
      assert v * base <= (p - 1) * base;
    }
  }

  /** The value of the digits in `s[i..j]`, most significant first; `j - i` digits of `base` stay below `base^(j-i)`. */
  function DigitsValue(s: string, i: nat, j: nat, base: nat): (r: nat)
    requires i <= j <= |s|
    ensures (forall k :: i <= k < j ==> IsDigitIn(s[k], base)) ==> r < Pow(base, j - i)
    decreases j - i
  {
    if j == i then 0
    else
      DigitAppendBound(DigitsValue(s, i, j - 1, base), DigitValue(s[j - 1]), base, Pow(base, j - 1 - i));
      DigitsValue(s, i, j - 1, base) * base + DigitValue(s[j - 1])
  }

  datatype NumberFormat =
    | Decimal    // `%d`, `%u`
    | AutoBase   // `%i`: 0x… hexadecimal, 0… octal, otherwise decimal

  /** The base `%i` reads the unsigned part starting at `k` in. */
  function AutoBaseAt(s: string, k: nat): (base: nat)
    ensures base == 8 || base == 10 || base == 16
  {
    if At(s, k) == '0' && (At(s, k + 1) == 'x' || At(s, k + 1) == 'X') && IsDigitIn(At(s, k + 2), 16) then 16
    else if At(s, k) == '0' then 8
    else 10
  }

  /** A converted number and the position just after its last digit. */
  datatype Scanned = Scanned(value: int, end: nat)

  /**
   * One integer conversion from position `i`: white space is skipped, an optional
   * sign is read, then the longest run of digits in the format's base.  `None`
   * when there is no digit: the conversion fails and stores nothing.
   */
  function ScanInt(s: string, i: nat, fmt: NumberFormat): (r: Option<Scanned>)
    ensures r.Some? ==> i < r.value.end <= |s|
    ensures r.Some? ==> (r.value.value < 0 <==> At(s, SkipSpaces(s, i)) == '-' && r.value.value != 0)
  {
    var j := SkipSpaces(s, i);
    var neg := At(s, j) == '-';
    var k := if neg || At(s, j) == '+' then j + 1 else j;
    var base := if fmt == Decimal then 10 else AutoBaseAt(s, k);
    var d := if base == 16 then k + 2 else k;
    var e := DigitEnd(s, d, base);
    if e == d then None
    else
      var v := DigitsValue(s, d, e, base);
      Some(Scanned(if neg then 0 - v else v, e))
  }

  /** `%u` stores the converted number modulo 2^32 (a leading '-' negates it in unsigned arithmetic). */
  function Wrap32(v: int): (r: nat)
    ensures r < 0x1_0000_0000 && (0 <= v < 0x1_0000_0000 ==> r == v)
  {
    v % 0x1_0000_0000
  }

  /** The end of the run of non-space characters that starts at `i`. */
  function TokenEnd(s: string, i: nat): (e: nat)
    ensures i <= e && (e == i || e <= |s|)
    ensures forall k :: i <= k < e ==> !IsSpace(s[k]) && s[k] != '\0'
    decreases |s| - i
  {
    if i < |s| && !IsSpace(s[i]) && s[i] != '\0' then TokenEnd(s, i + 1) else i
  }

  /** `%s` from `i`: white space is skipped, then the word up to the next white space or NUL; `None` when there is none. */
  function ScanWord(s: string, i: nat): (r: Option<string>)
    ensures r.Some? ==> r.value != [] && forall k :: 0 <= k < |r.value| ==> !IsSpace(r.value[k])
  {
    var j := SkipSpaces(s, i);
    var e := TokenEnd(s, j);
    if e == j then None else Some(s[j..e])
  }

  /** `%d` of a non-negative number: its decimal digits, most significant first. */
  function DecimalString(n: nat): (s: string)
    ensures s != [] && forall k :: 0 <= k < |s| ==> '0' <= s[k] <= '9'
    ensures |s| > 1 ==> s[0] != '0'
  {
    if n < 10 then [('0' as int + n) as char] else DecimalString(n / 10) + [('0' as int + n % 10) as char]
  }

  /** `%d` of any number: a '-' before the digits of a negative one. */
  function SignedDecimal(v: int): (s: string)
    ensures s != [] && (v < 0 <==> s[0] == '-')
  {
    if v < 0 then "-" + DecimalString(-v) else DecimalString(v)
  }

  /** The digits of `DecimalString(n)`, found at `p`, have the value `n`. */
  lemma {:induction false} DecimalDigitsValue(s: string, p: nat, n: nat)
    requires p + |DecimalString(n)| <= |s| && s[p..p + |DecimalString(n)|] == DecimalString(n)
    ensures DigitsValue(s, p, p + |DecimalString(n)|, 10) == n
  {
    var d := DecimalString(n);
    var j := p + |d|;
    assert s[j - 1] == d[|d| - 1];
    if n >= 10 {
      var h := DecimalString(n / 10);
      assert d == h + [('0' as int + n % 10) as char];
      assert s[p..p + |h|] == s[p..j][..|h|];
      DecimalDigitsValue(s, p, n / 10);
    }
  }

  /** The digit run from `i` ends at the first character that is not a digit. */
  lemma {:induction false} DigitEndOfRun(s: string, i: nat, e: nat, base: nat)
    requires base <= 16 && i <= e <= |s| && !IsDigitIn(At(s, e), base)
    requires forall k :: i <= k < e ==> IsDigitIn(s[k], base)
    ensures DigitEnd(s, i, base) == e
    decreases e - i
  {
    if i < e {
      DigitEndOfRun(s, i + 1, e, base);
    }
  }

  /** The digits of `n` at `q`, followed by a non-digit: the digit run ends after them and has the value `n`. */
  lemma DecimalRunAt(s: string, q: nat, n: nat)
    requires q + |DecimalString(n)| <= |s| && s[q..q + |DecimalString(n)|] == DecimalString(n)
    requires !IsDigitIn(At(s, q + |DecimalString(n)|), 10)
    ensures DigitEnd(s, q, 10) == q + |DecimalString(n)|
    ensures DigitsValue(s, q, q + |DecimalString(n)|, 10) == n
  {
    var d := DecimalString(n);
    forall k | q <= k < q + |d| ensures IsDigitIn(s[k], 10) {
      assert s[k] == s[q..q + |d|][k - q];
    }
    DigitEndOfRun(s, q, q + |d|, 10);
    DecimalDigitsValue(s, q, n);
  }

  /** `%d` at the first digit of `n`'s text, followed by a non-digit: `n`, ending after the digits. */
  lemma ScanIntReadsUnsigned(s: string, p: nat, n: nat)
    requires p + |DecimalString(n)| <= |s| && s[p..p + |DecimalString(n)|] == DecimalString(n)
    requires !IsDigitIn(At(s, p + |DecimalString(n)|), 10)
    ensures ScanInt(s, p, Decimal) == Some(Scanned(n, p + |DecimalString(n)|))
  {
    DecimalRunAt(s, p, n);
    assert s[p] == DecimalString(n)[0];
    assert SkipSpaces(s, p) == p && At(s, p) != '-' && At(s, p) != '+';
  }

  /** `%d` at a '-' followed by the text of `n > 0` and a non-digit: `-n`, ending after the digits. */
  lemma ScanIntReadsNegative(s: string, p: nat, n: nat)
    requires n > 0 && p < |s| && s[p] == '-'
    requires p + 1 + |DecimalString(n)| <= |s| && s[p + 1..p + 1 + |DecimalString(n)|] == DecimalString(n)
    requires !IsDigitIn(At(s, p + 1 + |DecimalString(n)|), 10)
    ensures ScanInt(s, p, Decimal) == Some(Scanned(-(n as int), p + 1 + |DecimalString(n)|))
  {
    DecimalRunAt(s, p + 1, n);
    assert SkipSpaces(s, p) == p;
  }

  /**
   * `%d` reads back what `%d` writes: the text of `v` at `p`, followed by
   * anything but a digit, converts to `v` and ends just after its last digit.
   */
  lemma ScanIntReadsDecimal(s: string, p: nat, v: int)
    requires p + |SignedDecimal(v)| <= |s| && s[p..p + |SignedDecimal(v)|] == SignedDecimal(v)
    requires !IsDigitIn(At(s, p + |SignedDecimal(v)|), 10)
    ensures ScanInt(s, p, Decimal) == Some(Scanned(v, p + |SignedDecimal(v)|))
  {
    var t := SignedDecimal(v);
    if v < 0 {
      var d := DecimalString(-v);
      assert t == "-" + d;
      assert s[p] == t[0];
      assert s[p + 1..p + 1 + |d|] == s[p..p + |t|][1..];
      ScanIntReadsNegative(s, p, -v);
    } else {
      ScanIntReadsUnsigned(s, p, v);
    }
  }

  /** Printing a number with `%d` and scanning it back gives the number, whatever non-digit text follows. */
  lemma ScanIntRoundTrip(v: int, rest: string)
    requires rest == [] || !IsDigitIn(rest[0], 10)
    ensures ScanInt(SignedDecimal(v) + rest, 0, Decimal) == Some(Scanned(v, |SignedDecimal(v)|))
  {
    var s := SignedDecimal(v) + rest;
    assert s[0..|SignedDecimal(v)|] == SignedDecimal(v);
    ScanIntReadsDecimal(s, 0, v);
  }

  /** The word from `i` ends at the first white space or NUL. */
  lemma {:induction false} TokenEndOfRun(s: string, i: nat, e: nat)
    requires i <= e <= |s| && (e == |s| || IsSpace(s[e]) || s[e] == '\0')
    requires forall k :: i <= k < e ==> !IsSpace(s[k]) && s[k] != '\0'
    ensures TokenEnd(s, i) == e
    decreases e - i
  {
    if i < e {
      TokenEndOfRun(s, i + 1, e);
    }
  }

  /** `%s` at `p` reads a word without white space or NUL that is followed by white space, NUL or the end. */
  lemma ScanWordReads(s: string, p: nat, w: string)
    requires w != [] && forall k :: 0 <= k < |w| ==> !IsSpace(w[k]) && w[k] != '\0'
    requires p + |w| <= |s| && s[p..p + |w|] == w
    requires p + |w| == |s| || IsSpace(s[p + |w|]) || s[p + |w|] == '\0'
    ensures ScanWord(s, p) == Some(w)
  {
    assert s[p] == w[0];
    assert SkipSpaces(s, p) == p;
    forall k | p <= k < p + |w| ensures !IsSpace(s[k]) && s[k] != '\0' {
      assert s[k] == w[k - p];
    }
    TokenEndOfRun(s, p, p + |w|);
  }

  // Examples of the conversions, from their definitions.

  /** `%d` reads "010" as ten. */
  lemma DecimalIgnoresLeadingZero()
    ensures ScanInt("010", 0, Decimal) == Some(Scanned(10, 3))
  {
    assert SkipSpaces("010", 0) == 0;
    assert DigitEnd("010", 0, 10) == 3;
    assert DigitsValue("010", 0, 3, 10) == 10 by {
      assert DigitsValue("010", 0, 1, 10) == 0;
      assert DigitsValue("010", 0, 2, 10) == 1;
    }
  }

  /** `%i` reads "010" as octal eight. */
  lemma AutoBaseReadsOctal()
    ensures ScanInt("010", 0, AutoBase) == Some(Scanned(8, 3))
  {
    assert SkipSpaces("010", 0) == 0;
    assert AutoBaseAt("010", 0) == 8;
    assert DigitEnd("010", 0, 8) == 3;
    assert DigitsValue("010", 0, 3, 8) == 8 by {
      assert DigitsValue("010", 0, 1, 8) == 0;
      assert DigitsValue("010", 0, 2, 8) == 1;
    }
  }

  /** `%i` reads "0x1F" as hexadecimal 31. */
  lemma AutoBaseReadsHex()
    ensures ScanInt("0x1F", 0, AutoBase) == Some(Scanned(31, 4))
  {
    assert SkipSpaces("0x1F", 0) == 0;
    assert AutoBaseAt("0x1F", 0) == 16;
    assert DigitEnd("0x1F", 2, 16) == 4;
    assert DigitsValue("0x1F", 2, 4, 16) == 31 by {
      assert DigitsValue("0x1F", 2, 3, 16) == 1;
    }
  }

  /** A sign is read after white space. */
  lemma SignAfterSpace()
    ensures ScanInt(" -7", 0, Decimal) == Some(Scanned(-7, 3))
  {
    assert SkipSpaces(" -7", 0) == 1;
    assert DigitEnd(" -7", 2, 10) == 3;
    assert DigitsValue(" -7", 2, 3, 10) == 7;
  }

  /** Without a digit the conversion fails. */
  lemma NoDigitNoNumber()
    ensures ScanInt("x1", 0, Decimal) == None
  {
    assert SkipSpaces("x1", 0) == 0;
    assert DigitEnd("x1", 0, 10) == 0;
  }

  /** `%u` of "-1" is the largest 32-bit unsigned value. */
  lemma UnsignedWrapsNegative()
    ensures Wrap32(-1) == 0xFFFF_FFFF
  {
  }
}

/**
 * The text primitives the loaders are built from: the C locale's `isspace`,
 * the start/end trim loops, `std::getline` on a string stream, the
 * base-10 `std::stoul`/`std::stoi` conversions and decimal rendering of
 * numbers.
 */
module Text {
  import opened Wrappers

  /** `isspace` in the C locale: space, tab, newline, vertical tab, form feed, carriage return. */
  predicate IsSpace(c: char)
  {
    c == ' ' || ('\t' <= c <= '\r')
  }

  predicate IsDigit(c: char)
  {
    '0' <= c <= '9'
  }

  // ---------------------------------------------------------------- trimming

  /** Where the forward loop `while (start < size && isspace(s[start])) ++start` stops. */
  function SkipSpaces(s: string, i: nat): (k: nat)
    requires i <= |s|
    ensures i <= k <= |s|
    ensures forall j :: i <= j < k ==> IsSpace(s[j])
    ensures k < |s| ==> !IsSpace(s[k])
    decreases |s| - i
  {
    if i < |s| && IsSpace(s[i]) then SkipSpaces(s, i + 1) else i
  }

  /** Where the backward loop `while (end > start && isspace(s[end-1])) --end` stops. */
  function BackSpaces(s: string, start: nat, e: nat): (k: nat)
    requires start <= e <= |s|
    ensures start <= k <= e
    ensures forall j :: k <= j < e ==> IsSpace(s[j])
    ensures k > start ==> !IsSpace(s[k - 1])
    decreases e
  {
    if e > start && IsSpace(s[e - 1]) then BackSpaces(s, start, e - 1) else e
  }

  /** `s` without its leading and trailing white space. */
  function Trim(s: string): string
  {
    var a := SkipSpaces(s, 0);
    var b := BackSpaces(s, a, |s|);
    s[a..b]
  }

  /**
   * Trimming removes exactly the surrounding white space: the result is a
   * slice of `s` that neither starts nor ends with white space, and
   * everything cut off on either side is white space.
   */
  lemma TrimIsSlice(s: string)
    ensures var t := Trim(s);
      && (t == [] || (!IsSpace(t[0]) && !IsSpace(t[|t| - 1])))
      && exists a, b :: 0 <= a <= b <= |s| && t == s[a..b]
           && (forall j :: 0 <= j < a ==> IsSpace(s[j]))
           && (forall j :: b <= j < |s| ==> IsSpace(s[j]))
  {
    var a := SkipSpaces(s, 0);
    var b := BackSpaces(s, a, |s|);
    var t := s[a..b];
    if t != [] {
      assert t[0] == s[a];
      assert t[|t| - 1] == s[b - 1];
    }
  }

  /** A string without surrounding white space is its own trim, so trimming is idempotent. */
  lemma TrimIdempotent(s: string)
    ensures Trim(Trim(s)) == Trim(s)
  {
    var t := Trim(s);
    TrimIsSlice(s);
    var a := SkipSpaces(t, 0);
    assert a == 0 by {
      if t != [] { assert !IsSpace(t[0]); }
    }
    var b := BackSpaces(t, 0, |t|);
    assert b == |t| by {
      if t != [] { assert !IsSpace(t[|t| - 1]); }
    }
    assert t[0..|t|] == t;
  }

  predicate AllSpace(w: string)
  {
    forall k :: 0 <= k < |w| ==> IsSpace(w[k])
  }

  /** The forward loop stops at `k` when everything from `i` to `k` is white space and `s[k]` is not. */
  lemma {:induction false} SkipSpacesStops(s: string, i: nat, k: nat)
    requires i <= k <= |s|
    requires forall j :: i <= j < k ==> IsSpace(s[j])
    requires k < |s| ==> !IsSpace(s[k])
    ensures SkipSpaces(s, i) == k
    decreases k - i
  {
    if i < k {
      SkipSpacesStops(s, i + 1, k);
    }
  }

  /** The backward loop stops at `k` when everything from `k` to `e` is white space and `s[k - 1]` is not. */
  lemma {:induction false} BackSpacesStops(s: string, start: nat, e: nat, k: nat)
    requires start <= k <= e <= |s|
    requires forall j :: k <= j < e ==> IsSpace(s[j])
    requires k > start ==> !IsSpace(s[k - 1])
    ensures BackSpaces(s, start, e) == k
    decreases e
  {
    if k < e {
      BackSpacesStops(s, start, e - 1, k);
    }
  }

  /** Trimming strips exactly the white space around a word that neither starts nor ends with white space. */
  lemma TrimPadded(w1: string, t: string, w2: string)
    requires AllSpace(w1) && AllSpace(w2)
    requires t == [] || (!IsSpace(t[0]) && !IsSpace(t[|t| - 1]))
    ensures Trim(w1 + t + w2) == t
  {
    var s := w1 + t + w2;
    if t == [] {
      forall k | 0 <= k < |s|
        ensures IsSpace(s[k])
      {
        if k < |w1| { assert s[k] == w1[k]; } else { assert s[k] == w2[k - |w1|]; }
      }
      SkipSpacesStops(s, 0, |s|);
    } else {
      var e := |w1| + |t|;
      forall k | 0 <= k < |w1|
        ensures IsSpace(s[k])
      {
        assert s[k] == w1[k];
      }
      assert s[|w1|] == t[0];
      SkipSpacesStops(s, 0, |w1|);
      forall k | e <= k < |s|
        ensures IsSpace(s[k])
      {
        assert s[k] == w2[k - e];
      }
      assert s[e - 1] == t[|t| - 1];
      BackSpacesStops(s, |w1|, |s|, e);
      assert s[|w1|..e] == t;
    }
  }

  /** The index loops of the loaders' trim code. */
  method TrimLoop(s: string) returns (t: string)
    ensures t == Trim(s)
  {
    var start := 0;
    while start < |s| && IsSpace(s[start])
      invariant 0 <= start <= |s|
      invariant SkipSpaces(s, start) == SkipSpaces(s, 0)
    {
      start := start + 1;
    }
    var end := |s|;
    while end > start && IsSpace(s[end - 1])
      invariant start <= end <= |s|
      invariant BackSpaces(s, start, end) == BackSpaces(s, start, |s|)
    {
      end := end - 1;
    }
    t := s[start..end];
  }

  // --------------------------------------------------- std::getline on a string stream

  /** A string stream's read position and whether it has hit end of input. */
  datatype Cursor = Cursor(pos: nat, eof: bool)

  /** The outcome of one `std::getline`: success, the string variable's new value, the stream after. */
  datatype Got = Got(ok: bool, field: string, next: Cursor)

  /** The first index at or after `i` holding `d`, or `|s|`. */
  function FindFrom(s: string, i: nat, d: char): (j: nat)
    requires i <= |s|
    ensures i <= j <= |s|
    decreases |s| - i
  {
    if i < |s| && s[i] != d then FindFrom(s, i + 1, d) else i
  }

  /** The search finds the first delimiter: none before it, and it is one unless it is the end. */
  lemma {:induction false} FindFromFinds(s: string, i: nat, d: char)
    requires i <= |s|
    ensures forall k :: i <= k < FindFrom(s, i, d) ==> s[k] != d
    ensures FindFrom(s, i, d) < |s| ==> s[FindFrom(s, i, d)] == d
    decreases |s| - i
  {
    if i < |s| && s[i] != d {
      FindFromFinds(s, i + 1, d);
    }
  }

  /**
   * `std::getline(stream, field, delim)`.  A stream already at end of input
   * fails without touching `field` (whose old value is `prev`).  Otherwise the
   * field is erased and filled up to the delimiter, which is consumed; running
   * into the end of input sets end-of-input, and fails if nothing at all was
   * extracted.
   */
  function Getline(s: string, c: Cursor, delim: char, prev: string): (g: Got)
    requires c.pos <= |s|
    ensures g.next.pos <= |s| && c.pos <= g.next.pos
  {
    if c.eof then Got(false, prev, c)
    else
      var j := FindFrom(s, c.pos, delim);
      if j < |s| then Got(true, s[c.pos..j], Cursor(j + 1, false))
      else Got(c.pos < |s|, s[c.pos..], Cursor(|s|, true))
  }

  /**
   * What one read does: on a stream at end of input it changes nothing;
   * otherwise a successful read returns text free of the delimiter and
   * consumes it together with the delimiter (when one was found), and a
   * failed read is one that found the input used up.
   */
  lemma GetlineReads(s: string, c: Cursor, delim: char, prev: string)
    requires c.pos <= |s|
    ensures var g := Getline(s, c, delim, prev);
      && (c.eof ==> g == Got(false, prev, c))
      && (!c.eof && g.ok ==> delim !in g.field && c.pos < g.next.pos)
      && (!c.eof && g.ok ==> s[c.pos..] == g.field + (if g.next.eof then [] else [delim]) + s[g.next.pos..])
      && (!c.eof && !g.ok ==> c.pos == |s| && g.field == "" && g.next.eof)
  {
    if !c.eof {
      var j := FindFrom(s, c.pos, delim);
      FindFromFinds(s, c.pos, delim);
      if j < |s| {
        assert s[c.pos..] == s[c.pos..j] + [delim] + s[j + 1..];
      }
    }
  }

  /** The search stops at `j` when nothing from `i` to `j` is the delimiter and `s[j]` is, or `j` is the end. */
  lemma {:induction false} FindFromStops(s: string, i: nat, d: char, j: nat)
    requires i <= j <= |s|
    requires forall k :: i <= k < j ==> s[k] != d
    requires j < |s| ==> s[j] == d
    ensures FindFrom(s, i, d) == j
    decreases j - i
  {
    if i < j {
      FindFromStops(s, i + 1, d, j);
    }
  }

  /** `std::getline` stops at the first delimiter: a field free of it, followed by the delimiter, is read whole. */
  lemma GetlineField(s: string, pos: nat, d: char, f: string, prev: string)
    requires pos + |f| < |s| && s[pos..pos + |f|] == f && s[pos + |f|] == d && d !in f
    ensures Getline(s, Cursor(pos, false), d, prev) == Got(true, f, Cursor(pos + |f| + 1, false))
  {
    forall k | pos <= k < pos + |f|
      ensures s[k] != d
    {
      assert s[k] == f[k - pos];
    }
    FindFromStops(s, pos, d, pos + |f|);
  }

  /** With no delimiter left, `std::getline` reads the rest of the input and hits its end. */
  lemma GetlineRest(s: string, pos: nat, d: char, prev: string)
    requires pos < |s| && d !in s[pos..]
    ensures Getline(s, Cursor(pos, false), d, prev) == Got(true, s[pos..], Cursor(|s|, true))
  {
    forall k | pos <= k < |s|
      ensures s[k] != d
    {
      assert s[k] == s[pos..][k - pos];
    }
    FindFromStops(s, pos, d, |s|);
  }

  /** At the end of the input but not yet flagged, `std::getline` extracts nothing, empties the field and fails. */
  lemma GetlineEnd(s: string, d: char, prev: string)
    ensures Getline(s, Cursor(|s|, false), d, prev) == Got(false, "", Cursor(|s|, true))
  {
    FindFromStops(s, |s|, d, |s|);
  }

  // ----------------------------------------------------------- numbers

  /** The end of the run of digits starting at `i`. */
  function DigitRun(s: string, i: nat): (j: nat)
    requires i <= |s|
    ensures i <= j <= |s|
    ensures forall k :: i <= k < j ==> IsDigit(s[k])
    ensures j < |s| ==> !IsDigit(s[j])
    decreases |s| - i
  {
    if i < |s| && IsDigit(s[i]) then DigitRun(s, i + 1) else i
  }

  function DigitValue(c: char): nat
    requires IsDigit(c)
  {
    (c as int) - ('0' as int)
  }

  function DigitChar(d: nat): (c: char)
    requires d < 10
    ensures IsDigit(c) && DigitValue(c) == d
  {
    ('0' as int + d) as char
  }

  /** The value of a string of decimal digits. */
  function DecValue(s: string): nat
    requires forall k :: 0 <= k < |s| ==> IsDigit(s[k])
  {
    if s == [] then 0 else DecValue(s[..|s| - 1]) * 10 + DigitValue(s[|s| - 1])
  }

  /** The largest `unsigned long` (64 bits). */
  const ULongMax: nat := 0xFFFF_FFFF_FFFF_FFFF

  /** Where the digits start after an optional sign, and whether the sign is a minus. */
  function SignEnd(s: string): (i: nat)
    ensures i <= |s| && i <= 1
  {
    if |s| > 0 && (s[0] == '-' || s[0] == '+') then 1 else 0
  }

  predicate Negative(s: string)
  {
    |s| > 0 && s[0] == '-'
  }

  /**
   * `std::stoul(s)` in base 10 on text without leading white space: an
   * optional sign and at least one digit, the longest run of digits is
   * converted and anything after it is ignored; a value above 2^64 - 1 is an
   * error, and a minus sign negates modulo 2^64.
   */
  function Stoul(s: string): (r: Option<nat>)
    ensures r.Some? ==> r.value <= ULongMax
  {
    var start := SignEnd(s);
    var end := DigitRun(s, start);
    if end == start then None
    else
      var mag := DecValue(s[start..end]);
      if mag > ULongMax then None
      else if Negative(s) then Some((ULongMax + 1 - mag) % (ULongMax + 1))
      else Some(mag)
  }

  /**
   * `std::stoi(s)` in base 10 on text without leading white space: an optional
   * sign and at least one digit, trailing text ignored, and a value outside
   * the 32-bit `int` range an error.
   */
  function Stoi(s: string): (r: Option<int>)
    ensures r.Some? ==> -0x8000_0000 <= r.value <= 0x7FFF_FFFF
  {
    var start := SignEnd(s);
    var end := DigitRun(s, start);
    if end == start then None
    else
      var mag: int := DecValue(s[start..end]);
      var v := if Negative(s) then -mag else mag;
      if v < -0x8000_0000 || v > 0x7FFF_FFFF then None else Some(v)
  }

  /** `static_cast<uint32_t>` of an `unsigned long`: the value modulo 2^32. */
  function ToUint32(v: nat): (r: nat)
    ensures r < 0x1_0000_0000
    ensures v < 0x1_0000_0000 ==> r == v
  {
    v % 0x1_0000_0000
  }

  /** Decimal rendering of a number, as `operator<<` writes it. */
  function NatToString(n: nat): (s: string)
    ensures |s| >= 1 && (forall k :: 0 <= k < |s| ==> IsDigit(s[k]))
    ensures |s| > 1 ==> s[0] != '0'
    decreases n
  {
    if n < 10 then [DigitChar(n)] else NatToString(n / 10) + [DigitChar(n % 10)]
  }

  /** Reading back the rendered digits gives the number. */
  lemma {:induction false} DecValueOfNatToString(n: nat)
    ensures DecValue(NatToString(n)) == n
  {
    if n >= 10 {
      var s := NatToString(n);
      DecValueOfNatToString(n / 10);
      assert s[..|s| - 1] == NatToString(n / 10);
    }
  }

  /** A run of digits extends to the end of an all-digit string. */
  lemma {:induction false} DigitRunOfDigits(s: string, i: nat)
    requires i <= |s|
    requires forall k :: 0 <= k < |s| ==> IsDigit(s[k])
    ensures DigitRun(s, i) == |s|
    decreases |s| - i
  {
    if i < |s| {
      DigitRunOfDigits(s, i + 1);
    }
  }

  /** The run of digits from `i` ends at `k` when everything before `k` is a digit and `s[k]` is not. */
  lemma {:induction false} DigitRunStops(s: string, i: nat, k: nat)
    requires i <= k <= |s|
    requires forall j :: i <= j < k ==> IsDigit(s[j])
    requires k < |s| ==> !IsDigit(s[k])
    ensures DigitRun(s, i) == k
    decreases k - i
  {
    if i < k {
      DigitRunStops(s, i + 1, k);
    }
  }

  /** After a prefix, the run of digits is exactly the given digits when a non-digit or the end follows. */
  lemma DigitsRun(pre: string, d: string, rest: string)
    requires forall k :: 0 <= k < |d| ==> IsDigit(d[k])
    requires rest == [] || !IsDigit(rest[0])
    ensures var s := pre + d + rest;
      && DigitRun(s, |pre|) == |pre| + |d|
      && s[|pre|..|pre| + |d|] == d
  {
    var s := pre + d + rest;
    var k := |pre|;
    MiddleOf(pre, d, rest);
    forall j | k <= j < k + |d|
      ensures IsDigit(s[j])
    {
      assert s[j] == d[j - k];
    }
    if k + |d| < |s| {
      assert s[k + |d|] == rest[0];
    }
    DigitRunStops(s, k, k + |d|);
  }

  /** The middle of three concatenated strings, by position. */
  lemma MiddleOf(pre: string, d: string, rest: string)
    ensures var s := pre + d + rest;
      && |s| == |pre| + |d| + |rest|
      && s[|pre|..|pre| + |d|] == d
      && (forall j :: |pre| <= j < |pre| + |d| ==> s[j] == d[j - |pre|])
      && (|rest| > 0 ==> s[|pre| + |d|] == rest[0])
  {
    var pd := pre + d;
    assert pd[|pre|..] == d;
  }

  /** `std::stoul` reads a non-empty run of digits, followed by a non-digit or nothing, as its value. */
  lemma StoulOfDigits(d: string, rest: string)
    requires |d| >= 1 && forall k :: 0 <= k < |d| ==> IsDigit(d[k])
    requires rest == [] || !IsDigit(rest[0])
    requires DecValue(d) <= ULongMax
    ensures Stoul(d + rest) == Some(DecValue(d))
  {
    DigitsRun([], d, rest);
    assert [] + d == d;
    assert (d + rest)[0] == d[0];
  }

  /**
   * `std::stoul` reads back what `operator<<` wrote, whatever follows it that
   * is not a digit.
   */
  lemma StoulOfNatToString(n: nat, rest: string)
    requires n <= ULongMax
    requires rest == [] || !IsDigit(rest[0])
    ensures Stoul(NatToString(n) + rest) == Some(n)
  {
    DecValueOfNatToString(n);
    StoulOfDigits(NatToString(n), rest);
  }

  /** Decimal rendering of an integer, with a minus sign when negative. */
  function IntToString(v: int): (s: string)
    ensures |s| >= 1
  {
    if v < 0 then "-" + NatToString(-v) else NatToString(v)
  }

  /** After an optional minus sign, the digits start right behind the sign and run to the end of `d`. */
  lemma SignedRun(sign: string, d: string, rest: string)
    requires sign == "" || sign == "-"
    requires |d| >= 1 && forall k :: 0 <= k < |d| ==> IsDigit(d[k])
    requires rest == [] || !IsDigit(rest[0])
    ensures var s := sign + d + rest;
      && SignEnd(s) == |sign|
      && (Negative(s) <==> sign == "-")
      && DigitRun(s, |sign|) == |sign| + |d|
      && s[|sign|..|sign| + |d|] == d
  {
    var s := sign + d + rest;
    MiddleOf(sign, d, rest);
    assert s[|sign|] == d[0];
    if sign == "-" {
      assert s[0] == '-';
    }
    DigitsRun(sign, d, rest);
  }

  /** `std::stoi` reads an optional minus sign and a non-empty run of digits as the signed value, when it fits. */
  lemma StoiOfDigits(sign: string, d: string, rest: string)
    requires sign == "" || sign == "-"
    requires |d| >= 1 && forall k :: 0 <= k < |d| ==> IsDigit(d[k])
    requires rest == [] || !IsDigit(rest[0])
    ensures var v: int := if sign == "-" then -(DecValue(d) as int) else DecValue(d);
      -0x8000_0000 <= v <= 0x7FFF_FFFF ==> Stoi(sign + d + rest) == Some(v)
  {
    SignedRun(sign, d, rest);
  }

  /** `std::stoi` reads back what `operator<<` wrote for a negative `int`. */
  lemma StoiOfNegative(v: int, rest: string)
    requires -0x8000_0000 <= v < 0
    requires rest == [] || !IsDigit(rest[0])
    ensures Stoi(IntToString(v) + rest) == Some(v)
  {
    var d := NatToString(-v);
    DecValueOfNatToString(-v);
    StoiOfDigits("-", d, rest);
  }

  /** `std::stoi` reads back what `operator<<` wrote for a non-negative `int`. */
  lemma StoiOfNonNegative(v: int, rest: string)
    requires 0 <= v <= 0x7FFF_FFFF
    requires rest == [] || !IsDigit(rest[0])
    ensures Stoi(IntToString(v) + rest) == Some(v)
  {
    var d := NatToString(v);
    DecValueOfNatToString(v);
    StoiOfDigits("", d, rest);
    assert "" + d == d;
  }

  /** `std::stoi` reads back what `operator<<` wrote for any 32-bit `int`. */
  lemma StoiOfIntToString(v: int, rest: string)
    requires -0x8000_0000 <= v <= 0x7FFF_FFFF
    requires rest == [] || !IsDigit(rest[0])
    ensures Stoi(IntToString(v) + rest) == Some(v)
  {
    if v < 0 {
      StoiOfNegative(v, rest);
    } else {
      StoiOfNonNegative(v, rest);
    }
  }
}

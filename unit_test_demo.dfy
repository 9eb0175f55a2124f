/**
 * The two classes of waf's cppunit demo (demos/unit_test/src): an
 * Accumulator that adds the integers it parses from text lines to a
 * 32-bit running total, and a HelloWorld that holds a message. The parse is
 * C's strtol with base 0; the total is a C++ int, so the sum is reduced to
 * 32 bits two's complement.
 */
module UnitTestDemo {
  import opened PyStrings
  import StringUtils

  // ---------------------------------------------------------------
  // strtol(data, 0, 0)
  // ---------------------------------------------------------------

  /** LONG_MAX and LONG_MIN of a 64-bit long. */
  const LongMax: int := 0x7fff_ffff_ffff_ffff
  const LongMin: int := -0x8000_0000_0000_0000

  /** The value of c as a digit of `base` (8, 10 or 16), or -1 when it is not one. */
  function DigitIn(c: char, base: nat): (d: int)
    ensures d == -1 || 0 <= d < base
  {
    var v :=
      if '0' <= c <= '9' then (c as int) - ('0' as int)
      else if 'a' <= c <= 'f' then (c as int) - ('a' as int) + 10
      else if 'A' <= c <= 'F' then (c as int) - ('A' as int) + 10
      else -1;
    if v < base then v else -1
  }

  /** The position after the run of digits of `base` that starts at i: how far strtol reads. */
  function DigitsEnd(s: string, i: nat, base: nat): (e: nat)
    requires i <= |s|
    ensures i <= e <= |s|
    decreases |s| - i
  {
    if i < |s| && DigitIn(s[i], base) >= 0 then DigitsEnd(s, i + 1, base) else i
  }

  /** v shifted one digit to the left in `base`, written case by case so that it stays linear. */
  function Shift(v: nat, base: nat): nat {
    if base == 8 then v * 8 else if base == 16 then v * 16 else v * 10
  }

  /** The value of the digits s[lo..hi] in `base` (8, 10 or 16). */
  function ValueOf(s: string, lo: nat, hi: nat, base: nat): nat
    requires lo <= hi <= |s|
    decreases hi - lo
  {
    if hi == lo then 0
    else
      var d := DigitIn(s[hi - 1], base);
      Shift(ValueOf(s, lo, hi - 1, base), base) + (if d < 0 then 0 else d)
  }

  /** The position after the leading white space (isspace in the "C" locale). */
  function SkipSpace(s: string, i: nat): (j: nat)
    requires i <= |s|
    ensures i <= j <= |s|
    decreases |s| - i
  {
    if i < |s| && StringUtils.IsCSpace(s[i]) then SkipSpace(s, i + 1) else i
  }

  /** Base 0 at position j: "0x" or "0X" followed by a hex digit selects 16, a leading '0' selects 8, anything else 10. */
  function BaseAt(s: string, j: nat): nat {
    if j + 2 < |s| && s[j] == '0' && (s[j + 1] == 'x' || s[j + 1] == 'X') && DigitIn(s[j + 2], 16) >= 0 then 16
    else if j < |s| && s[j] == '0' then 8
    else 10
  }

  /** The parsed value clamped to long, as strtol does on overflow. */
  function Saturate(negative: bool, magnitude: nat): (v: int)
    ensures LongMin <= v <= LongMax
  {
    if negative then (if magnitude > -LongMin then LongMin else -(magnitude as int))
    else (if magnitude > LongMax then LongMax else magnitude)
  }

  /** The unsigned value strtol reads at position j, after any sign: the "0x" prefix is skipped in base 16. */
  function Magnitude(s: string, j: nat): nat
    requires j <= |s|
  {
    var base := BaseAt(s, j);
    var start := if base == 16 then j + 2 else j;
    ValueOf(s, start, DigitsEnd(s, start, base), base)
  }

  /** strtol(data, 0, 0): the longest number at the start of data after white space and an optional sign, 0 when there is none, saturated to the range of long. */
  function StrToL(data: string): int {
    var i := SkipSpace(data, 0);
    var signed := i < |data| && (data[i] == '-' || data[i] == '+');
    Saturate(signed && data[i] == '-', Magnitude(data, if signed then i + 1 else i))
  }

  /** strtol never leaves the range of long. */
  lemma StrToLInRange(data: string)
    ensures LongMin <= StrToL(data) <= LongMax
  {
  }

  lemma {:induction false} ValueOfDecimal(s: string, hi: nat)
    requires AllDigits(s) && hi <= |s|
    ensures ValueOf(s, 0, hi, 10) == DigitsValue(s[..hi])
    decreases hi
  {
    if hi > 0 {
      ValueOfDecimal(s, hi - 1);
      assert s[..hi][..hi - 1] == s[..hi - 1];
    }
  }

  lemma {:induction false} DigitsEndAll(s: string, i: nat, base: nat)
    requires i <= |s|
    requires forall k :: i <= k < |s| ==> DigitIn(s[k], base) >= 0
    ensures DigitsEnd(s, i, base) == |s|
    decreases |s| - i
  {
    if i < |s| {
      DigitsEndAll(s, i + 1, base);
    }
  }

  /** The magnitude of a string of decimal digits: its value, whether it is read as decimal or, for "0", as octal. */
  lemma MagnitudeOfDecimal(n: nat)
    ensures Magnitude(NatToStr(n), 0) == n
  {
    var s := NatToStr(n);
    NatToStrRoundTrip(n);
    if s[0] == '0' {
      assert s == "0";
    } else {
      DigitsEndAll(s, 0, 10);
      ValueOfDecimal(s, |s|);
      assert s[..|s|] == s;
    }
  }

  /** A string of digits without white space or sign reads back as its decimal value: str(n) round-trips through strtol. */
  lemma StrToLOfDecimal(n: nat)
    requires n <= LongMax
    ensures StrToL(NatToStr(n)) == n
  {
    var s := NatToStr(n);
    assert SkipSpace(s, 0) == 0 by {
      assert IsDigit(s[0]);
      assert !StringUtils.IsCSpace(s[0]);
    }
    MagnitudeOfDecimal(n);
  }

  /** A minus sign negates: "-" + str(n) reads back as -n. */
  lemma StrToLOfNegative(n: nat)
    requires n <= -LongMin
    ensures StrToL("-" + NatToStr(n)) == -(n as int)
  {
    var s := NatToStr(n);
    var t := "-" + s;
    assert SkipSpace(t, 0) == 0;
    MagnitudeOfDecimal(n);
    MagnitudeShiftAt(s, t, 0);
  }

  /** Reading after one extra leading character reads what the rest alone would give. */
  lemma MagnitudeShiftAt(s: string, t: string, j: nat)
    requires |t| == |s| + 1 && t[1..] == s && j <= |s|
    ensures Magnitude(t, j + 1) == Magnitude(s, j)
  {
    var base := BaseAt(s, j);
    assert BaseAt(t, j + 1) == base by {
      forall k | j <= k < |s| ensures t[k + 1] == s[k] {
        assert t[1..][k] == s[k];
      }
    }
    var start := if base == 16 then j + 2 else j;
    DigitsEndShift(s, t, start, base);
    ValueOfShift(s, t, start, DigitsEnd(s, start, base), base);
  }

  lemma {:induction false} SkipSpaceShift(s: string, t: string, i: nat)
    requires |t| == |s| + 1 && t[1..] == s && i <= |s|
    ensures SkipSpace(t, i + 1) == SkipSpace(s, i) + 1
    decreases |s| - i
  {
    if i < |s| {
      assert t[i + 1] == s[i];
      SkipSpaceShift(s, t, i + 1);
    }
  }

  lemma {:induction false} DigitsEndShift(s: string, t: string, i: nat, base: nat)
    requires |t| == |s| + 1 && t[1..] == s && i <= |s|
    ensures DigitsEnd(t, i + 1, base) == DigitsEnd(s, i, base) + 1
    decreases |s| - i
  {
    if i < |s| {
      assert t[i + 1] == s[i];
      DigitsEndShift(s, t, i + 1, base);
    }
  }

  lemma {:induction false} ValueOfShift(s: string, t: string, lo: nat, hi: nat, base: nat)
    requires |t| == |s| + 1 && t[1..] == s && lo <= hi <= |s|
    ensures ValueOf(t, lo + 1, hi + 1, base) == ValueOf(s, lo, hi, base)
    decreases hi - lo
  {
    if hi > lo {
      assert t[hi] == s[hi - 1];
      ValueOfShift(s, t, lo, hi - 1, base);
    }
  }

  /** Leading white space is skipped. */
  lemma {:induction false} StrToLSkipsSpace(c: char, data: string)
    requires StringUtils.IsCSpace(c)
    ensures StrToL([c] + data) == StrToL(data)
  {
    var t := [c] + data;
    assert t[1..] == data;
    SkipSpaceShift(data, t, 0);
    var i := SkipSpace(data, 0);
    var signed := i < |data| && (data[i] == '-' || data[i] == '+');
    if i < |data| {
      assert t[i + 1] == data[i];
    }
    var j := if signed then i + 1 else i;
    assert j <= |data|;
    MagnitudeShiftAt(data, t, j);
  }

  /** Text without any digit where a number should start reads as 0, as the empty line at the end of a test file does. */
  lemma StrToLOfEmpty()
    ensures StrToL("") == 0
  {
  }

  // ---------------------------------------------------------------
  // The classes
  // ---------------------------------------------------------------

  /** INT_MIN..INT_MAX. */
  predicate IsInt32(x: int) {
    -0x8000_0000 <= x < 0x8000_0000
  }

  /** Conversion of the sum to a 32-bit int: two's complement reduction modulo 2^32. */
  function Wrap32(x: int): (r: int)
    ensures IsInt32(r)
  {
    (x + 0x8000_0000) % 0x1_0000_0000 - 0x8000_0000
  }

  /** The reduction keeps the value modulo 2^32 and changes nothing already in range. */
  lemma Wrap32Congruent(x: int)
    ensures (Wrap32(x) - x) % 0x1_0000_0000 == 0
    ensures IsInt32(x) ==> Wrap32(x) == x
  {
  }

  /** The total after adding each parsed value in order to a starting total, reducing to int after every addition. */
  function Accumulated(total: int, values: seq<int>): (r: int)
    requires IsInt32(total)
    ensures IsInt32(r)
  {
    if values == [] then total
    else Wrap32(Accumulated(total, values[..|values| - 1]) + values[|values| - 1])
  }

  lemma {:induction false} AccumulatedSnoc(total: int, values: seq<int>, v: int)
    requires IsInt32(total)
    ensures Accumulated(total, values + [v]) == Wrap32(Accumulated(total, values) + v)
  {
    assert (values + [v])[..|values|] == values;
  }

  /** The values strtol reads from each line. */
  function Parsed(lines: seq<string>): (values: seq<int>)
    ensures |values| == |lines|
    ensures forall i :: 0 <= i < |lines| ==> values[i] == StrToL(lines[i])
  {
    seq(|lines|, i requires 0 <= i < |lines| => StrToL(lines[i]))
  }

  class Accumulator {
    /** m_total, a C++ int. */
    var total: int

    predicate Valid()
      reads this
    {
      IsInt32(total)
    }

    /** A new accumulator has total 0. */
    constructor()
      ensures Valid() && total == 0
    {
      total := 0;
    }

    /** accumulate: adds strtol(data, 0, 0) to the running total; the sum is reduced to the int range. */
    method Accumulate(data: string)
      requires Valid()
      modifies this
      ensures Valid()
      ensures total == Wrap32(old(total) + StrToL(data))
    {
      total := Wrap32(total + StrToL(data));
    }

    /** total() is const: it returns the running sum. */
    function Total(): int
      reads this
    {
      total
    }
  }

  /** The test loop: every line accumulated in order. */
  method AccumulateLines(acc: Accumulator, lines: seq<string>)
    requires acc.Valid()
    modifies acc
    ensures acc.Valid()
    ensures acc.Total() == Accumulated(old(acc.total), Parsed(lines))
  {
    ghost var start := acc.total;
    for k := 0 to |lines|
      invariant acc.Valid()
      invariant acc.total == Accumulated(start, Parsed(lines[..k]))
    {
      AccumulatedNext(start, lines, k);
      acc.Accumulate(lines[k]);
    }
    assert lines[..|lines|] == lines;
  }

  /** Accumulating line k after the lines before it gives the total of the first k + 1 lines. */
  lemma {:induction false} AccumulatedNext(start: int, lines: seq<string>, k: nat)
    requires IsInt32(start) && k < |lines|
    ensures Accumulated(start, Parsed(lines[..k + 1])) == Wrap32(Accumulated(start, Parsed(lines[..k])) + StrToL(lines[k]))
  {
    AccumulatedSnoc(start, Parsed(lines[..k]), StrToL(lines[k]));
    ParsedNext(lines, k);
  }

  /** Parsing one more line appends its value. */
  lemma {:induction false} ParsedNext(lines: seq<string>, k: nat)
    requires k < |lines|
    ensures Parsed(lines[..k + 1]) == Parsed(lines[..k]) + [StrToL(lines[k])]
  {
    var p := Parsed(lines[..k + 1]);
    var q := Parsed(lines[..k]) + [StrToL(lines[k])];
    assert |p| == |q|;
    forall i | 0 <= i < |p|
      ensures p[i] == q[i]
    {
      assert lines[..k + 1][i] == lines[i];
    }
  }

  /** The values 1 to 5 and a final 0 add up to 15 with no reduction. */
  lemma AccumulatedOfTestValues()
    ensures Accumulated(0, [1, 2, 3, 4, 5, 0]) == 15
  {
    var sums := [0, 1, 3, 6, 10, 15, 15];
    var v := [1, 2, 3, 4, 5, 0];
    for k := 0 to 6
      invariant Accumulated(0, v[..k]) == sums[k]
    {
      AccumulatedSnoc(0, v[..k], v[k]);
      assert v[..k + 1] == v[..k] + [v[k]];
      Wrap32Congruent(sums[k] + v[k]);
    }
    assert v[..6] == v;
  }

  /** The lines 1 to 5 of a test file followed by the empty line read at end of file sum to 1+2+3+4+5. */
  lemma SumOfTestLines(lines: seq<string>)
    requires |lines| == 6 && lines[5] == ""
    requires forall i :: 0 <= i < 5 ==> lines[i] == NatToStr(i + 1)
    ensures Accumulated(0, Parsed(lines)) == 1 + 2 + 3 + 4 + 5
  {
    forall i | 0 <= i < 5 ensures StrToL(lines[i]) == i + 1 {
      StrToLOfDecimal(i + 1);
    }
    assert Parsed(lines) == [1, 2, 3, 4, 5, 0];
    AccumulatedOfTestValues();
  }

  /** A single line "10" gives the total 10. */
  lemma FirstTestLine(line: string)
    requires line == NatToStr(10)
    ensures Accumulated(0, Parsed([line])) == 10
  {
    StrToLOfDecimal(10);
    assert Parsed([line]) == [10];
    assert [10][..0] == [];
  }

  class HelloWorld {
    /** m_message. */
    var message: string

    /** The default message is "Hello World". */
    constructor Default()
      ensures message == "Hello World"
    {
      message := "Hello World";
    }

    /** The constructor with a message stores it. */
    constructor(msg: string)
      ensures message == msg
    {
      message := msg;
    }

    /** message() is const: it returns the stored text. */
    function Message(): string
      reads this
    {
      message
    }

    /** setMessage replaces the message; message() then returns the new text. */
    method SetMessage(msg: string)
      modifies this
      ensures Message() == msg
    {
      message := msg;
    }
  }
}

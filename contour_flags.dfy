/**
 * Point flags of a glyph outline and the two in-place passes that normalise
 * them: pairing hidden on-curve points into double curves, and compacting
 * the hidden points away. Bit 0 marks an on-curve point and bit 1 a cubic
 * control point (the FreeType outline tags); BirdFont adds bit 2 for a
 * double curve and bit 3 for a hidden on-curve point.
 */
module ContourFlags {

  const QuadraticOffCurve: bv8 := 0
  const OnCurve: bv8 := 1
  const CubicCurve: bv8 := 2
  const DoubleCurve: bv8 := 4
  const HiddenCurve: bv8 := 8

  predicate IsDoubleCurve(f: bv8) { f & DoubleCurve != 0 }
  predicate IsCubic(f: bv8) { f & CubicCurve != 0 && f & OnCurve == 0 }
  predicate IsQuadratic(f: bv8) { f & CubicCurve == 0 && f & OnCurve == 0 }
  predicate IsLine(f: bv8) { f & OnCurve != 0 }
  predicate IsHidden(f: bv8) { f & HiddenCurve != 0 }

  /**
   * Every flag is exactly one of on-curve, cubic or quadratic; the double and
   * hidden marks on their own classify as quadratic.
   */
  lemma FlagClassesPartition(f: bv8)
    ensures IsLine(f) || IsCubic(f) || IsQuadratic(f)
    ensures !(IsLine(f) && IsCubic(f)) && !(IsLine(f) && IsQuadratic(f)) && !(IsCubic(f) && IsQuadratic(f))
    ensures IsQuadratic(DoubleCurve) && IsQuadratic(HiddenCurve) && IsQuadratic(QuadraticOffCurve)
    ensures IsLine(OnCurve) && IsCubic(CubicCurve)
  {
  }

  /** An outline point; FreeType's coordinates are integers. */
  datatype Point = Point(x: int, y: int)

  /**
   * half_way: prev + (current - prev) / 2 in floating point, stored back into
   * an integer coordinate, that is the midpoint truncated toward zero.
   */
  function HalfWay(prev: int, current: int): int
  {
    var s := prev + current;
    if s >= 0 then s / 2 else -((-s) / 2)
  }

  /**
   * The truncated midpoint lies between its two arguments, within one half
   * of the exact midpoint, is exact when the sum is even, and has the sign
   * of the sum.
   */
  lemma HalfWayBetween(prev: int, current: int)
    ensures var r := HalfWay(prev, current);
      (if prev <= current then prev else current) <= r <= (if prev <= current then current else prev) &&
      -1 <= prev + current - 2 * r <= 1 &&
      ((prev + current) % 2 == 0 ==> 2 * r == prev + current) &&
      (prev + current >= 0 ==> r >= 0) && (prev + current <= 0 ==> r <= 0)
  {
  }

  /** The midpoint does not depend on the order of its arguments. */
  lemma HalfWaySymmetric(a: int, b: int)
    ensures HalfWay(a, b) == HalfWay(b, a)
  {
  }

  function MidPoint(a: Point, b: Point): Point
  {
    Point(HalfWay(a.x, b.x), HalfWay(a.y, b.y))
  }

  /** A hidden flag that set_double_curves kept: exactly HIDDEN_CURVE between two DOUBLE_CURVE flags. */
  predicate KeptHidden(s: seq<bv8>, k: int)
  {
    1 <= k < |s| - 1 && s[k] == HiddenCurve && s[k - 1] == DoubleCurve && s[k + 1] == DoubleCurve
  }

  /** Between any two kept hidden flags below n there is an on-curve flag. */
  ghost predicate Alternates(cur: seq<bv8>, n: int)
  {
    forall k, m :: 1 <= k < m < n && KeptHidden(cur, k) && KeptHidden(cur, m) ==>
      exists q :: k < q < m && IsLine(cur[q])
  }

  /**
   * What holds after set_double_curves has handled indices 1..i-1 of `orig`,
   * giving `cur`: `doubleCurve` is its loop flag, `lastLine` the last index
   * below i holding an on-curve flag (-1 if none), `lastPair` the index of
   * the last pairing.
   */
  ghost predicate PassInvariant(orig: seq<bv8>, cur: seq<bv8>, length: int, i: int,
                                doubleCurve: bool, lastLine: int, lastPair: int)
  {
    |cur| == |orig| && 1 <= i <= length < |cur|
    && FlagsFrame(orig, cur, length, i)
    && HiddenKept(cur, i)
    && Spacing(cur, i, doubleCurve, lastLine, lastPair)
  }

  /** How the flags handled so far relate to the original ones. */
  ghost predicate FlagsFrame(orig: seq<bv8>, cur: seq<bv8>, length: int, i: int)
    requires |cur| == |orig| && 0 <= i < |cur|
  {
    && (forall k :: 0 <= k < |cur| && IsLine(orig[k]) ==> cur[k] == orig[k])
    && (forall k :: i + 1 <= k < |cur| ==> cur[k] == orig[k])
    && (forall k :: 0 <= k < |cur| && cur[k] != orig[k] ==>
          k <= length && !IsLine(orig[k]) &&
          (cur[k] == DoubleCurve ||
           (1 <= k < i && IsHidden(orig[k]) && (cur[k] == OnCurve || cur[k] == HiddenCurve))))
    && (forall k :: 0 <= k < |cur| && cur[k] == DoubleCurve && orig[k] != DoubleCurve ==> IsQuadratic(orig[k]))
    && (cur[i] != orig[i] ==> cur[i] == DoubleCurve)
  }

  /** Every hidden, not on-curve flag below i is a kept one. */
  ghost predicate HiddenKept(cur: seq<bv8>, i: int)
    requires i <= |cur|
  {
    forall k :: 1 <= k < i && IsHidden(cur[k]) && !IsLine(cur[k]) ==> KeptHidden(cur, k)
  }

  /** Where the last on-curve flag and the last pairing lie, and the alternation below i. */
  ghost predicate Spacing(cur: seq<bv8>, i: int, doubleCurve: bool, lastLine: int, lastPair: int)
    requires i <= |cur|
  {
    && -1 <= lastLine < i && (lastLine >= 0 ==> IsLine(cur[lastLine]))
    && (!doubleCurve ==> forall k :: 1 <= k < i && KeptHidden(cur, k) ==> k < lastLine)
    && (doubleCurve ==>
          1 <= lastPair < i && lastLine < lastPair &&
          forall k :: 1 <= k < i && KeptHidden(cur, k) ==> k <= lastPair)
    && Alternates(cur, i)
  }

  lemma PassStart(orig: seq<bv8>, length: int)
    requires 1 <= length < |orig|
    ensures PassInvariant(orig, orig, length, 1, false, -1, 0)
  {
  }

  /** An on-curve flag, or one that is neither on-curve nor hidden, is passed over. */
  lemma PassOver(orig: seq<bv8>, cur: seq<bv8>, length: int, i: int, dc: bool, lastLine: int, lastPair: int)
    requires PassInvariant(orig, cur, length, i, dc, lastLine, lastPair) && i < length
    requires !IsHidden(cur[i]) || IsLine(cur[i])
    ensures IsLine(cur[i]) ==> PassInvariant(orig, cur, length, i + 1, false, i, lastPair)
    ensures !IsLine(cur[i]) ==> PassInvariant(orig, cur, length, i + 1, dc, lastLine, lastPair)
  {
    forall k, m | 1 <= k < m < i + 1 && KeptHidden(cur, k) && KeptHidden(cur, m)
      ensures exists q :: k < q < m && IsLine(cur[q])
    {
      if m == i {
        assert false;
      }
    }
  }

  /** A hidden flag that is not paired becomes ON_CURVE. */
  lemma PassOnCurve(orig: seq<bv8>, cur: seq<bv8>, length: int, i: int, dc: bool, lastLine: int, lastPair: int)
    requires PassInvariant(orig, cur, length, i, dc, lastLine, lastPair) && i < length
    requires IsHidden(cur[i]) && !IsLine(cur[i])
    ensures PassInvariant(orig, cur[i := OnCurve], length, i + 1, false, i, lastPair)
  {
    var next := cur[i := OnCurve];
    forall k | 1 <= k < i + 1 && KeptHidden(next, k)
      ensures KeptHidden(cur, k) && k < i
    {
      assert k != i;
    }
    forall k, m | 1 <= k < m < i + 1 && KeptHidden(next, k) && KeptHidden(next, m)
      ensures exists q :: k < q < m && IsLine(next[q])
    {
      var q :| k < q < m && IsLine(cur[q]);
      assert next[q] == cur[q];
    }
  }

  /** A flag with the hidden bit is not DOUBLE_CURVE. */
  lemma HiddenIsNotDouble(f: bv8)
    requires IsHidden(f)
    ensures f != DoubleCurve
  {
  }

  /** The flag just before a hidden one is not a kept hidden flag. */
  lemma NotKeptBeforeHidden(cur: seq<bv8>, i: int)
    requires 1 <= i < |cur| && cur[i] != DoubleCurve
    ensures !KeptHidden(cur, i - 1)
  {
  }

  /** A hidden flag between two quadratic flags, with no pairing pending, is paired. */
  lemma PassPair(orig: seq<bv8>, cur: seq<bv8>, length: int, i: int, lastLine: int, lastPair: int)
    requires PassInvariant(orig, cur, length, i, false, lastLine, lastPair) && i < length
    requires IsHidden(cur[i]) && !IsLine(cur[i]) && cur[i] != DoubleCurve
    requires IsQuadratic(cur[i - 1]) && IsQuadratic(cur[i + 1])
    ensures PassInvariant(orig, cur[i - 1 := DoubleCurve][i := HiddenCurve][i + 1 := DoubleCurve],
                          length, i + 1, true, lastLine, i)
  {
    NotKeptBeforeHidden(cur, i);
    PairFrame(orig, cur, length, i);
    PairKept(cur, i);
    PairSpacing(cur, i, lastLine, lastPair);
  }

  /** Pairing at i keeps FlagsFrame. */
  lemma PairFrame(orig: seq<bv8>, cur: seq<bv8>, length: int, i: int)
    requires |cur| == |orig| && 1 <= i < length < |cur|
    requires FlagsFrame(orig, cur, length, i) && HiddenKept(cur, i) && !KeptHidden(cur, i - 1)
    requires IsHidden(cur[i]) && !IsLine(cur[i]) && cur[i] != DoubleCurve
    requires IsQuadratic(cur[i - 1]) && IsQuadratic(cur[i + 1])
    ensures FlagsFrame(orig, cur[i - 1 := DoubleCurve][i := HiddenCurve][i + 1 := DoubleCurve], length, i + 1)
  {
  }

  /** Pairing at i keeps HiddenKept. */
  lemma PairKept(cur: seq<bv8>, i: int)
    requires 1 <= i && i + 1 < |cur| && HiddenKept(cur, i)
    ensures HiddenKept(cur[i - 1 := DoubleCurve][i := HiddenCurve][i + 1 := DoubleCurve], i + 1)
  {
  }

  /** Pairing at i, with no pairing since the last on-curve flag, keeps the spacing. */
  lemma PairSpacing(cur: seq<bv8>, i: int, lastLine: int, lastPair: int)
    requires 1 <= i && i + 1 < |cur| && Spacing(cur, i, false, lastLine, lastPair)
    requires HiddenKept(cur, i) && !KeptHidden(cur, i - 1) && IsQuadratic(cur[i - 1])
    ensures Spacing(cur[i - 1 := DoubleCurve][i := HiddenCurve][i + 1 := DoubleCurve], i + 1, true, lastLine, i)
  {
    var next := cur[i - 1 := DoubleCurve][i := HiddenCurve][i + 1 := DoubleCurve];
    FlagClassesPartition(cur[i - 1]);
    forall k | 1 <= k < i && KeptHidden(next, k)
      ensures KeptHidden(cur, k)
    {
    }
    forall k, m | 1 <= k < m < i + 1 && KeptHidden(next, k) && KeptHidden(next, m)
      ensures exists q :: k < q < m && IsLine(next[q])
    {
      if m == i {
        assert k < lastLine && next[lastLine] == cur[lastLine];
      } else {
        var q :| k < q < m && IsLine(cur[q]);
        assert next[q] == cur[q];
      }
    }
  }

  /** set_double_curves' loop state besides its index: the flags, its flag, and two ghost indices. */
  datatype PassState = PassState(cur: seq<bv8>, doubleCurve: bool, lastLine: int, lastPair: int)

  /** One iteration of set_double_curves at index i. */
  ghost function PassStep(s: PassState, i: int): PassState
    requires 1 <= i && i + 1 < |s.cur|
  {
    var f := s.cur[i];
    if IsLine(f) then PassState(s.cur, false, i, s.lastPair)
    else if IsHidden(f) then
      if !s.doubleCurve && IsQuadratic(s.cur[i - 1]) && IsQuadratic(s.cur[i + 1]) then
        PassState(s.cur[i - 1 := DoubleCurve][i := HiddenCurve][i + 1 := DoubleCurve], true, s.lastLine, i)
      else
        PassState(s.cur[i := OnCurve], false, i, s.lastPair)
    else s
  }

  /** PassInvariant of a loop state. */
  ghost predicate PassHolds(orig: seq<bv8>, length: int, i: int, s: PassState)
  {
    PassInvariant(orig, s.cur, length, i, s.doubleCurve, s.lastLine, s.lastPair)
  }

  /** Every iteration keeps PassInvariant. */
  lemma PassStepKeeps(orig: seq<bv8>, length: int, i: int, s: PassState)
    requires PassHolds(orig, length, i, s) && i < length
    ensures PassHolds(orig, length, i + 1, PassStep(s, i))
  {
    var f := s.cur[i];
    if IsLine(f) || !IsHidden(f) {
      PassOver(orig, s.cur, length, i, s.doubleCurve, s.lastLine, s.lastPair);
    } else if !s.doubleCurve && IsQuadratic(s.cur[i - 1]) && IsQuadratic(s.cur[i + 1]) {
      HiddenIsNotDouble(f);
      PassPair(orig, s.cur, length, i, s.lastLine, s.lastPair);
    } else {
      PassOnCurve(orig, s.cur, length, i, s.doubleCurve, s.lastLine, s.lastPair);
    }
  }

  /** The body of set_double_curves' loop at index i. */
  method PassAt(flag: array<bv8>, i: int, doubleCurve: bool, ghost st: PassState) returns (dc: bool)
    requires 1 <= i && i + 1 < flag.Length
    requires st.cur == flag[..] && st.doubleCurve == doubleCurve
    modifies flag
    ensures flag[..] == PassStep(st, i).cur && dc == PassStep(st, i).doubleCurve
  {
    dc := doubleCurve;
    var f := flag[i];
    if IsLine(f) {
      dc := false;
    } else if IsHidden(f) {
      if !doubleCurve && IsQuadratic(flag[i - 1]) && IsQuadratic(flag[i + 1]) {
        flag[i - 1] := DoubleCurve;
        flag[i] := HiddenCurve;
        flag[i + 1] := DoubleCurve;
        dc := true;
      } else {
        flag[i] := OnCurve;
        dc := false;
      }
    }
  }

  /**
   * What set_double_curves promises about the flags it leaves (`cur`) given
   * those it found (`orig`): on-curve flags are kept; a changed flag was not
   * on-curve, lies at or below `length`, and became DOUBLE_CURVE (from a
   * quadratic flag) or, for a hidden one, ON_CURVE or HIDDEN_CURVE; every
   * hidden flag left is a kept HIDDEN_CURVE; kept hidden flags alternate with
   * on-curve ones.
   */
  ghost predicate DoubleCurvesSet(orig: seq<bv8>, cur: seq<bv8>, length: int)
  {
    && |cur| == |orig|
    && (forall k :: 0 <= k < |cur| && IsLine(orig[k]) ==> cur[k] == orig[k])
    && (forall k :: 0 <= k < |cur| && cur[k] != orig[k] ==>
          k <= length && !IsLine(orig[k]) &&
          (cur[k] == DoubleCurve ||
           (1 <= k < length && IsHidden(orig[k]) && (cur[k] == OnCurve || cur[k] == HiddenCurve))))
    && (forall k :: 0 <= k < |cur| && cur[k] == DoubleCurve && orig[k] != DoubleCurve ==> IsQuadratic(orig[k]))
    && (forall k :: 1 <= k < length && k < |cur| && IsHidden(cur[k]) && !IsLine(cur[k]) ==> KeptHidden(cur, k))
    && Alternates(cur, length)
  }

  /** What PassInvariant gives once the whole range has been walked. */
  lemma PassEnd(orig: seq<bv8>, length: int, i: int, s: PassState)
    requires PassHolds(orig, length, i, s) && i >= length
    ensures DoubleCurvesSet(orig, s.cur, length)
  {
  }

  /** Flags of length at most 1 are left alone, and that satisfies the promise. */
  lemma NothingToSet(orig: seq<bv8>, length: int)
    requires length <= 1
    ensures DoubleCurvesSet(orig, orig, length)
  {
  }

  /** set_double_curves never hides a flag that was visible. */
  lemma VisibleStaysVisible(orig: seq<bv8>, cur: seq<bv8>, length: int, k: int)
    requires DoubleCurvesSet(orig, cur, length)
    requires 0 <= k < |orig| && !IsHidden(orig[k])
    ensures !IsHidden(cur[k])
  {
    if cur[k] != orig[k] {
      assert cur[k] == DoubleCurve;
    }
  }

  /** set_double_curves' loop state once it has visited indices 1..i-1 of `orig`. */
  ghost function PassUpTo(orig: seq<bv8>, i: int): (s: PassState)
    requires 1 <= i < |orig|
    ensures |s.cur| == |orig|
    decreases i
  {
    if i == 1 then PassState(orig, false, -1, 0)
    else PassStep(PassUpTo(orig, i - 1), i - 1)
  }

  /** The flags set_double_curves leaves, given the flags `orig` it found. */
  ghost function DoubleCurves(orig: seq<bv8>, length: int): (cur: seq<bv8>)
    requires length <= 1 || length < |orig|
    ensures |cur| == |orig|
  {
    if length <= 1 then orig else PassUpTo(orig, length).cur
  }

  /** Every state the loop passes through satisfies PassInvariant. */
  lemma {:induction false} PassUpToHolds(orig: seq<bv8>, length: int, i: int)
    requires 1 <= i <= length < |orig|
    ensures PassHolds(orig, length, i, PassUpTo(orig, i))
    decreases i
  {
    if i == 1 {
      PassStart(orig, length);
    } else {
      PassUpToHolds(orig, length, i - 1);
      PassStepKeeps(orig, length, i - 1, PassUpTo(orig, i - 1));
    }
  }

  /** The flags set_double_curves leaves keep its promise. */
  lemma DoubleCurvesKeepPromise(orig: seq<bv8>, length: int)
    requires length <= 1 || length < |orig|
    ensures DoubleCurvesSet(orig, DoubleCurves(orig, length), length)
  {
    if length <= 1 {
      NothingToSet(orig, length);
    } else {
      PassUpToHolds(orig, length, length);
      PassEnd(orig, length, length, PassUpTo(orig, length));
    }
  }

  /**
   * Once the loop has handled index i, leaving there ON_CURVE or a pairing
   * still in force, no later iteration changes index i.
   */
  lemma {:induction false} SettledStays(orig: seq<bv8>, i: int, m: int)
    requires 1 <= i && i + 1 <= m < |orig|
    requires PassUpTo(orig, i + 1).cur[i] == OnCurve || PassUpTo(orig, i + 1).doubleCurve
    requires PassUpTo(orig, i + 1).doubleCurve ==> PassUpTo(orig, i + 1).cur[i + 1] == DoubleCurve
    ensures PassUpTo(orig, m).cur[i] == PassUpTo(orig, i + 1).cur[i]
    decreases m
  {
    if m > i + 1 {
      SettledStays(orig, i, m - 1);
    }
  }

  /**
   * A hidden, not on-curve flag that the loop reaches with quadratic
   * neighbours and no pairing since the last on-curve (or unpaired hidden)
   * flag ends as HIDDEN_CURVE between two DOUBLE_CURVE flags; any other
   * hidden, not on-curve flag ends as ON_CURVE.
   */
  lemma HiddenFlagOutcome(orig: seq<bv8>, length: int, i: int)
    requires 1 <= i < length < |orig|
    requires IsHidden(PassUpTo(orig, i).cur[i]) && !IsLine(PassUpTo(orig, i).cur[i])
    ensures var s := PassUpTo(orig, i);
      !s.doubleCurve && IsQuadratic(s.cur[i - 1]) && IsQuadratic(s.cur[i + 1]) ==>
        KeptHidden(DoubleCurves(orig, length), i)
    ensures var s := PassUpTo(orig, i);
      !(!s.doubleCurve && IsQuadratic(s.cur[i - 1]) && IsQuadratic(s.cur[i + 1])) ==>
        DoubleCurves(orig, length)[i] == OnCurve
  {
    SettledStays(orig, i, length);
    DoubleCurvesKeepPromise(orig, length);
  }

  /** A hidden flag between two quadratic ones is paired. */
  lemma PairingExample()
    ensures DoubleCurves([OnCurve, QuadraticOffCurve, HiddenCurve, QuadraticOffCurve, OnCurve], 4)
         == [OnCurve, DoubleCurve, HiddenCurve, DoubleCurve, OnCurve]
  {
    var orig := [OnCurve, QuadraticOffCurve, HiddenCurve, QuadraticOffCurve, OnCurve];
    assert PassUpTo(orig, 2) == PassUpTo(orig, 1);
    assert PassUpTo(orig, 3).cur == [OnCurve, DoubleCurve, HiddenCurve, DoubleCurve, OnCurve];
  }

  /** Of two eligible hidden flags with no on-curve flag between them, the second becomes ON_CURVE. */
  lemma AlternationExample()
    ensures DoubleCurves([OnCurve, QuadraticOffCurve, HiddenCurve, QuadraticOffCurve, HiddenCurve, QuadraticOffCurve, OnCurve], 6)
         == [OnCurve, DoubleCurve, HiddenCurve, DoubleCurve, OnCurve, QuadraticOffCurve, OnCurve]
  {
    var orig := [OnCurve, QuadraticOffCurve, HiddenCurve, QuadraticOffCurve, HiddenCurve, QuadraticOffCurve, OnCurve];
    assert PassUpTo(orig, 2) == PassUpTo(orig, 1);
    assert PassUpTo(orig, 3).cur == [OnCurve, DoubleCurve, HiddenCurve, DoubleCurve, HiddenCurve, QuadraticOffCurve, OnCurve];
    assert PassUpTo(orig, 4) == PassUpTo(orig, 3);
    assert PassUpTo(orig, 5).cur == [OnCurve, DoubleCurve, HiddenCurve, DoubleCurve, OnCurve, QuadraticOffCurve, OnCurve];
  }

  /**
   * set_double_curves: walks indices 1..length-1; a hidden, not on-curve flag
   * whose two neighbours are quadratic becomes HIDDEN_CURVE with DOUBLE_CURVE
   * neighbours, unless the previous such point was paired with no on-curve
   * point since, in which case (as when a neighbour is not quadratic) it
   * becomes ON_CURVE. The flag at index `length` is read and may be written,
   * so the buffer must be longer than `length`.
   */
  method SetDoubleCurves(flag: array<bv8>, length: int)
    requires length <= 1 || length < flag.Length
    modifies flag
    ensures flag[..] == DoubleCurves(old(flag[..]), length)
    ensures DoubleCurvesSet(old(flag[..]), flag[..], length)
  {
    DoubleCurvesKeepPromise(flag[..], length);
    if length <= 1 {
      return;
    }
    var doubleCurve := false;
    ghost var orig := flag[..];
    ghost var st := PassState(flag[..], false, -1, 0);
    var i := 1;
    while i < length
      invariant 1 <= i <= length
      invariant st.cur == flag[..] && orig == old(flag[..]) && st.doubleCurve == doubleCurve
      invariant st == PassUpTo(orig, i)
    {
      doubleCurve := PassAt(flag, i, doubleCurve, st);
      st := PassStep(st, i);
      i := i + 1;
    }
  }

  /** The flags remove_hidden_points keeps, in order. */
  function KeepFlags(flags: seq<bv8>): (kept: seq<bv8>)
    ensures |kept| <= |flags|
    ensures forall k :: 0 <= k < |kept| ==> !IsHidden(kept[k])
  {
    if flags == [] then []
    else
      var last := flags[|flags| - 1];
      KeepFlags(flags[..|flags| - 1]) + (if IsHidden(last) then [] else [last])
  }

  /** The points remove_hidden_points keeps: those whose flag is not hidden. */
  function KeepPoints(points: seq<Point>, flags: seq<bv8>): (kept: seq<Point>)
    requires |points| == |flags|
    ensures |kept| == |KeepFlags(flags)|
  {
    if flags == [] then []
    else
      var n := |flags| - 1;
      KeepPoints(points[..n], flags[..n]) + (if IsHidden(flags[n]) then [] else [points[n]])
  }

  /** Without hidden flags nothing is removed. */
  lemma {:induction false} KeepWithoutHidden(points: seq<Point>, flags: seq<bv8>)
    requires |points| == |flags|
    requires forall k :: 0 <= k < |flags| ==> !IsHidden(flags[k])
    ensures KeepFlags(flags) == flags
    ensures KeepPoints(points, flags) == points
  {
    if flags != [] {
      var n := |flags| - 1;
      KeepWithoutHidden(points[..n], flags[..n]);
      assert flags[..n] + [flags[n]] == flags;
      assert points[..n] + [points[n]] == points;
    }
  }

  /** Every kept flag, with its point, comes from some position of the input. */
  lemma {:induction false} KeptComeFromInput(points: seq<Point>, flags: seq<bv8>, k: int)
    requires |points| == |flags| && 0 <= k < |KeepFlags(flags)|
    ensures exists m :: 0 <= m < |flags| && KeepFlags(flags)[k] == flags[m] && KeepPoints(points, flags)[k] == points[m]
  {
    var n := |flags| - 1;
    if k < |KeepFlags(flags[..n])| {
      KeptComeFromInput(points[..n], flags[..n], k);
      var m :| 0 <= m < n && KeepFlags(flags[..n])[k] == flags[..n][m] && KeepPoints(points[..n], flags[..n])[k] == points[..n][m];
      assert KeepFlags(flags)[k] == flags[m] && KeepPoints(points, flags)[k] == points[m];
    } else {
      assert KeepFlags(flags)[k] == flags[n] && KeepPoints(points, flags)[k] == points[n];
    }
  }

  /**
   * The whole flag buffer remove_hidden_points leaves: the visible flags of
   * the first `length` entries moved to the front, entry l cleared when it
   * lies below `capacity`, the rest as it was.
   */
  ghost function RemovedFlags(fs: seq<bv8>, length: int, capacity: int): (r: seq<bv8>)
    requires 0 <= length <= |fs| && capacity <= |fs|
    ensures |r| == |fs|
  {
    var kept := KeepFlags(fs[..length]);
    var rest := kept + fs[|kept|..];
    if |kept| < capacity then rest[|kept| := 0] else rest
  }

  /** The whole point buffer remove_hidden_points leaves, as RemovedFlags. */
  ghost function RemovedPoints(ps: seq<Point>, fs: seq<bv8>, length: int, capacity: int): (r: seq<Point>)
    requires 0 <= length <= |ps| && length <= |fs| && capacity <= |ps|
    ensures |r| == |ps|
  {
    var kept := KeepPoints(ps[..length], fs[..length]);
    var rest := kept + ps[|kept|..];
    if |kept| < capacity then rest[|kept| := Point(0, 0)] else rest
  }

  /** The first entries remove_hidden_points leaves are the kept flags and points. */
  lemma RemovedPrefix(ps: seq<Point>, fs: seq<bv8>, length: int, capacity: int)
    requires 0 <= length <= |ps| && length <= |fs| && capacity <= |ps| && capacity <= |fs|
    ensures var l := |KeepFlags(fs[..length])|;
      RemovedFlags(fs, length, capacity)[..l] == KeepFlags(fs[..length]) &&
      RemovedPoints(ps, fs, length, capacity)[..l] == KeepPoints(ps[..length], fs[..length])
  {
  }

  /**
   * remove_hidden_points: moves the points and flags whose flag is not hidden
   * to the front, in order, and returns their number l. Its clearing loop
   * indexes with l rather than with its counter, so only position l is reset
   * (when l < capacity); everything above l is left as it was.
   */
  method RemoveHiddenPoints(points: array<Point>, flags: array<bv8>, length: int, capacity: int) returns (l: int)
    requires 0 <= length <= points.Length && length <= flags.Length
    requires capacity <= points.Length && capacity <= flags.Length
    requires points as object != flags as object
    modifies points, flags
    ensures l == |KeepFlags(old(flags[..length]))|
    ensures flags[..l] == KeepFlags(old(flags[..length]))
    ensures points[..l] == KeepPoints(old(points[..length]), old(flags[..length]))
    ensures l < capacity ==> points[l] == Point(0, 0) && flags[l] == 0
    ensures l >= capacity && l < points.Length ==> points[l] == old(points[l])
    ensures l >= capacity && l < flags.Length ==> flags[l] == old(flags[l])
    ensures forall k :: l < k < points.Length ==> points[k] == old(points[k])
    ensures forall k :: l < k < flags.Length ==> flags[k] == old(flags[k])
    ensures points[..] == RemovedPoints(old(points[..]), old(flags[..]), length, capacity)
    ensures flags[..] == RemovedFlags(old(flags[..]), length, capacity)
  {
    l := CompactVisible(points, flags, length);
    ghost var compactedPoints, compactedFlags := points[..], flags[..];
    var k := l;
    while k < capacity
      invariant l <= k
      invariant l >= capacity ==> k == l
      invariant forall m :: 0 <= m < points.Length && m != l ==> points[m] == compactedPoints[m]
      invariant forall m :: 0 <= m < flags.Length && m != l ==> flags[m] == compactedFlags[m]
      invariant k == l ==> points[..] == compactedPoints && flags[..] == compactedFlags
      invariant k > l ==> points[l] == Point(0, 0)
      invariant k > l ==> flags[l] == 0
    {
      points[l] := Point(0, 0);
      flags[l] := 0;
      k := k + 1;
    }
    assert points[..l] == compactedPoints[..l];
    assert flags[..l] == compactedFlags[..l];
    RemovedBuffers(old(points[..]), old(flags[..]), points[..], flags[..], length, capacity, l);
  }

  /** The entry-by-entry description of remove_hidden_points' result is RemovedPoints and RemovedFlags. */
  lemma RemovedBuffers(ps0: seq<Point>, fs0: seq<bv8>, ps: seq<Point>, fs: seq<bv8>, length: int, capacity: int, l: int)
    requires 0 <= length <= |ps0| && length <= |fs0| && capacity <= |ps0| && capacity <= |fs0|
    requires |ps| == |ps0| && |fs| == |fs0|
    requires l == |KeepFlags(fs0[..length])|
    requires fs[..l] == KeepFlags(fs0[..length]) && ps[..l] == KeepPoints(ps0[..length], fs0[..length])
    requires l < capacity ==> ps[l] == Point(0, 0) && fs[l] == 0
    requires l >= capacity && l < |ps| ==> ps[l] == ps0[l]
    requires l >= capacity && l < |fs| ==> fs[l] == fs0[l]
    requires forall k :: l < k < |ps| ==> ps[k] == ps0[k]
    requires forall k :: l < k < |fs| ==> fs[k] == fs0[k]
    ensures ps == RemovedPoints(ps0, fs0, length, capacity)
    ensures fs == RemovedFlags(fs0, length, capacity)
  {
    var rp := RemovedPoints(ps0, fs0, length, capacity);
    var rf := RemovedFlags(fs0, length, capacity);
    forall k | 0 <= k < |ps|
      ensures ps[k] == rp[k]
    {
      if k < l {
        assert ps[k] == ps[..l][k];
      }
    }
    forall k | 0 <= k < |fs|
      ensures fs[k] == rf[k]
    {
      if k < l {
        assert fs[k] == fs[..l][k];
      }
    }
  }

  /** The first loop of remove_hidden_points: the compaction itself. */
  method CompactVisible(points: array<Point>, flags: array<bv8>, length: int) returns (l: int)
    requires 0 <= length <= points.Length && length <= flags.Length
    requires points as object != flags as object
    modifies points, flags
    ensures l == |KeepFlags(old(flags[..length]))|
    ensures flags[..l] == KeepFlags(old(flags[..length]))
    ensures points[..l] == KeepPoints(old(points[..length]), old(flags[..length]))
    ensures forall m :: l <= m < points.Length ==> points[m] == old(points[m])
    ensures forall m :: l <= m < flags.Length ==> flags[m] == old(flags[m])
  {
    ghost var ps0, fs0 := points[..], flags[..];
    l := 0;
    var k := 0;
    while k < length
      invariant 0 <= l <= k <= length
      invariant Compacted(ps0, fs0, points[..], flags[..], k, l)
    {
      if !IsHidden(flags[k]) {
        CompactMove(ps0, fs0, points[..], flags[..], k, l);
        Write(points, flags, l, points[k], flags[k]);
        l := l + 1;
      } else {
        CompactSkip(ps0, fs0, points[..], flags[..], k, l);
      }
      k := k + 1;
    }
    CompactEnd(ps0, fs0, points[..], flags[..], k, l, length);
  }

  /**
   * The first k entries of ps0/fs0 compacted into the first l entries of
   * ps/fs, the rest from l on untouched.
   */
  ghost predicate Compacted(ps0: seq<Point>, fs0: seq<bv8>, ps: seq<Point>, fs: seq<bv8>, k: int, l: int)
  {
    && |ps| == |ps0| && |fs| == |fs0| && 0 <= l <= k <= |ps0| && k <= |fs0|
    && l == |KeepFlags(fs0[..k])|
    && fs[..l] == KeepFlags(fs0[..k])
    && ps[..l] == KeepPoints(ps0[..k], fs0[..k])
    && (forall m :: l <= m < |ps| ==> ps[m] == ps0[m])
    && (forall m :: l <= m < |fs| ==> fs[m] == fs0[m])
  }

  /** Moving a visible entry k down to l. */
  lemma CompactMove(ps0: seq<Point>, fs0: seq<bv8>, ps: seq<Point>, fs: seq<bv8>, k: int, l: int)
    requires Compacted(ps0, fs0, ps, fs, k, l) && k < |ps0| && k < |fs0| && !IsHidden(fs[k])
    ensures Compacted(ps0, fs0, ps[l := ps[k]], fs[l := fs[k]], k + 1, l + 1)
  {
    assert fs0[..k + 1][..k] == fs0[..k];
    assert ps0[..k + 1][..k] == ps0[..k];
    assert fs[l := fs[k]][..l + 1] == fs[..l] + [fs0[k]];
    assert ps[l := ps[k]][..l + 1] == ps[..l] + [ps0[k]];
  }

  /** Passing over a hidden entry k. */
  lemma CompactSkip(ps0: seq<Point>, fs0: seq<bv8>, ps: seq<Point>, fs: seq<bv8>, k: int, l: int)
    requires Compacted(ps0, fs0, ps, fs, k, l) && k < |ps0| && k < |fs0| && IsHidden(fs[k])
    ensures Compacted(ps0, fs0, ps, fs, k + 1, l)
  {
    assert fs0[..k + 1][..k] == fs0[..k];
    assert ps0[..k + 1][..k] == ps0[..k];
  }

  /** Once all `length` entries are visited, the compaction of their prefix is done. */
  lemma CompactEnd(ps0: seq<Point>, fs0: seq<bv8>, ps: seq<Point>, fs: seq<bv8>, k: int, l: int, length: int)
    requires Compacted(ps0, fs0, ps, fs, k, l) && k == length
    ensures l == |KeepFlags(fs0[..length])|
    ensures fs[..l] == KeepFlags(fs0[..length])
    ensures ps[..l] == KeepPoints(ps0[..length], fs0[..length])
    ensures forall m :: l <= m < |ps| ==> ps[m] == ps0[m]
    ensures forall m :: l <= m < |fs| ==> fs[m] == fs0[m]
  {
  }

  /** p[k] := point; f[k] := flag. */
  method Write(p: array<Point>, f: array<bv8>, k: int, point: Point, flag: bv8)
    requires 0 <= k < p.Length && k < f.Length && p as object != f as object
    modifies p, f
    ensures p[..] == old(p[..])[k := point] && f[..] == old(f[..])[k := flag]
  {
    p[k] := point;
    f[k] := flag;
  }
}

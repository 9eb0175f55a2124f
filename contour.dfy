/**
 * One closed contour of a TrueType/CFF glyph turned into BirdFont path data:
 * create_contour inserts hidden mid-points between consecutive quadratic
 * off-curve points, pairs them into double curves and drops the hidden ones;
 * get_bf_contour_data then walks the flags emitting S, L, Q, C and D segments.
 */
module Contour {
  import opened ContourFlags

  /** Every visible flag keeps its point through remove_hidden_points. */
  lemma {:induction false} VisibleIsKept(points: seq<Point>, flags: seq<bv8>, k: int)
    requires |points| == |flags| && 0 <= k < |flags| && !IsHidden(flags[k])
    ensures points[k] in KeepPoints(points, flags)
  {
    var n := |flags| - 1;
    if k < n {
      VisibleIsKept(points[..n], flags[..n], k);
    }
  }

  /**
   * points[m] sits, with a visible flag, at index pos[m] below j of the
   * buffers ps and fs, for every m whose pos[m] is not -1.
   */
  ghost predicate Placed(points: seq<Point>, ps: seq<Point>, fs: seq<bv8>, pos: seq<int>, j: int)
  {
    |pos| <= |points| &&
    forall m :: 0 <= m < |pos| && pos[m] >= 0 ==>
      pos[m] < j && pos[m] < |ps| && pos[m] < |fs| && ps[pos[m]] == points[m] && !IsHidden(fs[pos[m]])
  }

  /** Writing the buffers at j or above keeps what was placed below j. */
  lemma PlacedKept(points: seq<Point>, ps: seq<Point>, fs: seq<bv8>, ps': seq<Point>, fs': seq<bv8>,
                   pos: seq<int>, j: int, j': int)
    requires Placed(points, ps, fs, pos, j) && j <= j' && |ps'| == |ps| && |fs'| == |fs|
    requires forall k :: 0 <= k < j && k < |ps| ==> ps'[k] == ps[k]
    requires forall k :: 0 <= k < j && k < |fs| ==> fs'[k] == fs[k]
    ensures Placed(points, ps', fs', pos, j')
  {
  }

  /** Recording where points[m] was written. */
  lemma PlacedAdd(points: seq<Point>, ps: seq<Point>, fs: seq<bv8>, pos: seq<int>, j: int, m: int, at: int)
    requires Placed(points, ps, fs, pos, j) && 0 <= m < |pos|
    requires 0 <= at < j && at < |ps| && at < |fs| && ps[at] == points[m] && !IsHidden(fs[at])
    ensures Placed(points, ps, fs, pos[m := at], j)
  {
  }

  /** Pairing double curves keeps every placed point visible. */
  lemma PlacedPaired(points: seq<Point>, ps: seq<Point>, fs: seq<bv8>, fs': seq<bv8>, pos: seq<int>, j: int)
    requires Placed(points, ps, fs, pos, j) && DoubleCurvesSet(fs, fs', j)
    ensures Placed(points, ps, fs', pos, j)
  {
    forall m | 0 <= m < |pos| && pos[m] >= 0
      ensures !IsHidden(fs'[pos[m]])
    {
      VisibleStaysVisible(fs, fs', j, pos[m]);
    }
  }

  /** A placed point below j survives remove_hidden_points over the first j entries. */
  lemma PlacedSurvives(points: seq<Point>, ps: seq<Point>, fs: seq<bv8>, pos: seq<int>, j: int, m: int)
    requires Placed(points, ps, fs, pos, j) && j <= |ps| && j <= |fs|
    requires 0 <= m < |pos| && pos[m] >= 0
    ensures points[m] in KeepPoints(ps[..j], fs[..j])
  {
    VisibleIsKept(ps[..j], fs[..j], pos[m]);
  }

  /** n points at the origin: a freshly cleared point buffer. */
  function ZeroPoints(n: nat): (r: seq<Point>)
    ensures |r| == n && forall k :: 0 <= k < n ==> r[k] == Point(0, 0)
  {
    if n == 0 then [] else ZeroPoints(n - 1) + [Point(0, 0)]
  }

  /** n zero flags: a freshly cleared flag buffer. */
  function ZeroFlags(n: nat): (r: seq<bv8>)
    ensures |r| == n && forall k :: 0 <= k < n ==> r[k] == 0
  {
    if n == 0 then [] else ZeroFlags(n - 1) + [0]
  }

  /** The buffers create_contour leaves and the new length it reports. */
  datatype NewContour = NewContour(ps: seq<Point>, fs: seq<bv8>, length: int)

  /** The copying part of create_contour over freshly cleared buffers. */
  ghost function Copied(points: seq<Point>, flags: seq<bv8>, len: int): (s: CopyState)
    requires 0 < len < |points| && len < |flags|
    requires !(len == 1 && IsQuadratic(flags[0]))
    ensures CopyInvariant(points, flags, len, MidStart(flags, len), s) && s.i >= len
  {
    Inserted(points, flags, len, ZeroPoints(4 * len), ZeroFlags(4 * len))
  }

  /** The copying part and the ending of create_contour. */
  ghost function Closed(points: seq<Point>, flags: seq<bv8>, len: int): (e: Ending)
    requires 0 < len < |points| && len < |flags|
    requires !(len == 1 && IsQuadratic(flags[0]))
    ensures |e.ps| == 4 * len && |e.fs| == 4 * len && 1 <= e.j < 4 * len && (len >= 2 ==> e.j + 2 <= 4 * len)
  {
    var s := Copied(points, flags, len);
    CopyEnd(points, flags, len, MidStart(flags, len), s);
    Closing(points, flags, len, s.prevIsCurve, MidStart(flags, len), s.ps, s.fs, s.j)
  }

  /** Where the copying part and the ending put each input point, or -1. */
  ghost function ClosedPos(points: seq<Point>, flags: seq<bv8>, len: int): seq<int>
    requires 0 < len < |points| && len < |flags|
    requires !(len == 1 && IsQuadratic(flags[0]))
  {
    var s := Copied(points, flags, len);
    var e := Closed(points, flags, len);
    if e.at >= 0 && len < |s.pos| then s.pos[len := e.at] else s.pos
  }

  /**
   * Before the pairing pass, every input point is in the buffers with a
   * visible flag, below the fill level: points 1..len-1, point 0 unless it
   * is quadratic, and point len unless its own flag is hidden.
   */
  lemma ClosedPlacesInput(points: seq<Point>, flags: seq<bv8>, len: int)
    requires 0 < len < |points| && len < |flags|
    requires !(len == 1 && IsQuadratic(flags[0]))
    ensures var e, pos := Closed(points, flags, len), ClosedPos(points, flags, len);
      && |pos| == len + 1 && Placed(points, e.ps, e.fs, pos, e.j)
      && (forall m :: 0 <= m < len && (m > 0 || !IsQuadratic(flags[0])) ==> pos[m] >= 0)
      && (!IsHidden(flags[len]) ==> pos[len] >= 0)
  {
    var s := Copied(points, flags, len);
    var first := MidStart(flags, len);
    CopyEnd(points, flags, len, first, s);
    var e := Closed(points, flags, len);
    ClosingEndsAtStart(points, flags, len, s.prevIsCurve, first, s.ps, s.fs, s.j);
    ClosingPlacesLast(points, flags, len, s.prevIsCurve, first, s.ps, s.fs, s.j);
    ClosingKeepsPlaced(points, s.ps, s.fs, e.ps, e.fs, s.pos, s.j, e.j);
    if e.at >= 0 {
      PlacedAdd(points, e.ps, e.fs, s.pos, e.j, len, e.at);
    }
  }

  /**
   * create_contour as a function of its input: the copying part and the
   * ending over cleared buffers of 4·len entries, then set_double_curves and
   * remove_hidden_points over the `j` entries written.
   */
  ghost function Created(points: seq<Point>, flags: seq<bv8>, len: int): (c: NewContour)
    requires 0 <= len
    requires len > 0 ==> len < |points| && len < |flags|
    requires !(len == 1 && IsQuadratic(flags[0]))
    ensures |c.ps| == 4 * len && |c.fs| == 4 * len && 0 <= c.length <= |c.fs|
  {
    if len == 0 then NewContour([], [], 0)
    else
      var e := Closed(points, flags, len);
      var paired := DoubleCurves(e.fs, e.j);
      NewContour(RemovedPoints(e.ps, paired, e.j, 2 * len), RemovedFlags(paired, e.j, 2 * len),
                 |KeepFlags(paired[..e.j])|)
  }

  /**
   * create_contour for the `len + 1` points of one contour (the caller
   * passes the index of its last point as the length). The new buffers hold
   * 4·len entries, cleared. A quadratic point that follows another gets a
   * HIDDEN_CURVE mid-point in front of it; when the first two points are
   * quadratic the contour starts at their mid-point instead, and the last
   * point is joined back to the first by one of six endings.
   * set_double_curves and remove_hidden_points then leave `newLength`
   * visible points.
   */
  method CreateContour(points: seq<Point>, flags: seq<bv8>, len: int)
      returns (p: array<Point>, f: array<bv8>, newLength: int)
    requires 0 <= len
    requires len > 0 ==> len < |points| && len < |flags|
    requires !(len == 1 && IsQuadratic(flags[0]))
    ensures fresh(p) && fresh(f)
    ensures var c := Created(points, flags, len); p[..] == c.ps && f[..] == c.fs && newLength == c.length
  {
    p := new Point[4 * len](_ => Point(0, 0));
    f := new bv8[4 * len](_ => 0);
    if len == 0 {
      return p, f, 0;
    }
    assert p[..] == ZeroPoints(4 * len);
    assert f[..] == ZeroFlags(4 * len);
    var j, prevIsCurve, firstIsCurve, pos := InsertMidPoints(points, flags, len, p, f);
    j, pos := CloseContour(points, flags, len, p, f, j, prevIsCurve, firstIsCurve, pos);
    SetDoubleCurves(f, j);
    newLength := RemoveHiddenPoints(p, f, j, 2 * len);
  }

  /**
   * The contour create_contour builds keeps its input: at least one point,
   * no hidden flag among the first `length` entries, every input point
   * among the first `length` points (the first only when it is not
   * quadratic, the last only when its flag is not hidden), and room for the
   * two entries the walk may look past the end.
   */
  lemma CreatedKeepsInput(points: seq<Point>, flags: seq<bv8>, len: int)
    requires 0 < len < |points| && len < |flags|
    requires !(len == 1 && IsQuadratic(flags[0]))
    ensures var c := Created(points, flags, len);
      && 1 <= c.length < 4 * len && (len >= 2 ==> c.length + 2 <= 4 * len)
      && (forall k :: 0 <= k < c.length ==> !IsHidden(c.fs[k]))
      && (forall m :: 0 <= m < len && (m > 0 || !IsQuadratic(flags[0])) ==> points[m] in c.ps[..c.length])
      && (!IsHidden(flags[len]) ==> points[len] in c.ps[..c.length])
  {
    var e, pos := Closed(points, flags, len), ClosedPos(points, flags, len);
    ClosedPlacesInput(points, flags, len);
    var paired := DoubleCurves(e.fs, e.j);
    DoubleCurvesKeepPromise(e.fs, e.j);
    RemovedPrefix(e.ps, paired, e.j, 2 * len);
    var c := Created(points, flags, len);
    CreatedKeepsPoints(points, len, e.ps, e.fs, paired, pos, e.j, c.length, c.fs, c.ps);
    var m := if IsQuadratic(flags[0]) then 1 else 0;
    assert points[m] in c.ps[..c.length];
  }

  /**
   * What remove_hidden_points leaves after set_double_curves: no hidden flag
   * among the first newLength entries, and every point placed before the
   * pairing among the first newLength points.
   */
  lemma CreatedKeepsPoints(points: seq<Point>, len: int, ps: seq<Point>, fs: seq<bv8>, paired: seq<bv8>,
                           pos: seq<int>, j: int, newLength: int, fs': seq<bv8>, ps': seq<Point>)
    requires 0 < len && |ps| == 4 * len && |fs| == 4 * len && 1 <= j < 4 * len
    requires |pos| == len + 1 && Placed(points, ps, fs, pos, j) && DoubleCurvesSet(fs, paired, j)
    requires newLength == |KeepFlags(paired[..j])| && |ps'| == |ps| && |fs'| == |fs|
    requires fs'[..newLength] == KeepFlags(paired[..j]) && ps'[..newLength] == KeepPoints(ps[..j], paired[..j])
    ensures forall k :: 0 <= k < newLength ==> !IsHidden(fs'[k])
    ensures forall m :: 0 <= m <= len && pos[m] >= 0 ==> points[m] in ps'[..newLength]
  {
    PlacedPaired(points, ps, fs, paired, pos, j);
    assert forall k :: 0 <= k < newLength ==> fs'[k] == KeepFlags(paired[..j])[k];
    forall m | 0 <= m <= len && pos[m] >= 0
      ensures points[m] in ps'[..newLength]
    {
      PlacedSurvives(points, ps, paired, pos, j, m);
    }
  }

  /**
   * The first part of create_contour: the start at the mid-point of two
   * leading quadratic points, then points 0..len-1 copied with a hidden
   * mid-point between consecutive quadratic ones. A leading quadratic point
   * that does not start the contour is skipped here and taken up when the
   * contour is closed. Returns the fill level j, prev_is_curve and
   * first_is_curve.
   */
  method InsertMidPoints(points: seq<Point>, flags: seq<bv8>, len: int, p: array<Point>, f: array<bv8>)
      returns (j: int, prevIsCurve: bool, firstIsCurve: bool, ghost pos: seq<int>)
    requires 0 < len < |points| && len < |flags|
    requires !(len == 1 && IsQuadratic(flags[0]))
    requires p.Length == 4 * len && f.Length == 4 * len && p as object != f as object
    modifies p, f
    ensures var r := Inserted(points, flags, len, old(p[..]), old(f[..]));
      p[..] == r.ps && f[..] == r.fs && j == r.j && prevIsCurve == r.prevIsCurve && pos == r.pos
    ensures firstIsCurve == MidStart(flags, len)
    ensures |pos| == len + 1 && Placed(points, p[..], f[..], pos, j)
    ensures len - 1 <= j <= 2 * len - 1 && (len <= 2 ==> j <= len)
    ensures len == 1 ==> !prevIsCurve
    ensures firstIsCurve ==> len > 2 && j >= 1 && IsQuadratic(flags[0])
    ensures !IsQuadratic(flags[0]) ==> j >= 1
    ensures IsLine(flags[0]) ==> f[0] == OnCurve
    ensures forall m :: 0 < m < len ==> pos[m] >= 0
    ensures !IsQuadratic(flags[0]) ==> pos[0] >= 0
    ensures pos[len] == -1
  {
    prevIsCurve := IsQuadratic(flags[len - 1]);
    firstIsCurve := false;
    j := 0;
    var i := 0;
    ghost var st := CopyStart(points, flags, len, p[..], f[..]);
    CopyStartHolds(points, flags, len, p[..], f[..]);
    ghost var final := Inserted(points, flags, len, p[..], f[..]);

    if len > 2 && IsQuadratic(flags[0]) && IsQuadratic(flags[1]) {
      var mid := MidPoint(points[0], points[1]);
      Write(p, f, j, mid, OnCurve);
      prevIsCurve := false;
      firstIsCurve := true;
      j := j + 1;
      i := i + 1;
    }

    while i < len
      invariant st == CopyState(i, j, prevIsCurve, st.pos, p[..], f[..])
      invariant CopyInvariant(points, flags, len, firstIsCurve, st)
      invariant firstIsCurve == MidStart(flags, len)
      invariant CopyFrom(points, flags, len, firstIsCurve, st) == final
      decreases len - i
    {
      CopyStepKeeps(points, flags, len, firstIsCurve, st);
      i, j, prevIsCurve := CopyAt(points, flags, p, f, i, j, prevIsCurve, st);
      st := CopyStep(points, flags, st);
    }
    CopyEnd(points, flags, len, firstIsCurve, st);
    pos := st.pos;
  }

  /** Whether create_contour starts the contour at the mid-point of its first two points, both quadratic. */
  predicate MidStart(flags: seq<bv8>, len: int)
    requires len < |flags|
  {
    len > 2 && IsQuadratic(flags[0]) && IsQuadratic(flags[1])
  }

  /** The copying loop's state on entry, after the mid-point start if there is one. */
  ghost function CopyStart(points: seq<Point>, flags: seq<bv8>, len: int, ps: seq<Point>, fs: seq<bv8>): CopyState
    requires 0 < len < |points| && len < |flags| && 0 < |ps| && 0 < |fs|
  {
    var none := seq(len + 1, _ => -1);
    if MidStart(flags, len) then
      CopyState(1, 1, false, none, ps[0 := MidPoint(points[0], points[1])], fs[0 := OnCurve])
    else
      CopyState(0, 0, IsQuadratic(flags[len - 1]), none, ps, fs)
  }

  /** The copying loop's invariant holds on entry. */
  lemma CopyStartHolds(points: seq<Point>, flags: seq<bv8>, len: int, ps: seq<Point>, fs: seq<bv8>)
    requires 0 < len < |points| && len < |flags| && |ps| == 4 * len && |fs| == 4 * len
    requires !(len == 1 && IsQuadratic(flags[0]))
    ensures CopyInvariant(points, flags, len, MidStart(flags, len), CopyStart(points, flags, len, ps, fs))
    ensures MidPointsBetween(points, flags, CopyStart(points, flags, len, ps, fs))
  {
    FlagClassesPartition(flags[0]);
  }

  /** The copying loop run from state s until every one of the len points is visited. */
  ghost function CopyFrom(points: seq<Point>, flags: seq<bv8>, len: int, firstIsCurve: bool, s: CopyState): (r: CopyState)
    requires CopyInvariant(points, flags, len, firstIsCurve, s)
    ensures CopyInvariant(points, flags, len, firstIsCurve, r) && r.i >= len
    decreases len - s.i
  {
    if s.i >= len then s
    else
      CopyStepKeeps(points, flags, len, firstIsCurve, s);
      CopyFrom(points, flags, len, firstIsCurve, CopyStep(points, flags, s))
  }

  /**
   * What create_contour's copying part leaves, from the buffers ps and fs:
   * the new buffers, the fill level j, prev_is_curve and where each point
   * went.
   */
  ghost function Inserted(points: seq<Point>, flags: seq<bv8>, len: int, ps: seq<Point>, fs: seq<bv8>): (r: CopyState)
    requires 0 < len < |points| && len < |flags| && |ps| == 4 * len && |fs| == 4 * len
    requires !(len == 1 && IsQuadratic(flags[0]))
    ensures CopyInvariant(points, flags, len, MidStart(flags, len), r) && r.i >= len
  {
    CopyStartHolds(points, flags, len, ps, fs);
    CopyFrom(points, flags, len, MidStart(flags, len), CopyStart(points, flags, len, ps, fs))
  }

  /**
   * Points i-1 and i, both copied, sit next to each other, or, when both are
   * quadratic, two apart with a HIDDEN_CURVE half-way point between them.
   */
  ghost predicate Between(points: seq<Point>, flags: seq<bv8>, s: CopyState, i: int)
    requires 1 <= i < |s.pos| && i < |points| && i < |flags|
  {
    && 0 <= s.pos[i - 1] < s.pos[i] < |s.ps| && |s.fs| == |s.ps|
    && s.ps[s.pos[i - 1]] == points[i - 1] && s.ps[s.pos[i]] == points[i]
    && if IsQuadratic(flags[i - 1]) && IsQuadratic(flags[i]) then
         s.pos[i] == s.pos[i - 1] + 2 &&
         s.ps[s.pos[i] - 1] == MidPoint(points[i], points[i - 1]) && s.fs[s.pos[i] - 1] == HiddenCurve
       else
         s.pos[i] == s.pos[i - 1] + 1
  }

  /**
   * Between holds for every pair of points from index 2 below s.i, and the
   * loop's last copied point is at j - 1, with prev_is_curve its class.
   */
  ghost predicate MidPointsBetween(points: seq<Point>, flags: seq<bv8>, s: CopyState)
  {
    && s.i <= |s.pos| && s.i <= |points| && s.i <= |flags|
    && (s.i >= 2 ==> s.pos[s.i - 1] == s.j - 1 && s.prevIsCurve == IsQuadratic(flags[s.i - 1]))
    && forall i :: 2 <= i < s.i ==> Between(points, flags, s, i)
  }

  /** Every turn of the copying loop keeps MidPointsBetween. */
  lemma CopyStepBetween(points: seq<Point>, flags: seq<bv8>, len: int, firstIsCurve: bool, s: CopyState)
    requires CopyInvariant(points, flags, len, firstIsCurve, s) && s.i < len
    requires MidPointsBetween(points, flags, s)
    ensures s.j + 1 < |s.ps|
    ensures MidPointsBetween(points, flags, CopyStep(points, flags, s))
  {
    CopyStepCounts(flags, len, firstIsCurve, s, points);
    var n := CopyStep(points, flags, s);
    CopyStepShape(points, flags, s);
    BetweenKept(points, flags, s, n);
    if s.i >= 2 {
      assert s.pos[s.i - 1] >= 0;
      assert s.ps[s.j - 1] == points[s.i - 1];
      assert Between(points, flags, n, s.i);
    }
  }

  /** What one turn of the copying loop keeps below i and j, and where it puts points[i]. */
  lemma CopyStepShape(points: seq<Point>, flags: seq<bv8>, s: CopyState)
    requires 0 <= s.i < |points| && s.i < |flags| && s.i < |s.pos|
    requires 0 <= s.j && s.j + 1 < |s.ps| && |s.fs| == |s.ps|
    ensures var n := CopyStep(points, flags, s);
      && |n.pos| == |s.pos| && |n.ps| == |s.ps| && |n.fs| == |s.fs|
      && (forall m :: 0 <= m < s.i ==> n.pos[m] == s.pos[m])
      && (forall k :: 0 <= k < s.j ==> n.ps[k] == s.ps[k] && n.fs[k] == s.fs[k])
    ensures var n := CopyStep(points, flags, s);
      s.i >= 1 ==>
        && n.pos[s.i] == n.j - 1 && n.ps[n.j - 1] == points[s.i]
        && n.prevIsCurve == IsQuadratic(flags[s.i])
        && if IsQuadratic(flags[s.i]) && s.prevIsCurve && s.j != 0 then
             n.j == s.j + 2 && n.ps[s.j] == MidPoint(points[s.i], s.ps[s.j - 1]) && n.fs[s.j] == HiddenCurve
           else
             n.j == s.j + 1
  {
  }

  /** A turn that keeps the positions below i and the entries below j keeps Between below i. */
  lemma BetweenKept(points: seq<Point>, flags: seq<bv8>, s: CopyState, n: CopyState)
    requires s.i <= |s.pos| && s.i <= |points| && s.i <= |flags|
    requires 0 <= s.j <= |s.ps| == |s.fs| && Placed(points, s.ps, s.fs, s.pos, s.j)
    requires forall i :: 2 <= i < s.i ==> Between(points, flags, s, i)
    requires |n.pos| == |s.pos| && |n.ps| == |s.ps| && |n.fs| == |s.fs|
    requires forall m :: 0 <= m < s.i ==> n.pos[m] == s.pos[m]
    requires forall k :: 0 <= k < s.j ==> n.ps[k] == s.ps[k] && n.fs[k] == s.fs[k]
    ensures forall i :: 2 <= i < s.i ==> Between(points, flags, n, i)
  {
    forall i | 2 <= i < s.i
      ensures Between(points, flags, n, i)
    {
      assert Between(points, flags, s, i);
    }
  }

  /** The whole copying loop keeps MidPointsBetween. */
  lemma {:induction false} CopyFromBetween(points: seq<Point>, flags: seq<bv8>, len: int, firstIsCurve: bool, s: CopyState)
    requires CopyInvariant(points, flags, len, firstIsCurve, s) && MidPointsBetween(points, flags, s)
    ensures MidPointsBetween(points, flags, CopyFrom(points, flags, len, firstIsCurve, s))
    decreases len - s.i
  {
    if s.i < len {
      CopyStepBetween(points, flags, len, firstIsCurve, s);
      CopyStepKeeps(points, flags, len, firstIsCurve, s);
      CopyFromBetween(points, flags, len, firstIsCurve, CopyStep(points, flags, s));
    }
  }

  /**
   * After the copying part, points 1..len-1 lie in order: consecutive points
   * next to each other, except that two consecutive quadratic points (from
   * index 1 on) have a HIDDEN_CURVE point half way between them.
   */
  lemma MidPointsInserted(points: seq<Point>, flags: seq<bv8>, len: int, ps: seq<Point>, fs: seq<bv8>, i: int)
    requires 0 < len < |points| && len < |flags| && |ps| == 4 * len && |fs| == 4 * len
    requires !(len == 1 && IsQuadratic(flags[0]))
    requires 2 <= i < len
    ensures var r := Inserted(points, flags, len, ps, fs);
      0 <= r.pos[i - 1] < r.pos[i] < |r.ps| &&
      r.ps[r.pos[i - 1]] == points[i - 1] && r.ps[r.pos[i]] == points[i]
    ensures var r := Inserted(points, flags, len, ps, fs);
      IsQuadratic(flags[i - 1]) && IsQuadratic(flags[i]) ==>
        r.pos[i] == r.pos[i - 1] + 2 &&
        r.ps[r.pos[i] - 1] == MidPoint(points[i], points[i - 1]) && r.fs[r.pos[i] - 1] == HiddenCurve
    ensures var r := Inserted(points, flags, len, ps, fs);
      !(IsQuadratic(flags[i - 1]) && IsQuadratic(flags[i])) ==> r.pos[i] == r.pos[i - 1] + 1
  {
    CopyStartHolds(points, flags, len, ps, fs);
    CopyFromBetween(points, flags, len, MidStart(flags, len), CopyStart(points, flags, len, ps, fs));
    assert Between(points, flags, Inserted(points, flags, len, ps, fs), i);
  }

  /** What the copying loop leaves once every point has been visited. */
  lemma CopyEnd(points: seq<Point>, flags: seq<bv8>, len: int, firstIsCurve: bool, s: CopyState)
    requires CopyInvariant(points, flags, len, firstIsCurve, s) && s.i >= len
    ensures |s.pos| == len + 1 && Placed(points, s.ps, s.fs, s.pos, s.j)
    ensures len - 1 <= s.j <= 2 * len - 1 && (len <= 2 ==> s.j <= len)
    ensures len == 1 ==> !s.prevIsCurve
    ensures firstIsCurve ==> len > 2 && s.j >= 1 && IsQuadratic(flags[0])
    ensures !IsQuadratic(flags[0]) ==> s.j >= 1
    ensures IsLine(flags[0]) ==> s.fs[0] == OnCurve
    ensures forall m :: 0 < m < len ==> s.pos[m] >= 0
    ensures !IsQuadratic(flags[0]) ==> s.pos[0] >= 0
    ensures s.pos[len] == -1
  {
  }

  /** The loop state of create_contour's copying loop; pos, ps and fs are ghost. */
  datatype CopyState = CopyState(i: int, j: int, prevIsCurve: bool, pos: seq<int>, ps: seq<Point>, fs: seq<bv8>)

  /** What holds of the copying loop's state, for the contour's `len + 1` points. */
  ghost predicate CopyInvariant(points: seq<Point>, flags: seq<bv8>, len: int, firstIsCurve: bool, s: CopyState)
  {
    && 0 < len < |points| && len < |flags| && |s.ps| == 4 * len && |s.fs| == 4 * len
    && CopyCounts(flags, len, firstIsCurve, s)
    && Placed(points, s.ps, s.fs, s.pos, s.j)
  }

  /** The copying loop's indices, flags and recorded positions. */
  ghost predicate CopyCounts(flags: seq<bv8>, len: int, firstIsCurve: bool, s: CopyState)
    requires 0 < len < |flags|
  {
    && 0 <= s.i <= len && |s.pos| == len + 1 && s.pos[len] == -1
    && !(len == 1 && IsQuadratic(flags[0]))
    && (s.i == 0 ==> s.j == 0)
    && (s.i >= 1 ==> s.i - 1 <= s.j <= 2 * s.i - 1)
    && (s.i <= 2 ==> s.j <= s.i)
    && (s.i == 1 && s.j != 0 ==> !s.prevIsCurve)
    && (len == 1 && s.i >= 1 ==> !s.prevIsCurve)
    && (firstIsCurve ==> len > 2 && s.i >= 1 && s.j >= 1 && IsQuadratic(flags[0]))
    && (s.i >= 1 && !IsQuadratic(flags[0]) ==> s.j >= 1 && s.pos[0] == 0)
    && (s.i >= 1 && IsLine(flags[0]) ==> |s.fs| > 0 && s.fs[0] == OnCurve)
    && (forall m :: 0 < m < s.i ==> s.pos[m] >= 0)
  }

  /** points[i] copied at j with `flag`. */
  function CopyPut(points: seq<Point>, s: CopyState, flag: bv8): (r: CopyState)
    requires 0 <= s.i < |points| && s.i < |s.pos| && 0 <= s.j < |s.ps| && s.j < |s.fs|
    ensures r.i == s.i + 1 && r.j == s.j + 1 && r.pos == s.pos[s.i := s.j]
    ensures r.ps == s.ps[s.j := points[s.i]] && r.fs == s.fs[s.j := flag]
  {
    CopyState(s.i + 1, s.j + 1, s.prevIsCurve, s.pos[s.i := s.j], s.ps[s.j := points[s.i]], s.fs[s.j := flag])
  }

  /**
   * One turn of the copying loop at index i: a quadratic point following a
   * quadratic one gets a HIDDEN_CURVE mid-point first; a quadratic point 0 is
   * skipped; otherwise the point is copied with its class's flag.
   */
  ghost function CopyStep(points: seq<Point>, flags: seq<bv8>, s: CopyState): (r: CopyState)
    requires 0 <= s.i < |points| && s.i < |flags| && s.i < |s.pos|
    requires 0 <= s.j && s.j + 1 < |s.ps| && |s.fs| == |s.ps|
    ensures r.i == s.i + 1
  {
    var i, j := s.i, s.j;
    if IsQuadratic(flags[i]) then
      var t := if s.prevIsCurve && j != 0 then
          s.(ps := s.ps[j := MidPoint(points[i], s.ps[j - 1])], fs := s.fs[j := HiddenCurve], j := j + 1)
        else s;
      if i == 0 then t.(i := 1) else CopyPut(points, t.(prevIsCurve := true), QuadraticOffCurve)
    else if IsLine(flags[i]) then CopyPut(points, s.(prevIsCurve := false), OnCurve)
    else CopyPut(points, s.(prevIsCurve := false), CubicCurve)
  }

  /** Every turn of the copying loop keeps CopyInvariant. */
  lemma CopyStepKeeps(points: seq<Point>, flags: seq<bv8>, len: int, firstIsCurve: bool, s: CopyState)
    requires CopyInvariant(points, flags, len, firstIsCurve, s) && s.i < len
    ensures s.j + 1 < |s.ps|
    ensures CopyInvariant(points, flags, len, firstIsCurve, CopyStep(points, flags, s))
  {
    CopyStepCounts(flags, len, firstIsCurve, s, points);
    CopyStepPlaced(points, flags, s);
  }

  /** Every turn of the copying loop keeps CopyCounts. */
  lemma CopyStepCounts(flags: seq<bv8>, len: int, firstIsCurve: bool, s: CopyState, points: seq<Point>)
    requires 0 < len < |points| && len < |flags| && |s.ps| == 4 * len && |s.fs| == 4 * len
    requires CopyCounts(flags, len, firstIsCurve, s) && s.i < len
    ensures s.j + 1 < |s.ps|
    ensures var n := CopyStep(points, flags, s);
      |n.fs| == |s.fs| && |n.ps| == |s.ps| && CopyCounts(flags, len, firstIsCurve, n)
  {
    FlagClassesPartition(flags[s.i]);
    FlagClassesPartition(flags[0]);
    if s.i == 0 && IsLine(flags[0]) {
      assert CopyStep(points, flags, s).fs[0] == OnCurve;
    }
  }

  /** Every turn of the copying loop keeps what was placed, and places points[i] unless it is skipped. */
  lemma CopyStepPlaced(points: seq<Point>, flags: seq<bv8>, s: CopyState)
    requires 0 <= s.i < |points| && s.i < |flags| && s.i < |s.pos|
    requires 0 <= s.j && s.j + 1 < |s.ps| && |s.fs| == |s.ps|
    requires Placed(points, s.ps, s.fs, s.pos, s.j)
    ensures var n := CopyStep(points, flags, s); Placed(points, n.ps, n.fs, n.pos, n.j)
  {
    VisibleFlags();
    var i, j := s.i, s.j;
    if IsQuadratic(flags[i]) {
      var t := if s.prevIsCurve && j != 0 then
          s.(ps := s.ps[j := MidPoint(points[i], s.ps[j - 1])], fs := s.fs[j := HiddenCurve], j := j + 1)
        else s;
      if s.prevIsCurve && j != 0 {
        PlacedWrite(points, s.ps, s.fs, s.pos, j, MidPoint(points[i], s.ps[j - 1]), HiddenCurve);
      }
      if i != 0 {
        PlacedPut(points, t.ps, t.fs, t.pos, t.j, i, QuadraticOffCurve);
      }
    } else if IsLine(flags[i]) {
      PlacedPut(points, s.ps, s.fs, s.pos, j, i, OnCurve);
    } else {
      PlacedPut(points, s.ps, s.fs, s.pos, j, i, CubicCurve);
    }
  }

  /** The body of the copying loop at index i, in place. */
  method CopyAt(points: seq<Point>, flags: seq<bv8>, p: array<Point>, f: array<bv8>, i: int, j: int,
                prevIsCurve: bool, ghost s: CopyState)
      returns (i': int, j': int, prevIsCurve': bool)
    requires 0 <= i < |points| && i < |flags| && i < |s.pos| && 0 <= j && j + 1 < p.Length
    requires p.Length == f.Length && p as object != f as object
    requires s == CopyState(i, j, prevIsCurve, s.pos, p[..], f[..])
    modifies p, f
    ensures var n := CopyStep(points, flags, s);
      i' == n.i && j' == n.j && prevIsCurve' == n.prevIsCurve && p[..] == n.ps && f[..] == n.fs
  {
    i', j', prevIsCurve' := i, j, prevIsCurve;
    var flag: bv8;
    if IsQuadratic(flags[i]) {
      if prevIsCurve && j != 0 {
        // add a new point half way between two off curve points
        var mid := MidPoint(points[i], p[j - 1]);
        Write(p, f, j, mid, HiddenCurve);
        j' := j + 1;
      }
      if i == 0 {
        // the first point is taken up again when the contour is closed
        i' := i + 1;
        return;
      }
      flag := QuadraticOffCurve;
      prevIsCurve' := true;
    } else if IsLine(flags[i]) {
      prevIsCurve' := false;
      flag := OnCurve;
    } else {
      // every flag is on-curve, cubic or quadratic
      prevIsCurve' := false;
      flag := CubicCurve;
    }
    Write(p, f, j', points[i], flag);
    j' := j' + 1;
    i' := i + 1;
  }

  /** Copying points[m] to index j with a visible flag places it there. */
  lemma PlacedPut(points: seq<Point>, ps: seq<Point>, fs: seq<bv8>, pos: seq<int>, j: int, m: int, flag: bv8)
    requires Placed(points, ps, fs, pos, j) && 0 <= j < |ps| && j < |fs|
    requires 0 <= m < |pos| && m < |points| && !IsHidden(flag)
    ensures Placed(points, ps[j := points[m]], fs[j := flag], pos[m := j], j + 1)
  {
    PlacedWrite(points, ps, fs, pos, j, points[m], flag);
    PlacedAdd(points, ps[j := points[m]], fs[j := flag], pos, j + 1, m, j);
  }

  /** The flags create_contour copies points with are not hidden. */
  lemma VisibleFlags()
    ensures !IsHidden(QuadraticOffCurve) && !IsHidden(OnCurve) && !IsHidden(CubicCurve)
  {
  }

  /** Writing at j keeps what was placed below j. */
  lemma PlacedWrite(points: seq<Point>, ps: seq<Point>, fs: seq<bv8>, pos: seq<int>, j: int, point: Point, flag: bv8)
    requires Placed(points, ps, fs, pos, j) && 0 <= j < |ps| && j < |fs|
    ensures Placed(points, ps[j := point], fs[j := flag], pos, j + 1)
  {
  }

  /**
   * The last part of create_contour: joins the last point, points[len], back
   * to the first, in one of six ways depending on whether the contour
   * started at a mid-point, whether the point before was quadratic and what
   * the last and first points are.
   */
  method CloseContour(points: seq<Point>, flags: seq<bv8>, len: int, p: array<Point>, f: array<bv8>,
                      j0: int, prevIsCurve: bool, firstIsCurve: bool, ghost pos0: seq<int>)
      returns (j: int, ghost pos: seq<int>)
    requires ClosingArgs(points, flags, len, prevIsCurve, firstIsCurve, p[..], f[..], j0)
    requires p as object != f as object
    requires |pos0| == len + 1 && Placed(points, p[..], f[..], pos0, j0)
    modifies p, f
    ensures var e := Closing(points, flags, len, prevIsCurve, firstIsCurve, old(p[..]), old(f[..]), j0);
      p[..] == e.ps && f[..] == e.fs && j == e.j
    ensures j0 < j < 4 * len && (len >= 2 ==> j + 2 <= 4 * len)
    ensures |pos| == len + 1 && Placed(points, p[..], f[..], pos, j)
    ensures forall m :: 0 <= m < len ==> pos[m] == pos0[m]
    ensures !IsHidden(flags[len]) ==> pos[len] >= 0
  {
    ghost var ps0, fs0 := p[..], f[..];
    ghost var e := Closing(points, flags, len, prevIsCurve, firstIsCurve, ps0, fs0, j0);
    ghost var at := -1;
    FlagClassesPartition(flags[0]);
    if firstIsCurve && !prevIsCurve && IsQuadratic(flags[len]) {
      j, at := CloseOffCurveAfterMidStart(points, len, p, f, j0);
    } else if firstIsCurve && !prevIsCurve && IsLine(flags[len]) {
      j, at := CloseOnCurveAfterMidStart(points, len, p, f, j0);
    } else if firstIsCurve && prevIsCurve && IsQuadratic(flags[len]) {
      j, at := CloseCurveAfterMidStart(points, flags, len, p, f, j0);
    } else if prevIsCurve && flags[0] & OnCurve == 0 {
      j, at := CloseAtOffCurveStart(points, flags, len, p, f, j0);
    } else if prevIsCurve && IsQuadratic(flags[len]) {
      j, at := CloseCurveAtOnCurveStart(points, len, p, f, j0);
    } else {
      j, at := CloseStraight(points, flags, len, p, f, j0);
    }
    assert Ending(p[..], f[..], j, at) == e;
    ClosingEndsAtStart(points, flags, len, prevIsCurve, firstIsCurve, ps0, fs0, j0);
    ClosingPlacesLast(points, flags, len, prevIsCurve, firstIsCurve, ps0, fs0, j0);
    ClosingKeepsPlaced(points, ps0, fs0, e.ps, e.fs, pos0, j0, e.j);
    pos := pos0;
    if at >= 0 {
      PlacedAdd(points, p[..], f[..], pos0, j, len, at);
      pos := pos0[len := at];
    }
  }

  /** An ending keeps every point placed below j0. */
  lemma ClosingKeepsPlaced(points: seq<Point>, ps0: seq<Point>, fs0: seq<bv8>, ps: seq<Point>, fs: seq<bv8>,
                           pos: seq<int>, j0: int, j: int)
    requires Placed(points, ps0, fs0, pos, j0) && 0 <= j0 <= j && j0 <= |ps0| && j0 <= |fs0|
    requires |ps| == |ps0| && |fs| == |fs0| && ps[..j0] == ps0[..j0] && fs[..j0] == fs0[..j0]
    ensures Placed(points, ps, fs, pos, j)
  {
    forall k | 0 <= k < j0
      ensures ps[k] == ps0[k] && fs[k] == fs0[k]
    {
      assert ps[k] == ps[..j0][k] && fs[k] == fs[..j0][k];
    }
    PlacedKept(points, ps0, fs0, ps, fs, pos, j0, j);
  }

  /** What an ending of create_contour leaves: the buffers, the fill level and where the last point went (or -1). */
  datatype Ending = Ending(ps: seq<Point>, fs: seq<bv8>, j: int, at: int)

  /**
   * The ending create_contour picks, appended at j0 to the buffers ps and fs
   * that the copying part left.
   */
  ghost function Closing(points: seq<Point>, flags: seq<bv8>, len: int, prevIsCurve: bool, firstIsCurve: bool,
                         ps: seq<Point>, fs: seq<bv8>, j0: int): (e: Ending)
    requires ClosingArgs(points, flags, len, prevIsCurve, firstIsCurve, ps, fs, j0)
    ensures |e.ps| == |ps| && |e.fs| == |fs| && j0 < e.j < 4 * len && (len >= 2 ==> e.j + 2 <= 4 * len)
  {
    if firstIsCurve && !prevIsCurve && IsQuadratic(flags[len]) then OffCurveAfterMidStart(points, len, ps, fs, j0)
    else if firstIsCurve && !prevIsCurve && IsLine(flags[len]) then OnCurveAfterMidStart(points, len, ps, fs, j0)
    else if firstIsCurve && prevIsCurve && IsQuadratic(flags[len]) then CurveAfterMidStart(points, flags, len, ps, fs, j0)
    else if prevIsCurve && flags[0] & OnCurve == 0 then AtOffCurveStart(points, flags, len, ps, fs, j0)
    else if prevIsCurve && IsQuadratic(flags[len]) then CurveAtOnCurveStart(points, len, ps, fs, j0)
    else Straight(points, flags, len, ps, fs, j0)
  }

  /** What the copying part guarantees to the ending. */
  ghost predicate ClosingArgs(points: seq<Point>, flags: seq<bv8>, len: int, prevIsCurve: bool, firstIsCurve: bool,
                              ps: seq<Point>, fs: seq<bv8>, j0: int)
  {
    && 0 < len < |points| && len < |flags| && |ps| == 4 * len && |fs| == 4 * len
    && 1 <= j0 && len - 1 <= j0 <= 2 * len - 1 && (len <= 2 ==> j0 <= len)
    && (len == 1 ==> !prevIsCurve)
    && (firstIsCurve ==> len > 2 && j0 >= 1 && IsQuadratic(flags[0]))
    && (!IsQuadratic(flags[0]) ==> j0 >= 1)
    && (IsLine(flags[0]) ==> fs[0] == OnCurve)
  }

  /**
   * However it ends, the contour is closed: the entries below j0 are kept,
   * and the last entry written is the first entry of the buffer or the
   * contour's first point.
   */
  lemma ClosingEndsAtStart(points: seq<Point>, flags: seq<bv8>, len: int, prevIsCurve: bool, firstIsCurve: bool,
                           ps: seq<Point>, fs: seq<bv8>, j0: int)
    requires ClosingArgs(points, flags, len, prevIsCurve, firstIsCurve, ps, fs, j0)
    ensures var e := Closing(points, flags, len, prevIsCurve, firstIsCurve, ps, fs, j0);
      e.ps[..j0] == ps[..j0] && e.fs[..j0] == fs[..j0] &&
      (e.ps[e.j - 1] == ps[0] || e.ps[e.j - 1] == points[0])
  {
    FlagClassesPartition(flags[0]);
  }

  /*
   * The six endings of create_contour, as functions and as the methods that
   * write them. Each appends at j0 and above and leaves the entries below j0
   * alone; `at` is where the last point went, or -1 when it went in with a
   * hidden flag.
   */

  /** The contour started at a mid-point and ends with an off-curve point after a non-curve one. */
  ghost function OffCurveAfterMidStart(points: seq<Point>, len: int, ps: seq<Point>, fs: seq<bv8>, j0: int): Ending
    requires 0 < len < |points| && 1 <= j0 && j0 + 4 <= |ps| == |fs|
  {
    Ending(ps[j0 := points[len]][j0 + 1 := MidPoint(points[len], points[0])][j0 + 2 := points[0]][j0 + 3 := ps[0]],
           fs[j0 := QuadraticOffCurve][j0 + 1 := OnCurve][j0 + 2 := QuadraticOffCurve][j0 + 3 := fs[0]],
           j0 + 4, j0)
  }

  method CloseOffCurveAfterMidStart(points: seq<Point>, len: int, p: array<Point>, f: array<bv8>, j0: int)
      returns (j: int, ghost at: int)
    requires 0 < len < |points| && 1 <= j0 && j0 + 4 <= p.Length == f.Length && p as object != f as object
    modifies p, f
    ensures Ending(p[..], f[..], j, at) == OffCurveAfterMidStart(points, len, old(p[..]), old(f[..]), j0)
  {
    j := j0;
    p[j] := points[len];
    f[j] := QuadraticOffCurve;
    at := j;
    j := j + 1;
    p[j] := MidPoint(p[j - 1], points[0]);
    f[j] := OnCurve;
    j := j + 1;
    p[j] := points[0];
    f[j] := QuadraticOffCurve;
    j := j + 1;
    p[j] := p[0];
    f[j] := f[0];
    j := j + 1;
  }

  /** The contour started at a mid-point and ends with an on-curve point. */
  ghost function OnCurveAfterMidStart(points: seq<Point>, len: int, ps: seq<Point>, fs: seq<bv8>, j0: int): Ending
    requires 0 < len < |points| && 1 <= j0 && j0 + 3 <= |ps| == |fs|
  {
    Ending(ps[j0 := points[len]][j0 + 1 := points[0]][j0 + 2 := ps[0]],
           fs[j0 := OnCurve][j0 + 1 := QuadraticOffCurve][j0 + 2 := fs[0]],
           j0 + 3, j0)
  }

  method CloseOnCurveAfterMidStart(points: seq<Point>, len: int, p: array<Point>, f: array<bv8>, j0: int)
      returns (j: int, ghost at: int)
    requires 0 < len < |points| && 1 <= j0 && j0 + 3 <= p.Length == f.Length && p as object != f as object
    modifies p, f
    ensures Ending(p[..], f[..], j, at) == OnCurveAfterMidStart(points, len, old(p[..]), old(f[..]), j0)
  {
    j := j0;
    p[j] := points[len];
    f[j] := OnCurve;
    at := j;
    j := j + 1;
    p[j] := points[0];
    f[j] := QuadraticOffCurve;
    j := j + 1;
    p[j] := p[0];
    f[j] := f[0];
    j := j + 1;
  }

  /**
   * The contour started at a mid-point and ends with two quadratic points:
   * hidden mid-points go on both sides of the last point, which keeps its
   * own flag.
   */
  ghost function CurveAfterMidStart(points: seq<Point>, flags: seq<bv8>, len: int, ps: seq<Point>, fs: seq<bv8>, j0: int): Ending
    requires 0 < len < |points| && len < |flags| && 1 <= j0 && j0 + 5 <= |ps| == |fs|
  {
    Ending(ps[j0 := MidPoint(ps[j0 - 1], points[len])][j0 + 1 := points[len]]
             [j0 + 2 := MidPoint(points[len], points[0])][j0 + 3 := points[0]][j0 + 4 := ps[0]],
           fs[j0 := HiddenCurve][j0 + 1 := flags[len]][j0 + 2 := HiddenCurve][j0 + 3 := QuadraticOffCurve][j0 + 4 := OnCurve],
           j0 + 5, if IsHidden(flags[len]) then -1 else j0 + 1)
  }

  method CloseCurveAfterMidStart(points: seq<Point>, flags: seq<bv8>, len: int, p: array<Point>, f: array<bv8>, j0: int)
      returns (j: int, ghost at: int)
    requires 0 < len < |points| && len < |flags|
    requires 1 <= j0 && j0 + 5 <= p.Length == f.Length && p as object != f as object
    modifies p, f
    ensures Ending(p[..], f[..], j, at) == CurveAfterMidStart(points, flags, len, old(p[..]), old(f[..]), j0)
  {
    j := j0;
    at := -1;
    p[j] := MidPoint(p[j - 1], points[len]);
    f[j] := HiddenCurve;
    j := j + 1;
    p[j] := points[len];
    f[j] := flags[len];
    if !IsHidden(flags[len]) {
      at := j;
    }
    j := j + 1;
    p[j] := MidPoint(p[j - 1], points[0]);
    f[j] := HiddenCurve;
    j := j + 1;
    p[j] := points[0];
    f[j] := QuadraticOffCurve;
    j := j + 1;
    p[j] := p[0];
    f[j] := OnCurve;
    j := j + 1;
  }

  /**
   * The first point is off-curve and the point before the last is
   * quadratic: the last point, then the first, with hidden mid-points where
   * two quadratic points meet.
   */
  ghost function AtOffCurveStart(points: seq<Point>, flags: seq<bv8>, len: int, ps: seq<Point>, fs: seq<bv8>, j0: int): Ending
    requires 0 < len < |points| && len < |flags| && 1 <= j0 && j0 + 4 <= |ps| == |fs|
  {
    var before := IsQuadratic(fs[j0 - 1]) && IsQuadratic(flags[len]);
    var after := IsQuadratic(fs[0]) && IsQuadratic(flags[0]);
    var last := if IsLine(flags[len]) then OnCurve else QuadraticOffCurve;
    var midLast := MidPoint(ps[j0 - 1], points[len]);
    var midFirst := MidPoint(points[len], points[0]);
    if before && after then
      Ending(ps[j0 := midLast][j0 + 1 := points[len]][j0 + 2 := midFirst][j0 + 3 := points[0]],
             fs[j0 := HiddenCurve][j0 + 1 := last][j0 + 2 := HiddenCurve][j0 + 3 := QuadraticOffCurve], j0 + 4, j0 + 1)
    else if before then
      Ending(ps[j0 := midLast][j0 + 1 := points[len]][j0 + 2 := points[0]],
             fs[j0 := HiddenCurve][j0 + 1 := last][j0 + 2 := QuadraticOffCurve], j0 + 3, j0 + 1)
    else if after then
      Ending(ps[j0 := points[len]][j0 + 1 := midFirst][j0 + 2 := points[0]],
             fs[j0 := last][j0 + 1 := HiddenCurve][j0 + 2 := QuadraticOffCurve], j0 + 3, j0)
    else
      Ending(ps[j0 := points[len]][j0 + 1 := points[0]], fs[j0 := last][j0 + 1 := QuadraticOffCurve], j0 + 2, j0)
  }

  method CloseAtOffCurveStart(points: seq<Point>, flags: seq<bv8>, len: int, p: array<Point>, f: array<bv8>, j0: int)
      returns (j: int, ghost at: int)
    requires 0 < len < |points| && len < |flags|
    requires 1 <= j0 && j0 + 4 <= p.Length == f.Length && p as object != f as object
    modifies p, f
    ensures Ending(p[..], f[..], j, at) == AtOffCurveStart(points, flags, len, old(p[..]), old(f[..]), j0)
  {
    // Entry 0 lies below j0, so testing it before the writes gives the same answer.
    var before := IsQuadratic(f[j0 - 1]) && IsQuadratic(flags[len]);
    var after := IsQuadratic(f[0]) && IsQuadratic(flags[0]);
    var midLast := MidPoint(p[j0 - 1], points[len]);
    assert before == (IsQuadratic(f[..][j0 - 1]) && IsQuadratic(flags[len]));
    assert after == (IsQuadratic(f[..][0]) && IsQuadratic(flags[0]));
    assert midLast == MidPoint(p[..][j0 - 1], points[len]);
    j := j0;
    if before {
      Write(p, f, j, midLast, HiddenCurve);
      j := j + 1;
    }
    Write(p, f, j, points[len], if IsLine(flags[len]) then OnCurve else QuadraticOffCurve);
    at := j;
    j := j + 1;
    if after {
      Write(p, f, j, MidPoint(points[len], points[0]), HiddenCurve);
      j := j + 1;
    }
    Write(p, f, j, points[0], QuadraticOffCurve);
    j := j + 1;
  }

  /** p[j] and f[j] set to a point and its flag. */
  method Write(p: array<Point>, f: array<bv8>, j: int, pt: Point, flag: bv8)
    requires 0 <= j < p.Length == f.Length && p as object != f as object
    modifies p, f
    ensures p[..] == old(p[..])[j := pt] && f[..] == old(f[..])[j := flag]
  {
    p[j] := pt;
    f[j] := flag;
  }

  /**
   * The first point is on-curve and the last two are quadratic: a hidden
   * mid-point, the last point, and the first point again.
   */
  ghost function CurveAtOnCurveStart(points: seq<Point>, len: int, ps: seq<Point>, fs: seq<bv8>, j0: int): Ending
    requires 0 < len < |points| && 1 <= j0 && j0 + 3 <= |ps| == |fs|
  {
    Ending(ps[j0 := MidPoint(ps[j0 - 1], points[len])][j0 + 1 := points[len]][j0 + 2 := ps[0]],
           fs[j0 := HiddenCurve][j0 + 1 := QuadraticOffCurve][j0 + 2 := fs[0]],
           j0 + 3, j0 + 1)
  }

  /**
   * The method's test of f[0] for a quadratic flag never succeeds here, since
   * f[0] is ON_CURVE.
   */
  method CloseCurveAtOnCurveStart(points: seq<Point>, len: int, p: array<Point>, f: array<bv8>, j0: int)
      returns (j: int, ghost at: int)
    requires 0 < len < |points| && 1 <= j0 && j0 + 3 <= p.Length == f.Length && p as object != f as object
    requires f[0] == OnCurve
    modifies p, f
    ensures Ending(p[..], f[..], j, at) == CurveAtOnCurveStart(points, len, old(p[..]), old(f[..]), j0)
  {
    j := j0;
    p[j] := MidPoint(p[j - 1], points[len]);
    f[j] := HiddenCurve;
    j := j + 1;
    p[j] := points[len];
    f[j] := QuadraticOffCurve;
    at := j;
    j := j + 1;
    if IsQuadratic(f[0]) {
      assert false;
    }
    p[j] := p[0];
    f[j] := f[0];
    j := j + 1;
  }

  /** Every other case: the last point, then the first written point again, both with the last point's class. */
  ghost function Straight(points: seq<Point>, flags: seq<bv8>, len: int, ps: seq<Point>, fs: seq<bv8>, j0: int): Ending
    requires 0 < len < |points| && len < |flags| && 0 <= j0 && j0 + 2 <= |ps| == |fs|
  {
    var closing := if IsQuadratic(flags[len]) then QuadraticOffCurve else OnCurve;
    var ps1 := ps[j0 := points[len]];
    Ending(ps1[j0 + 1 := ps1[0]], fs[j0 := closing][j0 + 1 := closing], j0 + 2, j0)
  }

  method CloseStraight(points: seq<Point>, flags: seq<bv8>, len: int, p: array<Point>, f: array<bv8>, j0: int)
      returns (j: int, ghost at: int)
    requires 0 < len < |points| && len < |flags|
    requires 0 <= j0 && j0 + 2 <= p.Length == f.Length && p as object != f as object
    modifies p, f
    ensures Ending(p[..], f[..], j, at) == Straight(points, flags, len, old(p[..]), old(f[..]), j0)
  {
    var closing := if IsQuadratic(flags[len]) then QuadraticOffCurve else OnCurve;
    j := j0;
    p[j] := points[len];
    f[j] := closing;
    at := j;
    j := j + 1;
    p[j] := p[0];
    f[j] := closing;
    j := j + 1;
  }

  /** Where each ending puts the last point: with a visible flag, unless the point's own flag is hidden. */
  lemma ClosingPlacesLast(points: seq<Point>, flags: seq<bv8>, len: int, prevIsCurve: bool, firstIsCurve: bool,
                          ps: seq<Point>, fs: seq<bv8>, j0: int)
    requires ClosingArgs(points, flags, len, prevIsCurve, firstIsCurve, ps, fs, j0)
    ensures var e := Closing(points, flags, len, prevIsCurve, firstIsCurve, ps, fs, j0);
      (e.at >= 0 ==> j0 <= e.at < e.j && e.ps[e.at] == points[len] && !IsHidden(e.fs[e.at])) &&
      (!IsHidden(flags[len]) ==> e.at >= 0)
  {
    VisibleFlags();
  }

  /** One element of BirdFont path data (coordinates before scaling). */
  datatype Command =
    | Start(at: Point)
    | Line(to: Point)
    | Quad(c: Point, to: Point)
    | Cubic(c1: Point, c2: Point, to: Point)
    | Double(c1: Point, c2: Point, to: Point)

  /** How many buffer entries the walk consumes at a flag. */
  function Width(flag: bv8): (w: nat)
    ensures 1 <= w <= 3
  {
    if IsHidden(flag) then 1
    else if IsCubic(flag) || IsDoubleCurve(flag) then 3
    else if IsQuadratic(flag) then 2
    else 1
  }

  /**
   * An entry of a 4·len buffer. The walk can look up to two entries past the
   * contour; past the end of the buffer the model reads (0, 0).
   */
  function PointAt(buffer: seq<Point>, k: int): Point
  {
    if 0 <= k < |buffer| then buffer[k] else Point(0, 0)
  }

  /** The command the walk emits at index i, if any (hidden points emit nothing). */
  function CommandAt(points: seq<Point>, flags: seq<bv8>, i: int): (c: seq<Command>)
    requires 0 <= i < |flags|
    ensures |c| <= 1
    ensures c == [] <==> IsHidden(flags[i])
  {
    var flag := flags[i];
    if IsHidden(flag) then []
    else if IsCubic(flag) then [Cubic(PointAt(points, i), PointAt(points, i + 1), PointAt(points, i + 2))]
    else if IsDoubleCurve(flag) then [Double(PointAt(points, i), PointAt(points, i + 1), PointAt(points, i + 2))]
    else if IsQuadratic(flag) then [Quad(PointAt(points, i), PointAt(points, i + 1))]
    else [Line(PointAt(points, i))]
  }

  /** The segments get_bf_contour_data emits for indices i..length-1. */
  function Walk(points: seq<Point>, flags: seq<bv8>, i: nat, length: int): (cmds: seq<Command>)
    requires length <= |flags|
    ensures |cmds| <= if i < length then length - i else 0
    decreases length - i
  {
    if i >= length then []
    else CommandAt(points, flags, i) + Walk(points, flags, i + Width(flags[i]), length)
  }

  /** Only the first command of a contour is a start. */
  lemma {:induction false} WalkHasNoStart(points: seq<Point>, flags: seq<bv8>, i: nat, length: int)
    requires length <= |flags|
    ensures forall k :: 0 <= k < |Walk(points, flags, i, length)| ==> !Walk(points, flags, i, length)[k].Start?
    decreases length - i
  {
    if i < length {
      WalkHasNoStart(points, flags, i + Width(flags[i]), length);
    }
  }

  /** The walk's else branch (a flag in no class, which would set `err`) cannot be reached. */
  lemma EveryFlagHasACommand(points: seq<Point>, flags: seq<bv8>, i: int)
    requires 0 <= i < |flags| && !IsHidden(flags[i])
    ensures CommandAt(points, flags, i)[0].Line? <==> IsLine(flags[i]) && !IsDoubleCurve(flags[i])
    ensures CommandAt(points, flags, i)[0].Quad? <==> IsQuadratic(flags[i]) && !IsDoubleCurve(flags[i])
    ensures CommandAt(points, flags, i)[0].Cubic? <==> IsCubic(flags[i])
    ensures CommandAt(points, flags, i)[0].Double? <==> IsDoubleCurve(flags[i]) && !IsCubic(flags[i])
  {
  }

  /** On a run of on-curve flags the walk draws one line to each point. */
  lemma {:induction false} WalkOfLines(points: seq<Point>, flags: seq<bv8>, i: nat, length: int)
    requires i <= length <= |flags| && length <= |points|
    requires forall k :: i <= k < length ==> IsLine(flags[k]) && !IsHidden(flags[k]) && !IsDoubleCurve(flags[k])
    ensures |Walk(points, flags, i, length)| == length - i
    ensures forall k :: 0 <= k < length - i ==> Walk(points, flags, i, length)[k] == Line(points[i + k])
    decreases length - i
  {
    if i < length {
      WalkOfLines(points, flags, i + 1, length);
      var rest := Walk(points, flags, i + 1, length);
      assert Walk(points, flags, i, length) == [Line(points[i])] + rest;
      forall k | 1 <= k < length - i
        ensures Walk(points, flags, i, length)[k] == Line(points[i + k])
      {
        assert Walk(points, flags, i, length)[k] == rest[k - 1];
      }
    }
  }

  /** Concatenation regrouped. */
  lemma AppendShift(a: seq<Command>, b: seq<Command>, c: seq<Command>)
    ensures a + (b + c) == (a + b) + c
  {
  }

  /** The walk at index i: the command there, then the walk from the next index. */
  lemma WalkUnfold(points: seq<Point>, flags: seq<bv8>, i: nat, length: int)
    requires i < length <= |flags|
    ensures Walk(points, flags, i, length) == CommandAt(points, flags, i) + Walk(points, flags, i + Width(flags[i]), length)
  {
  }

  /** Splitting the walk where it lands on index m. */
  lemma {:induction false} WalkAppend(points: seq<Point>, flags: seq<bv8>, i: nat, m: nat, length: int)
    requires i <= m <= length <= |flags|
    requires Lands(flags, i, m)
    ensures Walk(points, flags, i, length) == Walk(points, flags, i, m) + Walk(points, flags, m, length)
    decreases m - i
  {
    if i < m {
      var next := i + Width(flags[i]);
      var c := CommandAt(points, flags, i);
      WalkAppend(points, flags, next, m, length);
      WalkUnfold(points, flags, i, length);
      WalkUnfold(points, flags, i, m);
      AppendShift(c, Walk(points, flags, next, m), Walk(points, flags, m, length));
    } else {
      assert Walk(points, flags, i, m) == [];
    }
  }

  /** The walk from i reaches index m exactly. */
  predicate Lands(flags: seq<bv8>, i: nat, m: nat)
    requires m <= |flags|
    decreases m - i
  {
    i == m || (i < m && Lands(flags, i + Width(flags[i]), m))
  }

  /**
   * The loop of get_bf_contour_data over the buffers create_contour filled,
   * from index 1 (index 0 is the starting point).
   */
  method WalkSegments(points: array<Point>, flags: array<bv8>, length: int) returns (cmds: seq<Command>)
    requires 1 <= length <= flags.Length && points.Length == flags.Length
    ensures cmds == Walk(points[..], flags[..], 1, length)
  {
    cmds := [];
    ghost var ps, fs := points[..], flags[..];
    var i := 1;
    while i < length
      invariant 1 <= i
      invariant cmds + Walk(ps, fs, i, length) == Walk(ps, fs, 1, length)
      decreases length - i
    {
      var step, width := SegmentAt(points, flags, i);
      WalkUnfold(ps, fs, i, length);
      AppendShift(cmds, step, Walk(ps, fs, i + width, length));
      cmds := cmds + step;
      i := i + width;
    }
  }

  /** The body of get_bf_contour_data's loop at index i: the segment it emits and how far it moves on. */
  method SegmentAt(points: array<Point>, flags: array<bv8>, i: int) returns (step: seq<Command>, width: int)
    requires 0 <= i < flags.Length && points.Length == flags.Length
    ensures step == CommandAt(points[..], flags[..], i) && width == Width(flags[i])
  {
    var flag := flags[i];
    var at := PointAt(points[..], i);
    if IsHidden(flag) {
      step, width := [], 1;
    } else if IsCubic(flag) {
      step, width := [Cubic(at, PointAt(points[..], i + 1), PointAt(points[..], i + 2))], 3;
    } else if IsDoubleCurve(flag) {
      step, width := [Double(at, PointAt(points[..], i + 1), PointAt(points[..], i + 2))], 3;
    } else if IsQuadratic(flag) {
      step, width := [Quad(at, PointAt(points[..], i + 1))], 2;
    } else if IsLine(flag) {
      step, width := [Line(at)], 1;
    } else {
      // every flag is on-curve, cubic or quadratic
      assert false;
    }
  }

  /**
   * get_bf_contour_data: nothing for an empty contour or one that collapses
   * to fewer than two points; otherwise a start at the first point followed
   * by the walk over the buffers create_contour built.
   */
  method ContourData(points: seq<Point>, flags: seq<bv8>, length: int) returns (cmds: seq<Command>)
    requires 0 <= length
    requires length > 0 ==> length < |points| && length < |flags|
    requires !(length == 1 && IsQuadratic(flags[0]))
    ensures var c := Created(points, flags, length);
      cmds == if length == 0 || c.length < 2 then [] else [Start(c.ps[0])] + Walk(c.ps, c.fs, 1, c.length)
    ensures cmds != [] ==> cmds[0].Start? && forall k :: 1 <= k < |cmds| ==> !cmds[k].Start?
    ensures |cmds| <= 4 * length
  {
    if length == 0 {
      return [];
    }
    var p, f, newLength := CreateContour(points, flags, length);
    if newLength < 2 {
      return [];
    }
    var walked := WalkSegments(p, f, newLength);
    WalkHasNoStart(p[..], f[..], 1, newLength);
    cmds := [Start(p[0])] + walked;
  }
}

/**
 * The archive-order search of waf's compression playground
 * (playground/compress/optim.py, `gen`): a population of orderings of the
 * files to archive, mutated by three operators (rotate, swap, move to the
 * end), then scored by the size of the archive each ordering gives; the
 * first strictly best ordering is copied over the whole population.
 *
 * The random draws and the archive sizes (tar, then os.stat) are
 * parameters: the draws as sequences of indices, the size as a function of
 * the ordering. An individual is a sequence of file indices.
 */
module Optim {

  // ---------------------------------------------------------------
  // Orderings and the three operators
  // ---------------------------------------------------------------

  /** range(n). */
  function Range(n: nat): (r: seq<int>)
    ensures |r| == n
    ensures forall i :: 0 <= i < n ==> r[i] == i
  {
    seq(n, i => i)
  }

  /** An ordering of the indices 0 .. n-1. */
  predicate IsPermOf(v: seq<int>, n: nat) {
    multiset(v) == multiset(Range(n))
  }

  /** v.pop(0) followed by v.append(a): the first element moves to the end. */
  function RotateLeft(v: seq<int>): (r: seq<int>)
    ensures |r| == |v|
    ensures v != [] ==> r[|v| - 1] == v[0]
  {
    if v == [] then [] else v[1..] + [v[0]]
  }

  /** v rotated left k times. */
  function Rotated(v: seq<int>, k: nat): (r: seq<int>)
    requires k <= |v|
    ensures |r| == |v|
  {
    v[k..] + v[..k]
  }

  /** A rotation is a reordering: the same files, each as often. */
  lemma RotatedIsPermutation(v: seq<int>, k: nat)
    requires k <= |v|
    ensures multiset(Rotated(v, k)) == multiset(v)
  {
    assert v == v[..k] + v[k..];
  }

  /** Rotating once more after k rotations gives k + 1 rotations. */
  lemma RotateLeftRotated(v: seq<int>, k: nat)
    requires k < |v|
    ensures RotateLeft(Rotated(v, k)) == Rotated(v, k + 1)
  {
    var r := Rotated(v, k);
    assert r[0] == v[k];
    assert r[1..] == v[k + 1..] + v[..k];
    assert v[..k + 1] == v[..k] + [v[k]];
  }

  /** Rotating a list as many times as it has elements gives it back. */
  lemma RotatedFull(v: seq<int>)
    ensures Rotated(v, |v|) == v
  {
    assert v[|v|..] == [] && v[..|v|] == v;
  }

  /** `c = v[a]; v[a] = v[b]; v[b] = c`. */
  function Swap(v: seq<int>, a: nat, b: nat): (r: seq<int>)
    requires a < |v| && b < |v|
    ensures multiset(r) == multiset(v) && |r| == |v|
    ensures r[a] == v[b] && r[b] == v[a]
    ensures forall i :: 0 <= i < |v| && i != a && i != b ==> r[i] == v[i]
  {
    v[a := v[b]][b := v[a]]
  }

  /** `c = v[a]; del v[a]; v.append(c)`. */
  function MoveToEnd(v: seq<int>, a: nat): (r: seq<int>)
    requires a < |v|
    ensures multiset(r) == multiset(v) && |r| == |v|
    ensures r[|v| - 1] == v[a] && r[..|v| - 1] == v[..a] + v[a + 1..]
  {
    assert v == v[..a] + [v[a]] + v[a + 1..];
    v[..a] + v[a + 1..] + [v[a]]
  }

  /** The sum of the indices in an ordering. */
  function Sum(v: seq<int>): int {
    if v == [] then 0 else Sum(v[..|v| - 1]) + v[|v| - 1]
  }

  /** Sum does not depend on the order: orderings with equal multisets have equal sums. */
  lemma {:induction false} SumOfPermutation(a: seq<int>, b: seq<int>)
    requires multiset(a) == multiset(b)
    ensures Sum(a) == Sum(b)
    decreases |a|
  {
    if a != [] {
      var x := a[|a| - 1];
      assert x in multiset(b);
      var j :| 0 <= j < |b| && b[j] == x;
      var b' := b[..j] + b[j + 1..];
      assert b == b[..j] + [x] + b[j + 1..];
      assert multiset(b') == multiset(b) - multiset{x};
      assert a == a[..|a| - 1] + [x];
      assert multiset(a[..|a| - 1]) == multiset(a) - multiset{x};
      SumOfPermutation(a[..|a| - 1], b');
      SumRemove(b, j);
    }
  }

  /** Taking one element out of a list takes its value off the sum. */
  lemma {:induction false} SumRemove(b: seq<int>, j: nat)
    requires j < |b|
    ensures Sum(b) == Sum(b[..j] + b[j + 1..]) + b[j]
    decreases |b|
  {
    var rest := b[..j] + b[j + 1..];
    if j < |b| - 1 {
      var init := b[..|b| - 1];
      SumRemove(init, j);
      assert init[..j] + init[j + 1..] == rest[..|rest| - 1];
      assert rest[|rest| - 1] == b[|b| - 1];
    } else {
      assert rest == b[..|b| - 1];
    }
  }

  /** The test the search makes on every individual: an ordering of range(n) has the sum of range(n). */
  lemma PermutationSum(v: seq<int>, n: nat)
    requires IsPermOf(v, n)
    ensures Sum(v) == Sum(Range(n))
  {
    SumOfPermutation(v, Range(n));
  }

  /** An ordering of range(n) has n elements. */
  lemma PermLength(v: seq<int>, n: nat)
    requires IsPermOf(v, n)
    ensures |v| == n
  {
    assert |multiset(v)| == |v|;
    assert |multiset(Range(n))| == n;
  }

  // ---------------------------------------------------------------
  // The rotation loop as written: list objects and the names bound to them
  // ---------------------------------------------------------------

  /**
   * Python lists are objects: `objs` holds the list objects by identity,
   * `refs` the identity each entry of `popul` is bound to.
   */
  datatype Heap = Heap(objs: seq<seq<int>>, refs: seq<nat>)

  predicate HeapOk(h: Heap) {
    forall i :: 0 <= i < |h.refs| ==> h.refs[i] < |h.objs|
  }

  /** The lists the population's entries see. */
  function Contents(h: Heap): (c: seq<seq<int>>)
    requires HeapOk(h)
    ensures |c| == |h.refs|
  {
    seq(|h.refs|, i requires 0 <= i < |h.refs| => h.objs[h.refs[i]])
  }

  /**
   * The first x iterations of the rotation loop of `mutate` as written:
   * `v = popul[x+LEN] = popul[x+LEN-1]` rebinds the entry to the previous
   * entry's list object, and the pop/append then rotates that shared object.
   */
  function RotateLoopAsWritten(h: Heap, len: nat, x: nat): (h': Heap)
    requires 1 <= len && 2 * len <= |h.refs| && x <= len && HeapOk(h)
    ensures HeapOk(h') && |h'.objs| == |h.objs| && |h'.refs| == |h.refs|
  {
    if x == 0 then h
    else
      var g := RotateLoopAsWritten(h, len, x - 1);
      var id := g.refs[x + len - 2];
      Heap(g.objs[id := RotateLeft(g.objs[id])], g.refs[x + len - 1 := id])
  }

  /** After x iterations the entries LEN-1 .. LEN+x-1 are all bound to the list object of entry LEN-1. */
  lemma {:induction false} RotateLoopShares(h: Heap, len: nat, x: nat)
    requires 1 <= len && 2 * len <= |h.refs| && x <= len && HeapOk(h)
    ensures forall i :: len - 1 <= i < len + x ==> RotateLoopAsWritten(h, len, x).refs[i] == h.refs[len - 1]
    decreases x
  {
    if x > 0 {
      RotateLoopShares(h, len, x - 1);
    }
  }

  /** After x iterations that shared object has been rotated x times. */
  lemma {:induction false} RotateLoopRotates(h: Heap, len: nat, x: nat)
    requires 1 <= len && 2 * len <= |h.refs| && x <= len && HeapOk(h)
    requires |h.objs[h.refs[len - 1]]| == len
    ensures RotateLoopAsWritten(h, len, x).objs[h.refs[len - 1]] == Rotated(h.objs[h.refs[len - 1]], x)
    decreases x
  {
    var v := h.objs[h.refs[len - 1]];
    if x == 0 {
      assert v[0..] + v[..0] == v;
    } else {
      var id := h.refs[len - 1];
      var g := RotateLoopAsWritten(h, len, x - 1);
      RotateLoopRotates(h, len, x - 1);
      RotateLoopShares(h, len, x - 1);
      assert g.refs[x + len - 2] == id;
      assert RotateLoopAsWritten(h, len, x).objs == g.objs[id := RotateLeft(g.objs[id])];
      RotateLeftRotated(v, x - 1);
    }
  }

  /**
   * As written, the whole rotation group ends up as one list object rotated
   * LEN times, which is the list it started as: every entry LEN-1 .. 2LEN-1
   * holds the old individual LEN-1 unchanged, so the rotation operator
   * produces no new ordering.
   */
  lemma RotationGroupUnchanged(h: Heap, len: nat)
    requires 1 <= len && 2 * len <= |h.refs| && HeapOk(h)
    requires |h.objs[h.refs[len - 1]]| == len
    ensures var c := Contents(RotateLoopAsWritten(h, len, len));
      forall i :: len - 1 <= i < 2 * len ==> c[i] == Contents(h)[len - 1]
  {
    var g := RotateLoopAsWritten(h, len, len);
    var id := h.refs[len - 1];
    RotateLoopShares(h, len, len);
    RotateLoopRotates(h, len, len);
    RotatedFull(h.objs[id]);
    forall i | len - 1 <= i < 2 * len
      ensures Contents(g)[i] == Contents(h)[len - 1]
    {
      assert Contents(g)[i] == g.objs[g.refs[i]];
    }
  }

  /**
   * Entry LEN as written differs from entry LEN as intended (individual
   * LEN-1 rotated once, see RotateGroup) whenever the first two files of
   * individual LEN-1 differ, which they do in every ordering of two or more files.
   */
  lemma RotationGroupMissesRotation(h: Heap, len: nat)
    requires 2 <= len && 2 * len <= |h.refs| && HeapOk(h)
    requires |h.objs[h.refs[len - 1]]| == len
    requires h.objs[h.refs[len - 1]][0] != h.objs[h.refs[len - 1]][1]
    ensures Contents(RotateLoopAsWritten(h, len, len))[len] != Rotated(Contents(h)[len - 1], 1)
  {
    RotationGroupUnchanged(h, len);
    var v := Contents(h)[len - 1];
    assert Rotated(v, 1)[0] == v[1];
  }

  // ---------------------------------------------------------------
  // Scoring: compare, evil's selection and the global optimum
  // ---------------------------------------------------------------

  /** compare(a, b): a > b when maximising, a < b when minimising. */
  predicate Better(maxi: bool, a: int, b: int) {
    if maxi then a > b else a < b
  }

  /** opti_ref: the start value of the search for a best size. */
  function OptiRef(maxi: bool): int {
    if maxi then 0 else 1000000000
  }

  /** The variables of evil's scoring loop: the running best, its position (-1 for none), and opti[0]. */
  datatype Choice = Choice(best: int, pos: int, opti: int)

  /** evil's scoring loop over the sizes of the individuals. */
  function Select(maxi: bool, ref: int, opti: int, sizes: seq<int>): (c: Choice)
    ensures -1 <= c.pos < |sizes|
  {
    if sizes == [] then Choice(ref, -1, opti)
    else
      var c := Select(maxi, ref, opti, sizes[..|sizes| - 1]);
      var siz := sizes[|sizes| - 1];
      if Better(maxi, siz, c.best) then
        Choice(siz, |sizes| - 1, if Better(maxi, siz, c.opti) then siz else c.opti)
      else c
  }

  /**
   * The selection is the first strictly best size: position -1 when no
   * size beats the reference; otherwise the size there beats the
   * reference, no size beats it, and every size before it is strictly worse.
   */
  lemma {:induction false} SelectIsFirstBest(maxi: bool, ref: int, opti: int, sizes: seq<int>)
    ensures var c := Select(maxi, ref, opti, sizes);
      && (c.pos == -1 <==> forall i :: 0 <= i < |sizes| ==> !Better(maxi, sizes[i], ref))
      && (c.pos == -1 ==> c.best == ref)
      && (c.pos >= 0 ==> c.best == sizes[c.pos] && Better(maxi, c.best, ref))
      && (forall i :: 0 <= i < |sizes| ==> !Better(maxi, sizes[i], c.best))
      && (forall i :: 0 <= i < c.pos ==> Better(maxi, c.best, sizes[i]))
    decreases |sizes|
  {
    if sizes != [] {
      var init := sizes[..|sizes| - 1];
      SelectIsFirstBest(maxi, ref, opti, init);
      var c0 := Select(maxi, ref, opti, init);
      assert forall i :: 0 <= i < |init| ==> sizes[i] == init[i];
      if c0.pos >= 0 {
        assert !Better(maxi, c0.best, ref) ==> false;
      }
    }
  }

  /** opti[0] only ever moves to a strictly better size, and ends as the better of its old value and the best size. */
  lemma {:induction false} OptiOnlyImproves(maxi: bool, ref: int, opti: int, sizes: seq<int>)
    requires !Better(maxi, ref, opti) || ref == opti
    ensures var c := Select(maxi, ref, opti, sizes);
      && (c.opti == opti || Better(maxi, c.opti, opti))
      && c.opti == (if Better(maxi, c.best, opti) then c.best else opti)
    decreases |sizes|
  {
    if sizes != [] {
      OptiOnlyImproves(maxi, ref, opti, sizes[..|sizes| - 1]);
    }
  }

  // ---------------------------------------------------------------
  // The search state
  // ---------------------------------------------------------------

  /** The index drawn by rnd(): one of 0 .. LEN-1. */
  predicate Draws(ds: seq<nat>, len: nat) {
    forall i :: 0 <= i < |ds| ==> ds[i] < len
  }

  /**
   * mutate as intended, on the orderings: individuals 0 .. LEN-1 get a swap
   * of positions a and b, individuals LEN .. 2LEN-1 are successive
   * rotations of individual LEN-1 (taken before its swap), individuals
   * 2LEN .. 3LEN-1 move one element to the end, and the last one is kept.
   */
  function Mutated(p: seq<seq<int>>, len: nat, a: seq<nat>, b: seq<nat>, moves: seq<nat>): (q: seq<seq<int>>)
    requires |p| == 3 * len + 1 && |a| == len && |b| == len && |moves| == len
    requires Draws(a, len) && Draws(b, len) && Draws(moves, len)
    requires forall i :: 0 <= i < |p| ==> |p[i]| == len
    ensures |q| == |p|
  {
    seq(|p|, i requires 0 <= i < |p| =>
      if i < len then Swap(p[i], a[i], b[i])
      else if i < 2 * len then Rotated(p[len - 1], i - len + 1)
      else if i < 3 * len then MoveToEnd(p[i], moves[i - 2 * len])
      else p[i])
  }

  /** Every individual of a mutated population of orderings is still an ordering of range(LEN). */
  lemma MutatedKeepsOrderings(p: seq<seq<int>>, len: nat, a: seq<nat>, b: seq<nat>, moves: seq<nat>)
    requires |p| == 3 * len + 1 && |a| == len && |b| == len && |moves| == len
    requires Draws(a, len) && Draws(b, len) && Draws(moves, len)
    requires forall i :: 0 <= i < |p| ==> IsPermOf(p[i], len) && |p[i]| == len
    ensures forall i :: 0 <= i < |p| ==> IsPermOf(Mutated(p, len, a, b, moves)[i], len)
    ensures forall i :: 0 <= i < |p| ==> |Mutated(p, len, a, b, moves)[i]| == len
  {
    var q := Mutated(p, len, a, b, moves);
    forall i | 0 <= i < |p|
      ensures IsPermOf(q[i], len) && |q[i]| == len
    {
      if i < len {
        assert q[i] == Swap(p[i], a[i], b[i]);
      } else if i < 2 * len {
        assert q[i] == Rotated(p[len - 1], i - len + 1);
        RotatedIsPermutation(p[len - 1], i - len + 1);
      } else if i < 3 * len {
        assert q[i] == MoveToEnd(p[i], moves[i - 2 * len]);
      }
    }
  }

  /** The sizes of the archives the individuals give, in order. */
  function Sizes(p: seq<seq<int>>, size: seq<int> -> int): (s: seq<int>)
    ensures |s| == |p|
    ensures forall i :: 0 <= i < |p| ==> s[i] == size(p[i])
  {
    seq(|p|, i requires 0 <= i < |p| => size(p[i]))
  }

  /** A population of POP = 3*LEN + 1 lists of LEN files each. */
  predicate Shaped(p: seq<seq<int>>, len: nat) {
    |p| == 3 * len + 1 && forall i :: 0 <= i < |p| ==> |p[i]| == len
  }

  /**
   * The rotation loop of mutate as intended: `popul[x+LEN] =
   * popul[x+LEN-1][:]`, then the copy is rotated once; entry LEN + k ends
   * as individual LEN-1 rotated k + 1 times, and no other entry changes.
   */
  method RotateGroup(p: seq<seq<int>>, len: nat) returns (pp: seq<seq<int>>)
    requires Shaped(p, len)
    ensures |pp| == |p|
    ensures forall i :: len <= i < 2 * len ==> pp[i] == Rotated(p[len - 1], i - len + 1)
    ensures forall i :: 0 <= i < |p| && !(len <= i < 2 * len) ==> pp[i] == p[i]
  {
    pp := p;
    for x := 0 to len
      invariant |pp| == |p|
      invariant forall i :: len <= i < len + x ==> pp[i] == Rotated(p[len - 1], i - len + 1)
      invariant forall i :: 0 <= i < |p| && !(len <= i < len + x) ==> pp[i] == p[i]
    {
      var v := pp[x + len - 1];
      if x == 0 {
        assert v[0..] + v[..0] == v;
      }
      assert v == Rotated(p[len - 1], x);
      RotateLeftRotated(p[len - 1], x);
      pp := pp[x + len := RotateLeft(v)];
    }
  }

  /** The swap loop of mutate: individual x < LEN gets positions a[x] and b[x] swapped. */
  method SwapGroup(p: seq<seq<int>>, len: nat, a: seq<nat>, b: seq<nat>) returns (pp: seq<seq<int>>)
    requires Shaped(p, len) && |a| == len && |b| == len && Draws(a, len) && Draws(b, len)
    ensures |pp| == |p|
    ensures forall i :: 0 <= i < len ==> pp[i] == Swap(p[i], a[i], b[i])
    ensures forall i :: len <= i < |p| ==> pp[i] == p[i]
  {
    pp := p;
    for x := 0 to len
      invariant |pp| == |p|
      invariant forall i :: 0 <= i < x ==> pp[i] == Swap(p[i], a[i], b[i])
      invariant forall i :: x <= i < |p| ==> pp[i] == p[i]
    {
      var v := pp[x];
      var c := v[a[x]];
      v := v[a[x] := v[b[x]]];
      v := v[b[x] := c];
      pp := pp[x := v];
    }
  }

  /** The last loop of mutate: individual 2LEN + x moves the file at moves[x] to the end. */
  method MoveGroup(p: seq<seq<int>>, len: nat, moves: seq<nat>) returns (pp: seq<seq<int>>)
    requires Shaped(p, len) && |moves| == len && Draws(moves, len)
    ensures |pp| == |p|
    ensures forall i :: 2 * len <= i < 3 * len ==> pp[i] == MoveToEnd(p[i], moves[i - 2 * len])
    ensures forall i :: 0 <= i < |p| && !(2 * len <= i < 3 * len) ==> pp[i] == p[i]
  {
    pp := p;
    for x := 0 to len
      invariant |pp| == |p|
      invariant forall i :: 2 * len <= i < 2 * len + x ==> pp[i] == MoveToEnd(p[i], moves[i - 2 * len])
      invariant forall i :: 0 <= i < |p| && !(2 * len <= i < 2 * len + x) ==> pp[i] == p[i]
    {
      var v := pp[x + 2 * len];
      var c := v[moves[x]];
      v := v[..moves[x]] + v[moves[x] + 1..];
      v := v + [c];
      pp := pp[x + 2 * len := v];
    }
  }

  /**
   * The scoring loop of evil: the size of every individual, the first
   * strictly best one and opti[0] raised by it.
   */
  method Score(maxi: bool, opti: int, p: seq<seq<int>>, size: seq<int> -> int)
    returns (fits: seq<int>, best: int, pos: int, top: int)
    ensures fits == Sizes(p, size)
    ensures Choice(best, pos, top) == Select(maxi, OptiRef(maxi), opti, Sizes(p, size))
  {
    ghost var sizes := Sizes(p, size);
    fits := [];
    best, pos, top := OptiRef(maxi), -1, opti;
    for x := 0 to |p|
      invariant fits == sizes[..x]
      invariant Choice(best, pos, top) == Select(maxi, OptiRef(maxi), opti, sizes[..x])
    {
      assert sizes[..x + 1][..x] == sizes[..x];
      var siz := size(p[x]);
      fits := fits + [siz];
      if Better(maxi, siz, best) {
        best := siz;
        pos := x;
        if Better(maxi, siz, top) {
          top := siz;
        }
      }
    }
    assert sizes[..|p|] == sizes;
  }

  /** Every entry a copy of individual k. */
  function Spread(p: seq<seq<int>>, k: nat): (q: seq<seq<int>>)
    requires k < |p|
    ensures |q| == |p| && forall i :: 0 <= i < |p| ==> q[i] == p[k]
  {
    seq(|p|, _ => p[k])
  }

  /** Python's index -1 for "no position": the individual kept by evil. */
  function Kept(pos: int, n: nat): (k: nat)
    requires -1 <= pos < n && 0 < n
    ensures k < n && (pos >= 0 ==> k == pos) && (pos == -1 ==> k == n - 1)
  {
    if pos == -1 then n - 1 else pos
  }

  /** The three loops of mutate, one after the other, give Mutated. */
  lemma GroupsMakeMutated(p: seq<seq<int>>, p1: seq<seq<int>>, p2: seq<seq<int>>, p3: seq<seq<int>>,
                          len: nat, a: seq<nat>, b: seq<nat>, moves: seq<nat>)
    requires Shaped(p, len) && |a| == len && |b| == len && |moves| == len
    requires Draws(a, len) && Draws(b, len) && Draws(moves, len)
    requires |p1| == |p| && |p2| == |p| && |p3| == |p|
    requires forall i :: len <= i < 2 * len ==> p1[i] == Rotated(p[len - 1], i - len + 1)
    requires forall i :: 0 <= i < |p| && !(len <= i < 2 * len) ==> p1[i] == p[i]
    requires forall i :: 0 <= i < len ==> p2[i] == Swap(p1[i], a[i], b[i])
    requires forall i :: len <= i < |p| ==> p2[i] == p1[i]
    requires forall i :: 2 * len <= i < 3 * len ==> p3[i] == MoveToEnd(p2[i], moves[i - 2 * len])
    requires forall i :: 0 <= i < |p| && !(2 * len <= i < 3 * len) ==> p3[i] == p2[i]
    ensures p3 == Mutated(p, len, a, b, moves)
  {
    var q := Mutated(p, len, a, b, moves);
    forall i | 0 <= i < |p|
      ensures p3[i] == q[i]
    {
      if i < len {
        assert p3[i] == Swap(p[i], a[i], b[i]);
      } else if i < 2 * len {
        assert p3[i] == Rotated(p[len - 1], i - len + 1);
      } else if i < 3 * len {
        assert p3[i] == MoveToEnd(p[i], moves[i - 2 * len]);
      }
    }
  }

  /** The three loops of mutate on a population of lists. */
  method MutateAll(p: seq<seq<int>>, len: nat, a: seq<nat>, b: seq<nat>, moves: seq<nat>) returns (q: seq<seq<int>>)
    requires Shaped(p, len) && |a| == len && |b| == len && |moves| == len
    requires Draws(a, len) && Draws(b, len) && Draws(moves, len)
    ensures q == Mutated(p, len, a, b, moves)
  {
    var p1 := RotateGroup(p, len);
    var p2 := SwapGroup(p1, len, a, b);
    q := MoveGroup(p2, len, moves);
    GroupsMakeMutated(p, p1, p2, q, len, a, b, moves);
  }

  /** The state of one run of `gen`: the closure variables popul, fitn and opti[0]. */
  class Search {
    const maxi: bool
    const len: nat
    var popul: seq<seq<int>>
    var fitn: seq<int>
    var opti: int

    /** POP = 3*LEN + 1 orderings of range(LEN), one fitness per individual. */
    predicate Valid()
      reads this
    {
      && |popul| == 3 * len + 1
      && |fitn| == |popul|
      && forall i :: 0 <= i < |popul| ==> IsPermOf(popul[i], len) && |popul[i]| == len
    }

    /** The set-up of `gen`: every individual is range(LEN), every fitness 0, opti[0] the reference. */
    constructor (len: nat, maxi: bool)
      ensures Valid() && this.len == len && this.maxi == maxi
      ensures popul == seq(3 * len + 1, _ => Range(len))
      ensures fitn == seq(3 * len + 1, _ => 0) && opti == OptiRef(maxi)
    {
      this.len := len;
      this.maxi := maxi;
      popul := seq(3 * len + 1, _ => Range(len));
      fitn := seq(3 * len + 1, _ => 0);
      opti := OptiRef(maxi);
    }

    /**
     * mutate, with the rotation loop copying before it rotates; `a` and `b`
     * are the swap positions drawn for individuals 0 .. LEN-1, `moves` the
     * positions drawn for individuals 2LEN .. 3LEN-1.
     */
    method Mutate(a: seq<nat>, b: seq<nat>, moves: seq<nat>)
      requires Valid()
      requires |a| == len && |b| == len && |moves| == len
      requires Draws(a, len) && Draws(b, len) && Draws(moves, len)
      modifies this
      ensures Valid()
      ensures popul == Mutated(old(popul), len, a, b, moves)
      ensures fitn == old(fitn) && opti == old(opti)
    {
      var p := popul;
      popul := MutateAll(p, len, a, b, moves);
      MutatedKeepsOrderings(p, len, a, b, moves);
    }

    /**
     * evil: score every individual, keep the first strictly best one (the
     * last individual when none beats the reference), raise opti[0] when
     * it is beaten, and copy the kept individual over all the others.
     */
    method Evil(size: seq<int> -> int) returns (best: int)
      requires Valid()
      modifies this
      ensures Valid()
      ensures fitn == Sizes(old(popul), size)
      ensures var c := Select(maxi, OptiRef(maxi), old(opti), Sizes(old(popul), size));
        best == c.best && opti == c.opti && popul == Spread(old(popul), Kept(c.pos, |old(popul)|))
    {
      var p := popul;
      var fits, pos, top;
      fits, best, pos, top := Score(maxi, opti, p, size);
      forall x | 0 <= x < |p|
        ensures Sum(p[x]) == Sum(Range(len))
      {
        PermutationSum(p[x], len);
      }
      var src := Kept(pos, |p|);
      var pp := p;
      for x := 0 to |p|
        invariant |pp| == |p|
        invariant forall i :: 0 <= i < x ==> pp[i] == p[src]
        invariant forall i :: x <= i < |p| ==> pp[i] == p[i]
      {
        if x == pos {
          continue;
        }
        pp := pp[x := pp[src][..]];
      }
      popul, fitn, opti := pp, fits, top;
    }
  }
}

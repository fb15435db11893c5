/**
 Repair of the point ranges of structured joins (fix_point_ranges in maia/io/fix_tree.py, gc_transform_point in
 maia/pytree/utils.py, Transform in maia/pytree/sids/node_inspect.py, gc_is_reference in
 maia/algo/dist/matching_jns_tools.py).
 */
module PointRanges {
  import opened Basics
  import opened Counting
  import BlockSize
  import Strings

  /** First and last index along each axis. */
  type Range = seq<(int, int)>

  function Sign(x: int): int { if x > 0 then 1 else if x < 0 then -1 else 0 }

  /** A signed permutation of the axes, numbered from 1. */
  ghost predicate IsTransform(t: seq<int>) {
    && (forall k :: 0 <= k < |t| ==> 1 <= Abs(t[k]) <= |t|)
    && forall k, l :: 0 <= k < l < |t| ==> Abs(t[k]) != Abs(t[l])
  }

  /** The axis of the opposite zone that corresponds to axis `k`. */
  function DonorAxis(t: seq<int>, k: nat): int
    requires k < |t|
  {
    Abs(t[k]) - 1
  }

  /** Every axis of the opposite zone corresponds to an axis. */
  lemma {:induction false} AxisOf(t: seq<int>, j: nat) returns (k: nat)
    requires IsTransform(t) && j < |t|
    ensures k < |t| && DonorAxis(t, k) == j
  {
    if i :| 0 <= i < |t| && Abs(t[i]) - 1 == j { k := i; return; }
    var s := seq(|t|, i requires 0 <= i < |t| => if Abs(t[i]) - 1 < j then Abs(t[i]) - 1 else Abs(t[i]) - 2);
    forall i, l | 0 <= i < l < |s| ensures s[i] != s[l] { assert Abs(t[i]) != Abs(t[l]); }
    Pigeonhole(s, |t| - 1);
    assert false;
  }

  // ---------------------------------------------------------------- the transform matrix

  function Entry(t: seq<int>, i: int, k: nat): int
    requires k < |t|
  {
    if Abs(t[k]) == Abs(i + 1) then Sign(t[k]) else 0
  }

  /** Row `i` of the matrix times a vector, first `n` terms. */
  function Dot(t: seq<int>, i: int, v: seq<int>, n: nat): int
    requires n <= |t| == |v|
  {
    if n == 0 then 0 else Dot(t, i, v, n - 1) + Entry(t, i, n - 1) * v[n - 1]
  }

  function Minus(x: seq<int>, y: seq<int>): (r: seq<int>)
    requires |x| == |y|
    ensures |r| == |x| && forall k :: 0 <= k < |x| ==> r[k] == x[k] - y[k]
  {
    seq(|x|, k requires 0 <= k < |x| => x[k] - y[k])
  }

  /** The point of the opposite zone: matrix times the displacement from one start, plus the other start. */
  function TransformPoint(t: seq<int>, x: seq<int>, start: seq<int>, startD: seq<int>): (y: seq<int>)
    requires |x| == |start| == |startD| == |t|
    ensures |y| == |t|
  {
    seq(|t|, i requires 0 <= i < |t| => Dot(t, i, Minus(x, start), |t|) + startD[i])
  }

  /** The matrix moves each component to its axis, with its sign. */
  lemma {:induction false} DotIsSigned(t: seq<int>, v: seq<int>, k: nat, n: nat)
    requires IsTransform(t) && k < |t| == |v| && n <= |t|
    ensures Dot(t, DonorAxis(t, k), v, n) == if k < n then Sign(t[k]) * v[k] else 0
    decreases n
  {
    if n > 0 {
      DotIsSigned(t, v, k, n - 1);
      if k != n - 1 { assert Abs(t[k]) != Abs(t[n - 1]); }
    }
  }

  lemma {:induction false} TransformAt(t: seq<int>, x: seq<int>, start: seq<int>, startD: seq<int>, k: nat)
    requires IsTransform(t) && |x| == |start| == |startD| == |t| && k < |t|
    ensures 0 <= DonorAxis(t, k) < |t|
    ensures TransformPoint(t, x, start, startD)[DonorAxis(t, k)] == Sign(t[k]) * (x[k] - start[k]) + startD[DonorAxis(t, k)]
  {
    DotIsSigned(t, Minus(x, start), k, |t|);
  }

  /** Two transforms undo each other. */
  ghost predicate Inverse(t: seq<int>, u: seq<int>) {
    && IsTransform(t) && IsTransform(u) && |t| == |u|
    && forall k :: 0 <= k < |t| ==> u[DonorAxis(t, k)] == Sign(t[k]) * (k + 1)
  }

  lemma {:induction false} InverseAt(t: seq<int>, u: seq<int>, k: nat)
    requires Inverse(t, u) && k < |t|
    ensures 0 <= DonorAxis(t, k) < |t| && DonorAxis(u, DonorAxis(t, k)) == k && Sign(u[DonorAxis(t, k)]) == Sign(t[k])
  {
    assert u[DonorAxis(t, k)] == Sign(t[k]) * (k + 1);
  }

  /** Going to the opposite zone and back is the identity. */
  lemma {:induction false} TransformRoundTrip(t: seq<int>, u: seq<int>, x: seq<int>, start: seq<int>, startD: seq<int>)
    requires Inverse(t, u) && |x| == |start| == |startD| == |t|
    ensures TransformPoint(u, TransformPoint(t, x, start, startD), startD, start) == x
  {
    var y := TransformPoint(t, x, start, startD);
    forall k | 0 <= k < |t| ensures TransformPoint(u, y, startD, start)[k] == x[k] {
      TransformAt(t, x, start, startD, k);
      InverseAt(t, u, k);
      TransformAt(u, y, startD, start, DonorAxis(t, k));
    }
  }

  // ---------------------------------------------------------------- the repair

  function Swap(p: (int, int)): (int, int) { (p.1, p.0) }

  function Extent(p: (int, int)): int { p.1 - p.0 }

  /** The range and the opposite range do not go the same way along axis `k`. */
  predicate Mismatch(t: seq<int>, pr: Range, prd: Range, k: nat)
    requires k < |t| == |pr| && 0 <= DonorAxis(t, k) < |prd|
  {
    Extent(pr[k]) != Sign(t[k]) * Extent(prd[DonorAxis(t, k)])
  }

  ghost predicate SameDim(t: seq<int>, pr: Range, prd: Range) {
    IsTransform(t) && |pr| == |prd| == |t|
  }

  /** A result of the repair: along mismatched axes, ends are swapped in the opposite range on the reference side, else in the range. */
  ghost predicate Repaired(t: seq<int>, reference: bool, pr: Range, prd: Range, prAfter: Range, prdAfter: Range)
    requires SameDim(t, pr, prd)
  {
    |prAfter| == |prdAfter| == |t| && forall k: nat {:trigger RepairedAt(t, reference, pr, prd, prAfter, prdAfter, k)} ::
      k < |t| ==> RepairedAt(t, reference, pr, prd, prAfter, prdAfter, k)
  }

  ghost predicate RepairedAt(t: seq<int>, reference: bool, pr: Range, prd: Range, prAfter: Range, prdAfter: Range, k: nat)
    requires SameDim(t, pr, prd) && k < |t| == |prAfter| == |prdAfter|
  {
    var j := DonorAxis(t, k);
    && prAfter[k] == (if !reference && Mismatch(t, pr, prd, k) then Swap(pr[k]) else pr[k])
    && prdAfter[j] == (if reference && Mismatch(t, pr, prd, k) then Swap(prd[j]) else prd[j])
  }

  /** The absolute extents agree. */
  ghost predicate ExtentsAgree(t: seq<int>, pr: Range, prd: Range)
    requires SameDim(t, pr, prd)
  {
    forall k: nat {:trigger ExtentsAgreeAt(t, pr, prd, k)} :: k < |t| ==> ExtentsAgreeAt(t, pr, prd, k)
  }

  ghost predicate ExtentsAgreeAt(t: seq<int>, pr: Range, prd: Range, k: nat)
    requires SameDim(t, pr, prd) && k < |t|
  {
    Abs(Extent(pr[k])) == Abs(Extent(prd[DonorAxis(t, k)]))
  }

  function Starts(pr: Range): (s: seq<int>)
    ensures |s| == |pr| && forall k :: 0 <= k < |pr| ==> s[k] == pr[k].0
  {
    seq(|pr|, k requires 0 <= k < |pr| => pr[k].0)
  }

  function Ends(pr: Range): (s: seq<int>)
    ensures |s| == |pr| && forall k :: 0 <= k < |pr| ==> s[k] == pr[k].1
  {
    seq(|pr|, k requires 0 <= k < |pr| => pr[k].1)
  }

  /** The transform sends the end of the range to the end of the opposite range: what the routine asserts. */
  ghost predicate EndsMatch(t: seq<int>, pr: Range, prd: Range)
    requires SameDim(t, pr, prd)
  {
    TransformPoint(t, Ends(pr), Starts(pr), Starts(prd)) == Ends(prd)
  }

  lemma {:induction false} EndsMatchIffNoMismatch(t: seq<int>, pr: Range, prd: Range)
    requires SameDim(t, pr, prd)
    ensures EndsMatch(t, pr, prd) <==> forall k: nat :: k < |t| ==> !Mismatch(t, pr, prd, k)
  {
    var y := TransformPoint(t, Ends(pr), Starts(pr), Starts(prd));
    forall k: nat | k < |t| ensures y[DonorAxis(t, k)] == prd[DonorAxis(t, k)].1 <==> !Mismatch(t, pr, prd, k) {
      TransformAt(t, Ends(pr), Starts(pr), Starts(prd), k);
      SignCases(t[k]);
    }
    if forall k: nat :: k < |t| ==> !Mismatch(t, pr, prd, k) {
      forall j: nat | j < |t| ensures y[j] == Ends(prd)[j] { var k := AxisOf(t, j); assert !Mismatch(t, pr, prd, k); }
    } else {
      var k: nat :| k < |t| && Mismatch(t, pr, prd, k);
      assert y[DonorAxis(t, k)] != Ends(prd)[DonorAxis(t, k)];
    }
  }

  lemma {:induction false} SignCases(x: int)
    requires x != 0
    ensures forall a, b :: a == Sign(x) * b <==> Sign(x) * a == b
    ensures forall b :: Sign(x) * -b == -(Sign(x) * b) && Abs(Sign(x) * b) == Abs(b)
  {
  }

  /** Along one axis, a swap on either side makes the ends match exactly when the absolute extents agree. */
  lemma {:induction false} RepairMatchesAt(t: seq<int>, reference: bool, pr: Range, prd: Range, prAfter: Range, prdAfter: Range, k: nat)
    requires SameDim(t, pr, prd) && Repaired(t, reference, pr, prd, prAfter, prdAfter) && k < |t|
    ensures !Mismatch(t, prAfter, prdAfter, k) <==> ExtentsAgreeAt(t, pr, prd, k)
  {
    assert RepairedAt(t, reference, pr, prd, prAfter, prdAfter, k);
    SignCases(t[k]);
  }

  /** The final assertion holds exactly when the absolute extents agree under the transform. */
  lemma {:induction false} AssertionIffExtentsAgree(t: seq<int>, reference: bool, pr: Range, prd: Range, prAfter: Range, prdAfter: Range)
    requires SameDim(t, pr, prd) && Repaired(t, reference, pr, prd, prAfter, prdAfter)
    ensures EndsMatch(t, prAfter, prdAfter) <==> ExtentsAgree(t, pr, prd)
  {
    EndsMatchIffNoMismatch(t, prAfter, prdAfter);
    forall k: nat | k < |t| ensures !Mismatch(t, prAfter, prdAfter, k) <==> ExtentsAgreeAt(t, pr, prd, k) {
      RepairMatchesAt(t, reference, pr, prd, prAfter, prdAfter, k);
    }
  }

  predicate Between(p: (int, int), x: int) {
    p.0 <= x <= p.1 || p.1 <= x <= p.0
  }

  /** The points of a window. */
  ghost predicate InWindow(pr: Range, x: seq<int>) {
    |x| == |pr| && forall k :: 0 <= k < |x| ==> Between(pr[k], x[k])
  }

  /** Both windows keep their points. */
  lemma {:induction false} WindowsKept(t: seq<int>, reference: bool, pr: Range, prd: Range, prAfter: Range, prdAfter: Range, x: seq<int>)
    requires SameDim(t, pr, prd) && Repaired(t, reference, pr, prd, prAfter, prdAfter)
    ensures InWindow(prAfter, x) <==> InWindow(pr, x)
    ensures InWindow(prdAfter, x) <==> InWindow(prd, x)
  {
    forall k: nat | k < |t| ensures prAfter[k] == pr[k] || prAfter[k] == Swap(pr[k]) {
      assert RepairedAt(t, reference, pr, prd, prAfter, prdAfter, k);
    }
    forall j: nat | j < |t| ensures prdAfter[j] == prd[j] || prdAfter[j] == Swap(prd[j]) {
      var k := AxisOf(t, j);
      assert RepairedAt(t, reference, pr, prd, prAfter, prdAfter, k);
    }
  }

  lemma {:induction false} BetweenMoves(p: (int, int), q: (int, int), s: int, x: int)
    requires (s == 1 || s == -1) && Extent(p) == s * Extent(q)
    ensures Between(p, x) <==> Between(q, s * (x - p.0) + q.0)
  {
  }

  /** Once ends match, the transform sends the points of the window to the points of the opposite window. */
  lemma {:induction false} TransformMapsWindow(t: seq<int>, pr: Range, prd: Range, x: seq<int>)
    requires SameDim(t, pr, prd) && EndsMatch(t, pr, prd) && |x| == |t|
    ensures InWindow(pr, x) <==> InWindow(prd, TransformPoint(t, x, Starts(pr), Starts(prd)))
  {
    var y := TransformPoint(t, x, Starts(pr), Starts(prd));
    EndsMatchIffNoMismatch(t, pr, prd);
    forall k: nat | k < |t| ensures Between(pr[k], x[k]) <==> Between(prd[DonorAxis(t, k)], y[DonorAxis(t, k)]) {
      assert !Mismatch(t, pr, prd, k);
      TransformAt(t, x, Starts(pr), Starts(prd), k);
      BetweenMoves(pr[k], prd[DonorAxis(t, k)], Sign(t[k]), x[k]);
    }
    if InWindow(pr, x) {
      forall j: nat | j < |t| ensures Between(prd[j], y[j]) { var k := AxisOf(t, j); }
    }
    if InWindow(prd, y) {
      forall k: nat | k < |t| ensures Between(pr[k], x[k]) { assert Between(prd[DonorAxis(t, k)], y[DonorAxis(t, k)]); }
    }
  }

  // ---------------------------------------------------------------- the reference side

  function Sum(pr: Range): int {
    if pr == [] then 0 else Sum(pr[..|pr| - 1]) + pr[|pr| - 1].0 + pr[|pr| - 1].1
  }

  /** Whether a join is the reference of its pair; undetermined when both sides look the same or have no normal axis. */
  function IsReference(zone: string, opp: string, pr: Range, prd: Range): Option<bool> {
    if Strings.Less(zone, opp) then Some(true)
    else if Strings.Less(opp, zone) then Some(false)
    else
      var axis, axisD := BlockSize.NormalAxis(pr), BlockSize.NormalAxis(prd);
      if axis.None? || axisD.None? || axis.value >= |pr| || axisD.value >= |prd| then None
      else if axis.value != axisD.value then Some(axis.value < axisD.value)
      else
        var at, atD := Abs(pr[axis.value].0), Abs(prd[axisD.value].0);
        if at != atD then Some(at < atD)
        else if Sum(pr) != Sum(prd) then Some(Sum(pr) < Sum(prd))
        else None
  }

  /** Exactly one side of a pair is the reference, or neither can tell. */
  lemma {:induction false} OneSideIsReference(zone: string, opp: string, pr: Range, prd: Range)
    ensures IsReference(opp, zone, prd, pr)
            == match IsReference(zone, opp, pr, prd) case None => None case Some(b) => Some(!b)
  {
    Strings.LessIsTotal(zone, opp);
  }

  /** The sum takes both ends of every axis. */
  lemma {:induction false} SumIsTotal(p: (int, int), a: Range, b: Range)
    ensures Sum([]) == 0 && Sum([p]) == p.0 + p.1 && Sum(a + b) == Sum(a) + Sum(b)
    decreases |b|
  {
    assert [p][..0] == [];
    if b == [] {
      assert a + b == a;
    } else {
      SumIsTotal(p, a, b[..|b| - 1]);
      assert (a + b)[..|a + b| - 1] == a + b[..|b| - 1];
    }
  }

  /** Of two faces of one zone, the one with the smaller normal axis, then the smaller position, then the smaller sum. */
  predicate SmallerFace(pr: Range, i: nat, prd: Range, j: nat)
    requires i < |pr| && j < |prd|
  {
    i < j || (i == j && (Abs(pr[i].0) < Abs(prd[j].0) || (Abs(pr[i].0) == Abs(prd[j].0) && Sum(pr) < Sum(prd))))
  }

  /** One side comes before the other: by the path of its zone, or within a zone by its range. */
  ghost predicate ComesFirst(zone: string, opp: string, pr: Range, prd: Range) {
    || Strings.Precedes(zone, opp)
    || (zone == opp && exists i: nat, j: nat :: BlockSize.OnlyConstant(pr, i) && BlockSize.OnlyConstant(prd, j) && SmallerFace(pr, i, prd, j))
  }

  /** The reference is the side that comes first. */
  lemma {:induction false} ReferenceComesFirst(zone: string, opp: string, pr: Range, prd: Range)
    ensures IsReference(zone, opp, pr, prd) == Some(true) <==> ComesFirst(zone, opp, pr, prd)
    ensures IsReference(zone, opp, pr, prd) == Some(false) <==> ComesFirst(opp, zone, prd, pr)
  {
    ReferenceIsFirst(zone, opp, pr, prd);
    ReferenceIsFirst(opp, zone, prd, pr);
    OneSideIsReference(zone, opp, pr, prd);
  }

  lemma {:induction false} ReferenceIsFirst(zone: string, opp: string, pr: Range, prd: Range)
    ensures IsReference(zone, opp, pr, prd) == Some(true) <==> ComesFirst(zone, opp, pr, prd)
  {
    Strings.LessIsPrecedes(zone, opp);
    Strings.LessIsTotal(zone, opp);
    if zone == opp { SameZoneReference(zone, pr, prd); }
  }

  lemma {:induction false} SameZoneReference(zone: string, pr: Range, prd: Range)
    ensures IsReference(zone, zone, pr, prd) == Some(true)
            <==> exists i: nat, j: nat :: BlockSize.OnlyConstant(pr, i) && BlockSize.OnlyConstant(prd, j) && SmallerFace(pr, i, prd, j)
  {
    Strings.LessIsIrreflexive(zone);
    var axis, axisD := BlockSize.NormalAxis(pr), BlockSize.NormalAxis(prd);
    forall i: nat ensures axis == Some(i) <==> BlockSize.OnlyConstant(pr, i) { BlockSize.NormalIsOnlyConstant(pr, i); }
    forall j: nat ensures axisD == Some(j) <==> BlockSize.OnlyConstant(prd, j) { BlockSize.NormalIsOnlyConstant(prd, j); }
    if axis.Some? && axisD.Some? {
      assert BlockSize.OnlyConstant(pr, axis.value) && BlockSize.OnlyConstant(prd, axisD.value);
    }
  }

  // ---------------------------------------------------------------- the symmetry of pairs

  lemma {:induction false} MismatchIsMutual(t: seq<int>, u: seq<int>, pr: Range, prd: Range, k: nat)
    requires Inverse(t, u) && SameDim(t, pr, prd) && k < |t|
    ensures 0 <= DonorAxis(t, k) < |t| && 0 <= DonorAxis(u, DonorAxis(t, k)) < |t|
    ensures Mismatch(u, prd, pr, DonorAxis(t, k)) <==> Mismatch(t, pr, prd, k)
  {
    InverseAt(t, u, k);
    SignCases(t[k]);
  }

  lemma {:induction false} SymmetryAt(t: seq<int>, u: seq<int>, reference: bool, pr: Range, prd: Range,
                                      prA: Range, prdA: Range, prB: Range, prdB: Range, k: nat)
    requires Inverse(t, u) && SameDim(t, pr, prd) && k < |t|
    requires Repaired(t, reference, pr, prd, prA, prdA) && Repaired(u, !reference, prd, pr, prB, prdB)
    ensures 0 <= DonorAxis(t, k) < |t| && prA[k] == prdB[k] && prdA[DonorAxis(t, k)] == prB[DonorAxis(t, k)]
  {
    InverseAt(t, u, k);
    MismatchIsMutual(t, u, pr, prd, k);
    assert RepairedAt(t, reference, pr, prd, prA, prdA, k);
    assert RepairedAt(u, !reference, prd, pr, prB, prdB, DonorAxis(t, k));
  }

  /** Two joins of a pair that mirror each other still do after each is repaired on its own. */
  lemma {:induction false} SymmetryKept(t: seq<int>, u: seq<int>, reference: bool, pr: Range, prd: Range,
                                        prA: Range, prdA: Range, prB: Range, prdB: Range)
    requires Inverse(t, u) && SameDim(t, pr, prd)
    requires Repaired(t, reference, pr, prd, prA, prdA) && Repaired(u, !reference, prd, pr, prB, prdB)
    ensures prA == prdB && prdA == prB
  {
    forall k: nat | k < |t| ensures prA[k] == prdB[k] { SymmetryAt(t, u, reference, pr, prd, prA, prdA, prB, prdB, k); }
    forall j: nat | j < |t| ensures prdA[j] == prB[j] {
      var k := AxisOf(t, j);
      SymmetryAt(t, u, reference, pr, prd, prA, prdA, prB, prdB, k);
    }
  }

  ghost predicate AnyMismatch(t: seq<int>, pr: Range, prd: Range)
    requires SameDim(t, pr, prd)
  {
    exists k: nat :: k < |t| && Mismatch(t, pr, prd, k)
  }

  /** The join was repaired by its own idea of which side is the reference. */
  ghost predicate Fixed(t: seq<int>, zone: string, opp: string, pr: Range, prd: Range, prAfter: Range, prdAfter: Range)
    requires SameDim(t, pr, prd)
  {
    exists reference: bool {:trigger Repaired(t, reference, pr, prd, prAfter, prdAfter)} ::
      Repaired(t, reference, pr, prd, prAfter, prdAfter) && (AnyMismatch(t, pr, prd) ==> IsReference(zone, opp, pr, prd) == Some(reference))
  }

  lemma {:induction false} ReferenceIdle(t: seq<int>, reference: bool, other: bool, pr: Range, prd: Range, prAfter: Range, prdAfter: Range)
    requires SameDim(t, pr, prd) && !AnyMismatch(t, pr, prd) && Repaired(t, reference, pr, prd, prAfter, prdAfter)
    ensures Repaired(t, other, pr, prd, prAfter, prdAfter)
  {
    forall k: nat | k < |t| ensures RepairedAt(t, other, pr, prd, prAfter, prdAfter, k) {
      assert RepairedAt(t, reference, pr, prd, prAfter, prdAfter, k);
    }
  }

  lemma {:induction false} AnyMismatchIsMutual(t: seq<int>, u: seq<int>, pr: Range, prd: Range)
    requires Inverse(t, u) && SameDim(t, pr, prd)
    ensures AnyMismatch(u, prd, pr) <==> AnyMismatch(t, pr, prd)
  {
    if k: nat :| k < |t| && Mismatch(t, pr, prd, k) { MismatchIsMutual(t, u, pr, prd, k); }
    if j: nat :| j < |u| && Mismatch(u, prd, pr, j) {
      var k := AxisOf(t, j);
      MismatchIsMutual(t, u, pr, prd, k);
    }
  }

  /** The ranges of a pair of joins remain mirror images, each join being repaired without looking at the other. */
  lemma {:induction false} PairStaysSymmetric(t: seq<int>, u: seq<int>, zone: string, opp: string, pr: Range, prd: Range,
                                              prA: Range, prdA: Range, prB: Range, prdB: Range)
    requires Inverse(t, u) && SameDim(t, pr, prd)
    requires Fixed(t, zone, opp, pr, prd, prA, prdA) && Fixed(u, opp, zone, prd, pr, prB, prdB)
    ensures prA == prdB && prdA == prB
  {
    AnyMismatchIsMutual(t, u, pr, prd);
    OneSideIsReference(zone, opp, pr, prd);
    var r: bool :| Repaired(t, r, pr, prd, prA, prdA) && (AnyMismatch(t, pr, prd) ==> IsReference(zone, opp, pr, prd) == Some(r));
    var q: bool :| Repaired(u, q, prd, pr, prB, prdB) && (AnyMismatch(u, prd, pr) ==> IsReference(opp, zone, prd, pr) == Some(q));
    if !AnyMismatch(t, pr, prd) { ReferenceIdle(u, q, !r, prd, pr, prB, prdB); }
    SymmetryKept(t, u, r, pr, prd, prA, prdA, prB, prdB);
  }

  // ---------------------------------------------------------------- the routine

  /** Swap the ends of the marked axes. */
  method SwapEnds(a: array<(int, int)>, marked: seq<bool>)
    requires |marked| == a.Length
    modifies a
    ensures forall k :: 0 <= k < a.Length ==> a[k] == if marked[k] then Swap(old(a[k])) else old(a[k])
  {
    for i := 0 to a.Length
      invariant forall k :: 0 <= k < a.Length ==> a[k] == if k < i && marked[k] then Swap(old(a[k])) else old(a[k])
    {
      if marked[i] { a[i] := (a[i].1, a[i].0); }
    }
  }

  /** The axes along which ranges do not go the same way. */
  method FindMismatches(t: seq<int>, pr: Range, prd: Range) returns (marked: seq<bool>, found: bool)
    requires SameDim(t, pr, prd)
    ensures |marked| == |t| && forall k: nat :: k < |t| ==> (marked[k] <==> Mismatch(t, pr, prd, k))
    ensures found <==> AnyMismatch(t, pr, prd)
  {
    marked, found := [], false;
    for k := 0 to |t|
      invariant |marked| == k && forall i: nat :: i < k ==> (marked[i] <==> Mismatch(t, pr, prd, i))
      invariant found <==> exists i: nat :: i < k && Mismatch(t, pr, prd, i)
    {
      var points := pr[k].1 - pr[k].0;
      var pointsD := Sign(t[k]) * (prd[Abs(t[k]) - 1].1 - prd[Abs(t[k]) - 1].0);
      assert points != pointsD <==> Mismatch(t, pr, prd, k);
      marked := marked + [points != pointsD];
      found := found || points != pointsD;
    }
  }

  /** The marks of the corresponding axes of the opposite zone. */
  method MoveMarks(t: seq<int>, marked: seq<bool>) returns (moved: seq<bool>)
    requires IsTransform(t) && |marked| == |t|
    ensures |moved| == |t| && forall k: nat :: k < |t| ==> moved[DonorAxis(t, k)] == marked[k]
  {
    moved := seq(|t|, i => false);
    for k := 0 to |t|
      invariant |moved| == |t| && forall i: nat :: i < k ==> moved[DonorAxis(t, i)] == marked[i]
    {
      moved := moved[Abs(t[k]) - 1 := marked[k]];
    }
  }

  datatype Outcome = Done | NoReference | AssertionFails

  lemma {:induction false} SwapRepairs(t: seq<int>, reference: bool, marked: seq<bool>, moved: seq<bool>,
                                       pr: Range, prd: Range, prAfter: Range, prdAfter: Range)
    requires SameDim(t, pr, prd) && |prAfter| == |prdAfter| == |marked| == |moved| == |t|
    requires forall k: nat :: k < |t| ==> (marked[k] <==> Mismatch(t, pr, prd, k)) && moved[DonorAxis(t, k)] == marked[k]
    requires if reference then prAfter == pr else prdAfter == prd
    requires reference ==> forall j :: 0 <= j < |t| ==> prdAfter[j] == if moved[j] then Swap(prd[j]) else prd[j]
    requires !reference ==> forall k :: 0 <= k < |t| ==> prAfter[k] == if marked[k] then Swap(pr[k]) else pr[k]
    ensures Repaired(t, reference, pr, prd, prAfter, prdAfter)
  {
    forall k: nat | k < |t| ensures RepairedAt(t, reference, pr, prd, prAfter, prdAfter, k) {
      assert moved[DonorAxis(t, k)] == marked[k];
    }
  }

  lemma {:induction false} NothingToRepair(t: seq<int>, reference: bool, pr: Range, prd: Range)
    requires SameDim(t, pr, prd) && !AnyMismatch(t, pr, prd)
    ensures Repaired(t, reference, pr, prd, pr, prd)
  {
    forall k: nat | k < |t| ensures RepairedAt(t, reference, pr, prd, pr, prd, k) {}
  }

  /**
   Repair one join in place.  When ranges disagree, the side that comes first keeps its range.  It fails exactly when ranges
   disagree and no side comes first, or when the absolute extents disagree.
   */
  method FixRanges(t: seq<int>, zone: string, opp: string, pr: array<(int, int)>, prd: array<(int, int)>) returns (o: Outcome)
    requires pr != prd && SameDim(t, pr[..], prd[..])
    modifies pr, prd
    ensures SameDim(t, pr[..], prd[..])
    ensures o.NoReference? <==> old(AnyMismatch(t, pr[..], prd[..]))
                                && !ComesFirst(zone, opp, old(pr[..]), old(prd[..])) && !ComesFirst(opp, zone, old(prd[..]), old(pr[..]))
    ensures old(AnyMismatch(t, pr[..], prd[..])) && ComesFirst(zone, opp, old(pr[..]), old(prd[..])) ==> pr[..] == old(pr[..])
    ensures old(AnyMismatch(t, pr[..], prd[..])) && ComesFirst(opp, zone, old(prd[..]), old(pr[..])) ==> prd[..] == old(prd[..])
    ensures o.NoReference? ==> pr[..] == old(pr[..]) && prd[..] == old(prd[..])
    ensures !o.NoReference? ==> Fixed(t, zone, opp, old(pr[..]), old(prd[..]), pr[..], prd[..])
    ensures !o.NoReference? ==> (o.Done? <==> old(ExtentsAgree(t, pr[..], prd[..])))
    ensures o.Done? ==> EndsMatch(t, pr[..], prd[..])
  {
    ghost var was, wasD := pr[..], prd[..];
    ReferenceComesFirst(zone, opp, was, wasD);
    var marked, found := FindMismatches(t, pr[..], prd[..]);
    ghost var side := true;
    if found {
      var reference := IsReference(zone, opp, pr[..], prd[..]);
      if reference.None? { return NoReference; }
      side := reference.value;
      var moved := MoveMarks(t, marked);
      if reference.value { SwapEnds(prd, moved); } else { SwapEnds(pr, marked); }
      SwapRepairs(t, side, marked, moved, was, wasD, pr[..], prd[..]);
    } else {
      NothingToRepair(t, side, was, wasD);
    }
    AssertionIffExtentsAgree(t, side, was, wasD, pr[..], prd[..]);
    assert Repaired(t, side, was, wasD, pr[..], prd[..]);
    o := if TransformPoint(t, Ends(pr[..]), Starts(pr[..]), Starts(prd[..])) == Ends(prd[..]) then Done else AssertionFails;
  }
}

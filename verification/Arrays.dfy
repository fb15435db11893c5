/** Arrays of numbers of any number of dimensions, and how numpy makes shapes compatible (broadcasting). */
module Arrays {

  datatype Tensor = Scalar(value: real) | Rows(rows: seq<Tensor>)

  predicate HasShape(t: Tensor, shape: seq<nat>)
    decreases |shape|
  {
    if shape == [] then t.Scalar?
    else t.Rows? && |t.rows| == shape[0] && forall i :: 0 <= i < |t.rows| ==> HasShape(t.rows[i], shape[1..])
  }

  datatype Shaped = Array(shape: seq<nat>, tensor: Tensor)

  type Array = a: Shaped | HasShape(a.tensor, a.shape) witness Array([], Scalar(0.0))

  /** The array of one dimension with the given numbers. */
  function Line(xs: seq<real>): Array {
    var rows := seq(|xs|, i requires 0 <= i < |xs| => Scalar(xs[i]));
    assert [|xs|][1..] == [];
    assert forall i :: 0 <= i < |rows| ==> HasShape(rows[i], []);
    Array([|xs|], Rows(rows))
  }

  /** Aligned on their last dimensions, the shapes agree wherever none of them is 1. */
  predicate Broadcastable(a: seq<nat>, b: seq<nat>)
    decreases |a| + |b|
  {
    if a == [] || b == [] then true
    else if |a| > |b| then Broadcastable(a[1..], b)
    else if |b| > |a| then Broadcastable(a, b[1..])
    else (a[0] == b[0] || a[0] == 1 || b[0] == 1) && Broadcastable(a[1..], b[1..])
  }

  predicate Near(x: real, y: real, tol: real) {
    -tol <= x - y <= tol
  }

  /** All numbers are near; missing dimensions and dimensions of size 1 are repeated. */
  predicate Close(a: seq<nat>, x: Tensor, b: seq<nat>, y: Tensor, tol: real)
    requires HasShape(x, a) && HasShape(y, b) && Broadcastable(a, b)
    decreases |a| + |b|
  {
    if a == [] && b == [] then Near(x.value, y.value, tol)
    else if |a| > |b| then forall i :: 0 <= i < |x.rows| ==> Close(a[1..], x.rows[i], b, y, tol)
    else if |b| > |a| then forall i :: 0 <= i < |y.rows| ==> Close(a, x, b[1..], y.rows[i], tol)
    else if a[0] == b[0] then forall i :: 0 <= i < |x.rows| ==> Close(a[1..], x.rows[i], b[1..], y.rows[i], tol)
    else if a[0] == 1 then forall i :: 0 <= i < |y.rows| ==> Close(a[1..], x.rows[0], b[1..], y.rows[i], tol)
    else forall i :: 0 <= i < |x.rows| ==> Close(a[1..], x.rows[i], b[1..], y.rows[0], tol)
  }

  lemma {:induction false} SameShapeBroadcasts(a: seq<nat>)
    ensures Broadcastable(a, a)
    decreases |a|
  {
    if a != [] { SameShapeBroadcasts(a[1..]); }
  }

  /** Without tolerance, arrays of the same shape are close exactly when they are equal. */
  lemma {:induction false} CloseIsEqual(a: seq<nat>, x: Tensor, y: Tensor)
    requires HasShape(x, a) && HasShape(y, a) && Broadcastable(a, a)
    ensures Close(a, x, a, y, 0.0) <==> x == y
    decreases |a|
  {
    if a != [] {
      forall i | 0 <= i < |x.rows| ensures Close(a[1..], x.rows[i], a[1..], y.rows[i], 0.0) <==> x.rows[i] == y.rows[i] {
        CloseIsEqual(a[1..], x.rows[i], y.rows[i]);
      }
      assert x == y <==> x.rows == y.rows;
    }
  }

  // ---------------------------------------------------------------- index by index

  /** Index `idx` lies in an array of the given shape. */
  predicate InBounds(shape: seq<nat>, idx: seq<nat>) {
    |idx| == |shape| && forall i :: 0 <= i < |shape| ==> idx[i] < shape[i]
  }

  /** The number at an index. */
  function At(t: Tensor, idx: seq<nat>): real
    decreases |idx|
  {
    match t
    case Scalar(x) => x
    case Rows(rows) => if idx == [] || idx[0] >= |rows| then 0.0 else At(rows[idx[0]], idx[1..])
  }

  /** Aligned on their last dimensions, two shapes agree wherever none is 1. */
  ghost predicate Aligned(a: seq<nat>, b: seq<nat>) {
    forall i: nat {:trigger FromEnd(a, i), FromEnd(b, i)} :: i < |a| && i < |b| ==>
      FromEnd(a, i) == FromEnd(b, i) || FromEnd(a, i) == 1 || FromEnd(b, i) == 1
  }

  /** The dimension `i` places before the last one, 1 beyond the first. */
  function FromEnd(a: seq<nat>, i: nat): nat {
    if i < |a| then a[|a| - 1 - i] else 1
  }

  lemma {:induction false} FromEndTail(a: seq<nat>, i: nat)
    requires a != [] && i < |a| - 1
    ensures FromEnd(a[1..], i) == FromEnd(a, i)
  {
  }

  lemma {:induction false} BroadcastableIsAligned(a: seq<nat>, b: seq<nat>)
    ensures Broadcastable(a, b) <==> Aligned(a, b)
    decreases |a| + |b|
  {
    if a == [] || b == [] {
    } else {
      var x := if |a| >= |b| then a[1..] else a;
      var y := if |b| >= |a| then b[1..] else b;
      BroadcastableIsAligned(x, y);
      forall i: nat | i < |x| && i < |y| ensures FromEnd(x, i) == FromEnd(a, i) && FromEnd(y, i) == FromEnd(b, i) {
        if |a| >= |b| { FromEndTail(a, i); }
        if |b| >= |a| { FromEndTail(b, i); }
      }
      if |a| == |b| { FirstAligned(a, b); } else { SameAligned(a, b, x, y); }
    }
  }

  lemma {:induction false} FirstAligned(a: seq<nat>, b: seq<nat>)
    requires |a| == |b| > 0
    requires forall i: nat :: i < |a| - 1 ==> FromEnd(a[1..], i) == FromEnd(a, i) && FromEnd(b[1..], i) == FromEnd(b, i)
    ensures Aligned(a, b) <==> (a[0] == b[0] || a[0] == 1 || b[0] == 1) && Aligned(a[1..], b[1..])
  {
    var n := |a| - 1;
    assert FromEnd(a, n) == a[0] && FromEnd(b, n) == b[0];
    if Aligned(a, b) {
      forall i: nat | i < n ensures FromEnd(a[1..], i) == FromEnd(b[1..], i) || FromEnd(a[1..], i) == 1 || FromEnd(b[1..], i) == 1 {
        assert FromEnd(a, i) == FromEnd(b, i) || FromEnd(a, i) == 1 || FromEnd(b, i) == 1;
      }
    }
    if (a[0] == b[0] || a[0] == 1 || b[0] == 1) && Aligned(a[1..], b[1..]) {
      forall i: nat | i < |a| ensures FromEnd(a, i) == FromEnd(b, i) || FromEnd(a, i) == 1 || FromEnd(b, i) == 1 {
        if i < n { assert FromEnd(a[1..], i) == FromEnd(b[1..], i) || FromEnd(a[1..], i) == 1 || FromEnd(b[1..], i) == 1; }
      }
    }
  }

  lemma {:induction false} SameAligned(a: seq<nat>, b: seq<nat>, x: seq<nat>, y: seq<nat>)
    requires (|x| == |a| || |x| == |a| - 1 >= |b|) && (|y| == |b| || |y| == |b| - 1 >= |a|)
    requires forall i: nat :: i < |x| && i < |y| ==> FromEnd(x, i) == FromEnd(a, i) && FromEnd(y, i) == FromEnd(b, i)
    ensures Aligned(a, b) <==> Aligned(x, y)
  {
    if Aligned(a, b) {
      forall i: nat | i < |x| && i < |y| ensures FromEnd(x, i) == FromEnd(y, i) || FromEnd(x, i) == 1 || FromEnd(y, i) == 1 {
        assert FromEnd(a, i) == FromEnd(b, i) || FromEnd(a, i) == 1 || FromEnd(b, i) == 1;
      }
    }
    if Aligned(x, y) {
      forall i: nat | i < |a| && i < |b| ensures FromEnd(a, i) == FromEnd(b, i) || FromEnd(a, i) == 1 || FromEnd(b, i) == 1 {
        assert FromEnd(x, i) == FromEnd(y, i) || FromEnd(x, i) == 1 || FromEnd(y, i) == 1;
      }
    }
  }

  // ---------------------------------------------------------------- arrays with as many dimensions

  /** A size of 1 gives way to the other size. */
  function Wider(x: nat, y: nat): nat { if x == 1 then y else x }

  /** The common shape of two compatible arrays with as many dimensions. */
  function Widest(a: seq<nat>, b: seq<nat>): (c: seq<nat>)
    requires |a| == |b|
    ensures |c| == |a| && forall i :: 0 <= i < |c| ==> c[i] == Wider(a[i], b[i])
  {
    seq(|a|, i requires 0 <= i < |a| => Wider(a[i], b[i]))
  }

  /** The index in an array that an index of the common shape refers to: dimensions of size 1 repeat their only element. */
  function Repeated(a: seq<nat>, idx: seq<nat>): (r: seq<nat>)
    requires |a| == |idx|
    ensures |r| == |a| && forall i :: 0 <= i < |a| ==> r[i] == if a[i] == 1 then 0 else idx[i]
  {
    seq(|a|, i requires 0 <= i < |a| => if a[i] == 1 then 0 else idx[i])
  }

  ghost predicate NearAt(a: seq<nat>, x: Tensor, b: seq<nat>, y: Tensor, tol: real, idx: seq<nat>)
    requires |a| == |b| == |idx|
  {
    -tol <= At(x, Repeated(a, idx)) - At(y, Repeated(b, idx)) <= tol
  }

  /** The numbers that meet at every index of the common shape are near. */
  ghost predicate NearEverywhere(a: seq<nat>, x: Tensor, b: seq<nat>, y: Tensor, tol: real)
    requires |a| == |b|
  {
    forall idx {:trigger InBounds(Widest(a, b), idx)} :: InBounds(Widest(a, b), idx) ==> NearAt(a, x, b, y, tol, idx)
  }

  lemma {:induction false} InBoundsFirst(shape: seq<nat>, i: nat, j: seq<nat>)
    requires shape != []
    ensures InBounds(shape, [i] + j) <==> i < shape[0] && InBounds(shape[1..], j)
  {
    var idx := [i] + j;
    if InBounds(shape, idx) {
      forall m | 0 <= m < |shape| - 1 ensures j[m] < shape[1..][m] { assert idx[m + 1] < shape[m + 1]; }
    }
    if i < shape[0] && InBounds(shape[1..], j) {
      forall m | 0 <= m < |shape| ensures idx[m] < shape[m] { if m > 0 { assert j[m - 1] < shape[1..][m - 1]; } }
    }
  }

  /** The row that meets row `i` of the common shape. */
  ghost function RowOf(a: seq<nat>, x: Tensor, i: nat): Tensor
    requires a != [] && HasShape(x, a) && (a[0] == 1 || i < a[0])
  {
    x.rows[if a[0] == 1 then 0 else i]
  }

  lemma {:induction false} AtRow(a: seq<nat>, x: Tensor, i: nat, j: seq<nat>)
    requires a != [] && HasShape(x, a) && (a[0] == 1 || i < a[0]) && |j| == |a| - 1
    ensures At(x, Repeated(a, [i] + j)) == At(RowOf(a, x, i), Repeated(a[1..], j))
  {
    var r := Repeated(a, [i] + j);
    assert r[0] == if a[0] == 1 then 0 else i;
    assert r[1..] == Repeated(a[1..], j);
  }

  /** Row `i` of the common shape is near. */
  ghost predicate RowNear(a: seq<nat>, x: Tensor, b: seq<nat>, y: Tensor, tol: real, i: nat)
    requires |a| == |b| > 0 && HasShape(x, a) && HasShape(y, b) && (a[0] == 1 || i < a[0]) && (b[0] == 1 || i < b[0])
  {
    NearEverywhere(a[1..], RowOf(a, x, i), b[1..], RowOf(b, y, i), tol)
  }

  /** The first dimensions are compatible. */
  predicate FirstsFit(a: seq<nat>, b: seq<nat>) {
    |a| == |b| > 0 && (a[0] == b[0] || a[0] == 1 || b[0] == 1)
  }

  lemma {:induction false} RowFromAll(a: seq<nat>, x: Tensor, b: seq<nat>, y: Tensor, tol: real, i: nat)
    requires FirstsFit(a, b) && HasShape(x, a) && HasShape(y, b) && i < Wider(a[0], b[0])
    requires NearEverywhere(a, x, b, y, tol)
    ensures RowNear(a, x, b, y, tol, i)
  {
    var c, d := Widest(a, b), Widest(a[1..], b[1..]);
    assert c[1..] == d;
    forall j | InBounds(d, j) ensures NearAt(a[1..], RowOf(a, x, i), b[1..], RowOf(b, y, i), tol, j) {
      InBoundsFirst(c, i, j);
      assert NearAt(a, x, b, y, tol, [i] + j);
      AtRow(a, x, i, j);
      AtRow(b, y, i, j);
    }
  }

  lemma {:induction false} AllFromRows(a: seq<nat>, x: Tensor, b: seq<nat>, y: Tensor, tol: real, idx: seq<nat>)
    requires FirstsFit(a, b) && HasShape(x, a) && HasShape(y, b) && InBounds(Widest(a, b), idx)
    requires idx[0] < Wider(a[0], b[0]) && RowNear(a, x, b, y, tol, idx[0])
    ensures NearAt(a, x, b, y, tol, idx)
  {
    var c, d, i, j := Widest(a, b), Widest(a[1..], b[1..]), idx[0], idx[1..];
    assert c[1..] == d && idx == [i] + j;
    InBoundsFirst(c, i, j);
    assert NearAt(a[1..], RowOf(a, x, i), b[1..], RowOf(b, y, i), tol, j);
    AtRow(a, x, i, j);
    AtRow(b, y, i, j);
  }

  lemma {:induction false} NearByRows(a: seq<nat>, x: Tensor, b: seq<nat>, y: Tensor, tol: real)
    requires FirstsFit(a, b) && HasShape(x, a) && HasShape(y, b)
    ensures NearEverywhere(a, x, b, y, tol) <==> forall i: nat :: i < Wider(a[0], b[0]) ==> RowNear(a, x, b, y, tol, i)
  {
    if NearEverywhere(a, x, b, y, tol) {
      forall i: nat | i < Wider(a[0], b[0]) ensures RowNear(a, x, b, y, tol, i) { RowFromAll(a, x, b, y, tol, i); }
    }
    if forall i: nat :: i < Wider(a[0], b[0]) ==> RowNear(a, x, b, y, tol, i) {
      forall idx | InBounds(Widest(a, b), idx) ensures NearAt(a, x, b, y, tol, idx) {
        assert Widest(a, b)[0] == Wider(a[0], b[0]);
        AllFromRows(a, x, b, y, tol, idx);
      }
    }
  }

  /** Compatible arrays with as many dimensions are close exactly when the numbers that meet at every index are. */
  lemma {:induction false} CloseIsEverywhere(a: seq<nat>, x: Tensor, b: seq<nat>, y: Tensor, tol: real)
    requires |a| == |b| && HasShape(x, a) && HasShape(y, b) && Broadcastable(a, b)
    ensures Close(a, x, b, y, tol) <==> NearEverywhere(a, x, b, y, tol)
    decreases |a|
  {
    if a == [] {
      assert InBounds(Widest(a, b), []);
      forall idx | InBounds(Widest(a, b), idx) ensures idx == [] {}
      assert Close(a, x, b, y, tol) <==> NearAt(a, x, b, y, tol, []);
    } else {
      NearByRows(a, x, b, y, tol);
      forall i: nat | i < Wider(a[0], b[0])
        ensures Close(a[1..], RowOf(a, x, i), b[1..], RowOf(b, y, i), tol) <==> RowNear(a, x, b, y, tol, i)
      {
        CloseIsEverywhere(a[1..], RowOf(a, x, i), b[1..], RowOf(b, y, i), tol);
      }
      CloseByRows(a, x, b, y, tol);
    }
  }

  lemma {:induction false} CloseByRows(a: seq<nat>, x: Tensor, b: seq<nat>, y: Tensor, tol: real)
    requires FirstsFit(a, b) && HasShape(x, a) && HasShape(y, b) && Broadcastable(a, b)
    ensures Close(a, x, b, y, tol)
            <==> forall i: nat {:trigger RowOf(a, x, i), RowOf(b, y, i)} :: i < Wider(a[0], b[0]) ==> Close(a[1..], RowOf(a, x, i), b[1..], RowOf(b, y, i), tol)
  {
    if a[0] == b[0] {
      assert forall i: nat :: i < a[0] ==> RowOf(a, x, i) == x.rows[i] && RowOf(b, y, i) == y.rows[i];
    } else if a[0] == 1 {
      assert forall i: nat :: i < b[0] ==> RowOf(a, x, i) == x.rows[0] && RowOf(b, y, i) == y.rows[i];
    } else {
      assert forall i: nat :: i < a[0] ==> RowOf(a, x, i) == x.rows[i] && RowOf(b, y, i) == y.rows[0];
    }
  }

  /** Arrays of the same shape are close exactly when their numbers are at every index. */
  lemma {:induction false} SameShapeClose(a: seq<nat>, x: Tensor, y: Tensor, tol: real)
    requires HasShape(x, a) && HasShape(y, a) && Broadcastable(a, a)
    ensures Close(a, x, a, y, tol) <==> forall idx {:trigger InBounds(a, idx)} :: InBounds(a, idx) ==> -tol <= At(x, idx) - At(y, idx) <= tol
  {
    CloseIsEverywhere(a, x, a, y, tol);
    assert Widest(a, a) == a;
    forall idx | InBounds(a, idx) ensures NearAt(a, x, a, y, tol, idx) <==> -tol <= At(x, idx) - At(y, idx) <= tol {
      assert Repeated(a, idx) == idx;
    }
  }

  // ---------------------------------------------------------------- missing dimensions

  lemma {:induction false} LeadHasShape(a: seq<nat>, x: Tensor)
    requires HasShape(x, a)
    ensures HasShape(Rows([x]), [1] + a)
  {
    assert ([1] + a)[1..] == a;
  }

  lemma {:induction false} LeadBroadcasts(a: seq<nat>, b: seq<nat>)
    requires |a| < |b|
    ensures Broadcastable([1] + a, b) <==> Broadcastable(a, b)
    ensures Broadcastable(b, [1] + a) <==> Broadcastable(b, a)
  {
    BroadcastableIsAligned([1] + a, b);
    BroadcastableIsAligned(a, b);
    BroadcastableIsAligned(b, [1] + a);
    BroadcastableIsAligned(b, a);
    var l := [1] + a;
    assert FromEnd(l, |a|) == 1;
    forall i: nat | i < |a| ensures FromEnd(l, i) == FromEnd(a, i) {}
    if Aligned(a, b) { LeadAligned(a, b); }
    if Aligned(l, b) {
      forall i: nat | i < |a| ensures FromEnd(a, i) == FromEnd(b, i) || FromEnd(a, i) == 1 || FromEnd(b, i) == 1 {
        assert FromEnd(l, i) == FromEnd(b, i) || FromEnd(l, i) == 1 || FromEnd(b, i) == 1;
      }
    }
  }

  lemma {:induction false} LeadAligned(a: seq<nat>, b: seq<nat>)
    requires |a| < |b| && Aligned(a, b)
    ensures Aligned([1] + a, b)
  {
    var l := [1] + a;
    forall i: nat | i < |l| ensures FromEnd(l, i) == FromEnd(b, i) || FromEnd(l, i) == 1 || FromEnd(b, i) == 1 {
      if i < |a| { assert FromEnd(l, i) == FromEnd(a, i); assert FromEnd(a, i) == FromEnd(b, i) || FromEnd(a, i) == 1 || FromEnd(b, i) == 1; }
    }
  }

  /** A missing first dimension counts as one of size 1, on the left. */
  lemma {:induction false} LeadOnLeft(a: seq<nat>, x: Tensor, b: seq<nat>, y: Tensor, tol: real)
    requires HasShape(x, a) && HasShape(y, b) && |a| < |b| && Broadcastable(a, b)
    ensures HasShape(Rows([x]), [1] + a) && Broadcastable([1] + a, b)
    ensures Close(a, x, b, y, tol) <==> Close([1] + a, Rows([x]), b, y, tol)
    decreases |b|
  {
    LeadHasShape(a, x);
    LeadBroadcasts(a, b);
    var l := [1] + a;
    assert l[1..] == a;
    if |b| > |l| {
      forall i | 0 <= i < |y.rows| ensures Close(a, x, b[1..], y.rows[i], tol) <==> Close(l, Rows([x]), b[1..], y.rows[i], tol) {
        LeadOnLeft(a, x, b[1..], y.rows[i], tol);
      }
    } else {
      assert Close(l, Rows([x]), b, y, tol) <==> forall i :: 0 <= i < |y.rows| ==> Close(a, x, b[1..], y.rows[i], tol);
    }
  }

  /** The same on the right. */
  lemma {:induction false} LeadOnRight(a: seq<nat>, x: Tensor, b: seq<nat>, y: Tensor, tol: real)
    requires HasShape(x, a) && HasShape(y, b) && |b| < |a| && Broadcastable(a, b)
    ensures HasShape(Rows([y]), [1] + b) && Broadcastable(a, [1] + b)
    ensures Close(a, x, b, y, tol) <==> Close(a, x, [1] + b, Rows([y]), tol)
    decreases |a|
  {
    LeadHasShape(b, y);
    LeadBroadcasts(b, a);
    var l := [1] + b;
    assert l[1..] == b;
    if |a| > |l| {
      forall i | 0 <= i < |x.rows| ensures Close(a[1..], x.rows[i], b, y, tol) <==> Close(a[1..], x.rows[i], l, Rows([y]), tol) {
        LeadOnRight(a[1..], x.rows[i], b, y, tol);
      }
    } else {
      assert Close(a, x, l, Rows([y]), tol) <==> forall i :: 0 <= i < |x.rows| ==> Close(a[1..], x.rows[i], b, y, tol);
    }
  }
}

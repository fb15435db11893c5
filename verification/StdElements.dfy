/**
 Conversion of polyhedra with prism or hexahedron shape to standard elements
 (maia/__old/transform/convert_to_std_elements.cpp).

 A prism over a polygon with `n` corners has a base `b`, a top `t` and `n` sides; corner `i` of the top is above corner `i` of
 the base.  Prisms have `n == 3`, hexahedra `n == 4`.
 */
module StdElements {
  import opened Basics
  import opened Counting

  // ---------------------------------------------------------------- shapes

  function Next(n: nat, i: int): int { if i + 1 == n then 0 else i + 1 }

  function Prev(n: nat, i: int): int { if i == 0 then n - 1 else i - 1 }

  /** The `2 * n` corners are different. */
  ghost predicate CornersOk(n: nat, b: seq<int>, t: seq<int>) {
    && n >= 3 && |b| == |t| == n
    && (forall i, j :: 0 <= i < n && 0 <= j < n && i != j ==> b[i] != b[j] && t[i] != t[j])
    && forall i, j :: 0 <= i < n && 0 <= j < n ==> b[i] != t[j]
  }

  function Side(n: nat, b: seq<int>, t: seq<int>, i: nat): seq<int>
    requires i < n == |b| == |t|
  {
    [b[i], b[Next(n, i)], t[Next(n, i)], t[i]]
  }

  /** Face `c` of the prism: base, top, then sides. */
  function Face(n: nat, b: seq<int>, t: seq<int>, c: nat): seq<int>
    requires c < n + 2 && |b| == |t| == n
  {
    if c == 0 then b else if c == 1 then t else Side(n, b, t, c - 2)
  }

  /** The same vertices. */
  ghost predicate SameSet(f: seq<int>, g: seq<int>) {
    |f| == |g| && forall x :: x in f <==> x in g
  }

  /** All numbers below `n`, in some order. */
  ghost predicate IsOrder(order: seq<int>, n: nat) {
    |order| == n && NoRepeat(order) && forall k :: 0 <= k < n ==> 0 <= order[k] < n
  }

  /** The faces are those of the prism, as vertex sets: face `k` is face `order[k]`. */
  ghost predicate Shape(n: nat, faces: seq<seq<int>>, b: seq<int>, t: seq<int>, order: seq<int>) {
    && CornersOk(n, b, t) && |faces| == n + 2 && IsOrder(order, n + 2)
    && forall k: nat {:trigger FaceIs(n, faces, b, t, order, k)} :: k < n + 2 ==> FaceIs(n, faces, b, t, order, k)
  }

  ghost predicate FaceIs(n: nat, faces: seq<seq<int>>, b: seq<int>, t: seq<int>, order: seq<int>, k: nat)
    requires |b| == |t| == n && k < n + 2 == |faces| && IsOrder(order, n + 2)
  {
    SameSet(faces[k], Face(n, b, t, order[k]))
  }

  lemma {:induction false} OrderHits(order: seq<int>, n: nat, c: nat) returns (k: nat)
    requires IsOrder(order, n) && c < n
    ensures k < n && order[k] == c
  {
    if i :| 0 <= i < n && order[i] == c { k := i; return; }
    var s := seq(n, i requires 0 <= i < n => if order[i] < c then order[i] else order[i] - 1);
    forall i, j | 0 <= i < j < |s| ensures s[i] != s[j] { assert order[i] != order[j]; }
    Pigeonhole(s, n - 1);
    assert false;
  }

  // ---------------------------------------------------------------- symmetries

  function Rotated(s: seq<int>): (r: seq<int>)
    ensures |r| == |s| && forall i :: 0 <= i < |s| ==> r[i] == s[Next(|s|, i)]
  {
    seq(|s|, i requires 0 <= i < |s| => s[Next(|s|, i)])
  }

  /** Renumber the faces. */
  ghost function Relabel(order: seq<int>, f: int -> int): (r: seq<int>)
    ensures |r| == |order| && forall k :: 0 <= k < |r| ==> r[k] == f(order[k])
  {
    seq(|order|, k requires 0 <= k < |order| => f(order[k]))
  }

  /** A change of labels that is one-to-one and keeps vertex sets keeps the shape. */
  lemma {:induction false} Relabelled(n: nat, faces: seq<seq<int>>, b: seq<int>, t: seq<int>, order: seq<int>, b': seq<int>, t': seq<int>, f: int -> int)
    requires Shape(n, faces, b, t, order) && CornersOk(n, b', t')
    requires forall c :: 0 <= c < n + 2 ==> 0 <= f(c) < n + 2
    requires forall c, d :: 0 <= c < n + 2 && 0 <= d < n + 2 && c != d ==> f(c) != f(d)
    requires forall c: nat :: c < n + 2 ==> SameSet(Face(n, b, t, c), Face(n, b', t', f(c)))
    ensures Shape(n, faces, b', t', Relabel(order, f))
  {
    var o := Relabel(order, f);
    forall i, j | 0 <= i < j < |o| ensures o[i] != o[j] { assert order[i] != order[j]; }
    forall k: nat | k < n + 2 ensures FaceIs(n, faces, b', t', o, k) {
      assert FaceIs(n, faces, b, t, order, k);
      var c := order[k];
      assert SameSet(Face(n, b, t, c), Face(n, b', t', f(c)));
    }
  }

  ghost function RotateLabel(n: nat): int -> int {
    (c: int) => if c < 2 then c else 2 + Prev(n, c - 2)
  }

  lemma {:induction false} RotationKeepsSets(n: nat, b: seq<int>, t: seq<int>, c: nat)
    requires CornersOk(n, b, t) && c < n + 2
    ensures 0 <= RotateLabel(n)(c) < n + 2
    ensures SameSet(Face(n, b, t, c), Face(n, Rotated(b), Rotated(t), RotateLabel(n)(c)))
  {
    if c < 2 {
      RotatedSameSet(if c == 0 then b else t);
    } else {
      var i := Prev(n, c - 2);
      assert Next(n, i) == c - 2;
    }
  }

  lemma {:induction false} RotatedSameSet(s: seq<int>)
    ensures SameSet(s, Rotated(s))
  {
    forall x | x in s ensures x in Rotated(s) {
      var i :| 0 <= i < |s| && s[i] == x;
      assert Rotated(s)[Prev(|s|, i)] == x;
    }
  }

  /** Rotation of base and top. */
  lemma {:induction false} RotateShape(n: nat, faces: seq<seq<int>>, b: seq<int>, t: seq<int>, order: seq<int>) returns (order': seq<int>)
    requires Shape(n, faces, b, t, order)
    ensures Shape(n, faces, Rotated(b), Rotated(t), order')
    ensures forall k :: 0 <= k < n + 2 ==> order'[k] == RotateLabel(n)(order[k])
  {
    forall c: nat | c < n + 2 ensures 0 <= RotateLabel(n)(c) < n + 2 && SameSet(Face(n, b, t, c), Face(n, Rotated(b), Rotated(t), RotateLabel(n)(c))) {
      RotationKeepsSets(n, b, t, c);
    }
    Relabelled(n, faces, b, t, order, Rotated(b), Rotated(t), RotateLabel(n));
    order' := Relabel(order, RotateLabel(n));
  }

  ghost function MirrorLabel(n: nat): int -> int {
    (c: int) => if c < 2 then c else if c == n + 1 then n + 1 else n + 2 - c
  }

  lemma {:induction false} MirrorKeepsSets(n: nat, b: seq<int>, t: seq<int>, c: nat)
    requires CornersOk(n, b, t) && c < n + 2
    ensures 0 <= MirrorLabel(n)(c) < n + 2
    ensures SameSet(Face(n, b, t, c), Face(n, Reversed(b), Reversed(t), MirrorLabel(n)(c)))
  {
    if c < 2 { ReversedSameSet(if c == 0 then b else t); }
  }

  lemma {:induction false} ReversedSameSet(s: seq<int>)
    ensures SameSet(s, Reversed(s))
  {
    forall x | x in s ensures x in Reversed(s) {
      var i :| 0 <= i < |s| && s[i] == x;
      assert Reversed(s)[|s| - 1 - i] == x;
    }
  }

  /** Base and top in the opposite direction. */
  lemma {:induction false} MirrorShape(n: nat, faces: seq<seq<int>>, b: seq<int>, t: seq<int>, order: seq<int>) returns (order': seq<int>)
    requires Shape(n, faces, b, t, order)
    ensures Shape(n, faces, Reversed(b), Reversed(t), order')
    ensures forall k :: 0 <= k < n + 2 ==> order'[k] == MirrorLabel(n)(order[k])
  {
    forall c: nat | c < n + 2 ensures 0 <= MirrorLabel(n)(c) < n + 2 && SameSet(Face(n, b, t, c), Face(n, Reversed(b), Reversed(t), MirrorLabel(n)(c))) {
      MirrorKeepsSets(n, b, t, c);
    }
    Relabelled(n, faces, b, t, order, Reversed(b), Reversed(t), MirrorLabel(n));
    order' := Relabel(order, MirrorLabel(n));
  }

  ghost function FlipLabel(): int -> int {
    (c: int) => if c == 0 then 1 else if c == 1 then 0 else c
  }

  /** Base and top exchanged. */
  lemma {:induction false} FlipShape(n: nat, faces: seq<seq<int>>, b: seq<int>, t: seq<int>, order: seq<int>) returns (order': seq<int>)
    requires Shape(n, faces, b, t, order)
    ensures Shape(n, faces, t, b, order')
    ensures forall k :: 0 <= k < n + 2 ==> order'[k] == FlipLabel()(order[k])
  {
    forall c: nat | c < n + 2 ensures SameSet(Face(n, b, t, c), Face(n, t, b, FlipLabel()(c))) {}
    Relabelled(n, faces, b, t, order, t, b, FlipLabel());
    order' := Relabel(order, FlipLabel());
  }

  ghost function TipLabel(): int -> int {
    (c: int) => if c == 0 then 2 else if c == 1 then 4 else if c == 2 then 0 else if c == 4 then 1 else c
  }

  /** A hexahedron laid on its first side. */
  lemma {:induction false} TipShape(faces: seq<seq<int>>, b: seq<int>, t: seq<int>, order: seq<int>) returns (order': seq<int>)
    requires Shape(4, faces, b, t, order)
    ensures Shape(4, faces, Side(4, b, t, 0), [b[3], b[2], t[2], t[3]], order')
    ensures forall k :: 0 <= k < 6 ==> order'[k] == TipLabel()(order[k])
  {
    var b', t' := Side(4, b, t, 0), [b[3], b[2], t[2], t[3]];
    forall c: nat | c < 6 ensures SameSet(Face(4, b, t, c), Face(4, b', t', TipLabel()(c))) { TipKeepsSets(b, t, c); }
    Relabelled(4, faces, b, t, order, b', t', TipLabel());
    order' := Relabel(order, TipLabel());
  }

  lemma {:induction false} TipKeepsSets(b: seq<int>, t: seq<int>, c: nat)
    requires CornersOk(4, b, t) && c < 6
    ensures SameSet(Face(4, b, t, c), Face(4, Side(4, b, t, 0), [b[3], b[2], t[2], t[3]], TipLabel()(c)))
  {
    assert b == [b[0], b[1], b[2], b[3]] && t == [t[0], t[1], t[2], t[3]];
  }

  // ---------------------------------------------------------------- any face as base

  ghost function RotatedBy(s: seq<int>, r: nat): (q: seq<int>)
    ensures |q| == |s|
  {
    if r == 0 then s else Rotated(RotatedBy(s, r - 1))
  }

  /** The same polygon, from another corner or in the other direction. */
  ghost predicate SameCycle(f: seq<int>, g: seq<int>) {
    exists r: nat, m: bool {:trigger Turned(g, r, m)} :: f == Turned(g, r, m)
  }

  ghost function Turned(g: seq<int>, r: nat, m: bool): seq<int> {
    RotatedBy(if m then Reversed(g) else g, r)
  }

  ghost predicate SameEnds(order: seq<int>, order': seq<int>) {
    |order| == |order'| && forall k :: 0 <= k < |order| && order[k] < 2 ==> order'[k] == order[k]
  }

  lemma {:induction false} RotateShapeBy(n: nat, faces: seq<seq<int>>, b: seq<int>, t: seq<int>, order: seq<int>, r: nat) returns (order': seq<int>)
    requires Shape(n, faces, b, t, order)
    ensures Shape(n, faces, RotatedBy(b, r), RotatedBy(t, r), order') && SameEnds(order, order')
    decreases r
  {
    if r == 0 { order' := order; }
    else {
      var o := RotateShapeBy(n, faces, b, t, order, r - 1);
      order' := RotateShape(n, faces, RotatedBy(b, r - 1), RotatedBy(t, r - 1), o);
    }
  }

  /** The base may be listed from any corner and in both directions. */
  lemma {:induction false} Rebase(n: nat, faces: seq<seq<int>>, b: seq<int>, t: seq<int>, order: seq<int>, f: seq<int>) returns (t': seq<int>, order': seq<int>)
    requires Shape(n, faces, b, t, order) && SameCycle(f, b)
    ensures Shape(n, faces, f, t', order') && SameEnds(order, order')
  {
    var r: nat, m: bool :| f == Turned(b, r, m);
    if m {
      var o := MirrorShape(n, faces, b, t, order);
      order' := RotateShapeBy(n, faces, Reversed(b), Reversed(t), o, r);
      t' := RotatedBy(Reversed(t), r);
    } else {
      order' := RotateShapeBy(n, faces, b, t, order, r);
      t' := RotatedBy(t, r);
    }
  }

  /** Six quads that form a hexahedron, in any order; the first one is listed as a polygon. */
  ghost predicate IsHexahedron(faces: seq<seq<int>>, b: seq<int>, t: seq<int>, order: seq<int>) {
    Shape(4, faces, b, t, order) && SameCycle(faces[0], Face(4, b, t, order[0]))
  }

  lemma {:induction false} SideRotated(b: seq<int>, t: seq<int>, i: nat)
    requires |b| == |t| == 4 && 0 < i < 4
    ensures Side(4, Rotated(b), Rotated(t), i - 1) == Side(4, b, t, i)
  {
  }

  lemma {:induction false} SideAsBase(faces: seq<seq<int>>, b: seq<int>, t: seq<int>, order: seq<int>, i: nat) returns (t': seq<int>, order': seq<int>)
    requires IsHexahedron(faces, b, t, order) && i < 4 && order[0] == 2 + i
    ensures Shape(4, faces, faces[0], t', order') && order'[0] == 0
    decreases i
  {
    if i == 0 {
      var o := TipShape(faces, b, t, order);
      t', order' := Rebase(4, faces, Side(4, b, t, 0), [b[3], b[2], t[2], t[3]], o, faces[0]);
    } else {
      var o := RotateShape(4, faces, b, t, order);
      SideRotated(b, t, i);
      t', order' := SideAsBase(faces, Rotated(b), Rotated(t), o, i - 1);
    }
  }

  /** Whatever face comes first, it can serve as base. */
  lemma {:induction false} FirstAsBase(faces: seq<seq<int>>, b: seq<int>, t: seq<int>, order: seq<int>) returns (t': seq<int>, order': seq<int>)
    requires IsHexahedron(faces, b, t, order)
    ensures Shape(4, faces, faces[0], t', order') && order'[0] == 0
  {
    if order[0] == 0 {
      t', order' := Rebase(4, faces, b, t, order, faces[0]);
    } else if order[0] == 1 {
      var o := FlipShape(4, faces, b, t, order);
      t', order' := Rebase(4, faces, t, b, o, faces[0]);
    } else {
      t', order' := SideAsBase(faces, b, t, order, order[0] - 2);
    }
  }

  lemma {:induction false} TriangleCycle(f: seq<int>, g: seq<int>)
    requires |g| == 3 && g[0] != g[1] && g[0] != g[2] && g[1] != g[2] && SameSet(f, g)
    ensures SameCycle(f, g)
  {
    assert f[0] in f && f[1] in f && f[2] in f && g[0] in g && g[1] in g && g[2] in g;
    assert f == [f[0], f[1], f[2]] && g == [g[0], g[1], g[2]];
    assert Rotated(g) == [g[1], g[2], g[0]] && Rotated(Rotated(g)) == [g[2], g[0], g[1]];
    var h := Reversed(g);
    assert h == [g[2], g[1], g[0]] && Rotated(h) == [g[1], g[0], g[2]] && Rotated(Rotated(h)) == [g[0], g[2], g[1]];
    RotatedTwice(g);
    RotatedTwice(h);
    assert f == Turned(g, 0, false) || f == Turned(g, 1, false) || f == Turned(g, 2, false)
        || f == Turned(g, 0, true) || f == Turned(g, 1, true) || f == Turned(g, 2, true);
  }

  lemma {:induction false} RotatedTwice(s: seq<int>)
    ensures RotatedBy(s, 0) == s && RotatedBy(s, 1) == Rotated(s) && RotatedBy(s, 2) == Rotated(Rotated(s))
  {
    assert RotatedBy(s, 1) == Rotated(RotatedBy(s, 0));
    assert RotatedBy(s, 2) == Rotated(RotatedBy(s, 1));
  }

  /** Either triangle can serve as base. */
  lemma {:induction false} TriangleAsBase(faces: seq<seq<int>>, b: seq<int>, t: seq<int>, order: seq<int>, k: nat) returns (t': seq<int>, order': seq<int>)
    requires Shape(3, faces, b, t, order) && k < 5 && |faces[k]| == 3
    ensures Shape(3, faces, faces[k], t', order') && order'[k] == 0
  {
    assert FaceIs(3, faces, b, t, order, k);
    if order[k] == 0 {
      TriangleCycle(faces[k], b);
      t', order' := Rebase(3, faces, b, t, order, faces[k]);
    } else {
      var o := FlipShape(3, faces, b, t, order);
      TriangleCycle(faces[k], t);
      t', order' := Rebase(3, faces, t, b, o, faces[k]);
    }
  }

  // ---------------------------------------------------------------- the node above

  /** The quads are the sides of a prism, in some order. */
  ghost predicate AreSides(n: nat, b: seq<int>, t: seq<int>, quads: seq<seq<int>>, which: seq<int>) {
    && CornersOk(n, b, t) && |quads| == n && IsOrder(which, n)
    && forall q: nat {:trigger quads[q]} :: q < n ==> SameSet(quads[q], Side(n, b, t, which[q]))
  }

  /** A base corner belongs to the two sides next to it. */
  lemma {:induction false} SidesOfCorner(n: nat, b: seq<int>, t: seq<int>, i: nat, j: nat)
    requires CornersOk(n, b, t) && i < n && j < n
    ensures b[i] in Side(n, b, t, j) <==> j == i || j == Prev(n, i)
  {
  }

  /** Two sides next to each other share the vertical edge. */
  lemma {:induction false} SidesShareEdge(n: nat, b: seq<int>, t: seq<int>, i: nat, x: int)
    requires CornersOk(n, b, t) && i < n
    ensures x in Side(n, b, t, i) && x in Side(n, b, t, Prev(n, i)) <==> x == b[i] || x == t[i]
  {
    assert Next(n, Prev(n, i)) == i;
  }

  ghost predicate Increasing(s: seq<int>) {
    forall i, j :: 0 <= i < j < |s| ==> s[i] < s[j]
  }

  lemma {:induction false} InsertIncreasing(s: seq<int>, x: int, pos: nat)
    requires Increasing(s) && pos <= |s| && (forall i :: 0 <= i < pos ==> s[i] < x) && (pos < |s| ==> x < s[pos])
    ensures Increasing(s[..pos] + [x] + s[pos..])
    ensures forall y :: y in s[..pos] + [x] + s[pos..] <==> y in s || y == x
  {
    var r := s[..pos] + [x] + s[pos..];
    assert forall i :: 0 <= i < |r| ==> r[i] == if i < pos then s[i] else if i == pos then x else s[i - 1];
    forall i, j | 0 <= i < j < |r| ensures r[i] < r[j] { if i == pos && j > pos + 1 { assert s[pos] < s[j - 1]; } }
    assert s == s[..pos] + s[pos..];
  }

  /** Sort different numbers. */
  method SortDistinct(s: seq<int>) returns (r: seq<int>)
    requires NoRepeat(s)
    ensures |r| == |s| && Increasing(r) && forall x :: x in r <==> x in s
  {
    r := [];
    for k := 0 to |s|
      invariant |r| == k && Increasing(r) && forall x :: x in r <==> x in s[..k]
    {
      var x, pos := s[k], 0;
      while pos < |r| && r[pos] < x
        invariant 0 <= pos <= |r| && forall i :: 0 <= i < pos ==> r[i] < x
      {
        pos := pos + 1;
      }
      assert x !in s[..k] && (pos < |r| ==> r[pos] in s[..k]);
      InsertIncreasing(r, x, pos);
      r := r[..pos] + [x] + r[pos..];
    }
    assert s[..|s|] == s;
  }

  /** The common elements of two sorted lists. */
  method Intersection(a: seq<int>, c: seq<int>) returns (r: seq<int>)
    requires Increasing(a) && Increasing(c)
    ensures Increasing(r) && forall x :: x in r <==> x in a && x in c
  {
    r := [];
    var i, j := 0, 0;
    while i < |a| && j < |c|
      invariant 0 <= i <= |a| && 0 <= j <= |c|
      invariant Increasing(r)
      invariant forall k :: 0 <= k < |r| ==> r[k] in a && r[k] in c && (i < |a| ==> r[k] < a[i]) && (j < |c| ==> r[k] < c[j])
      invariant forall k, l :: 0 <= k < |a| && 0 <= l < |c| && a[k] == c[l] && (k < i || l < j) ==> a[k] in r
      decreases |a| - i + |c| - j
    {
      if a[i] < c[j] { i := i + 1; }
      else if c[j] < a[i] { j := j + 1; }
      else {
        r := r + [a[i]];
        i, j := i + 1, j + 1;
      }
    }
    forall x | x in a && x in c ensures x in r {
      var k :| 0 <= k < |a| && a[k] == x;
      var l :| 0 <= l < |c| && c[l] == x;
      assert k < i || l < j;
    }
  }

  /** The common vertex of two quads other than `vtx`. */
  method OtherCommon(vtx: int, quad0: seq<int>, quad1: seq<int>, ghost other: int) returns (r: int)
    requires NoRepeat(quad0) && NoRepeat(quad1) && vtx != other
    requires forall x :: x in quad0 && x in quad1 <==> x == vtx || x == other
    ensures r == other
  {
    var q0 := SortDistinct(quad0);
    var q1 := SortDistinct(quad1);
    var common := Intersection(q0, q1);
    assert vtx in common && other in common;
    assert forall k :: 0 <= k < |common| ==> common[k] in common;
    if common[0] != vtx { r := common[0]; } else { r := common[1]; }
  }

  lemma {:induction false} FourDistinct(f: seq<int>, g: seq<int>)
    requires |g| == 4 && NoRepeat(g) && SameSet(f, g)
    ensures NoRepeat(f)
  {
    assert g[0] in g && g[1] in g && g[2] in g && g[3] in g;
    assert f == [f[0], f[1], f[2], f[3]];
  }

  /** Among the sides around a base corner, the other common vertex of two of them is the corner above. */
  lemma {:induction false} AboveIsCommon(n: nat, b: seq<int>, t: seq<int>, quads: seq<seq<int>>, which: seq<int>, i: nat, q0: nat, q1: nat)
    requires AreSides(n, b, t, quads, which) && i < n && q0 < q1 < n && b[i] in quads[q0] && b[i] in quads[q1]
    ensures NoRepeat(quads[q0]) && NoRepeat(quads[q1]) && b[i] != t[i]
    ensures forall x :: x in quads[q0] && x in quads[q1] <==> x == b[i] || x == t[i]
  {
    assert SameSet(quads[q0], Side(n, b, t, which[q0])) && SameSet(quads[q1], Side(n, b, t, which[q1]));
    SidesOfCorner(n, b, t, i, which[q0]);
    SidesOfCorner(n, b, t, i, which[q1]);
    assert which[q0] != which[q1];
    SideDistinct(n, b, t, which[q0]);
    SideDistinct(n, b, t, which[q1]);
    FourDistinct(quads[q0], Side(n, b, t, which[q0]));
    FourDistinct(quads[q1], Side(n, b, t, which[q1]));
    forall x ensures x in quads[q0] && x in quads[q1] <==> x == b[i] || x == t[i] { SidesShareEdge(n, b, t, i, x); }
  }

  lemma {:induction false} SideDistinct(n: nat, b: seq<int>, t: seq<int>, i: nat)
    requires CornersOk(n, b, t) && i < n
    ensures NoRepeat(Side(n, b, t, i))
  {
  }

  /** Two sides contain the corner. */
  lemma {:induction false} TwoSides(n: nat, b: seq<int>, t: seq<int>, quads: seq<seq<int>>, which: seq<int>, i: nat) returns (k: nat, l: nat)
    requires AreSides(n, b, t, quads, which) && i < n
    ensures k < l < n && b[i] in quads[k] && b[i] in quads[l]
  {
    k := OrderHits(which, n, i);
    l := OrderHits(which, n, Prev(n, i));
    SidesOfCorner(n, b, t, i, i);
    SidesOfCorner(n, b, t, i, Prev(n, i));
    assert SameSet(quads[k], Side(n, b, t, i)) && SameSet(quads[l], Side(n, b, t, Prev(n, i)));
    if l < k { k, l := l, k; }
  }

  /** The corner above a base corner, from the first two sides that contain it. */
  method NodeAbove(vtx: int, quads: seq<seq<int>>, ghost n: nat, ghost b: seq<int>, ghost t: seq<int>, ghost which: seq<int>, ghost i: nat) returns (r: int)
    requires AreSides(n, b, t, quads, which) && i < n && vtx == b[i]
    ensures r == t[i]
  {
    ghost var k, l := TwoSides(n, b, t, quads, which, i);
    var q0 := 0;
    while vtx !in quads[q0]
      invariant 0 <= q0 <= k
      decreases k - q0
    {
      q0 := q0 + 1;
    }
    var q1 := q0 + 1;
    while vtx !in quads[q1]
      invariant q0 < q1 <= l
      decreases l - q1
    {
      q1 := q1 + 1;
    }
    AboveIsCommon(n, b, t, quads, which, i, q0, q1);
    r := OtherCommon(vtx, quads[q0], quads[q1], t[i]);
  }

  method NodesAbove(base: seq<int>, quads: seq<seq<int>>, ghost n: nat, ghost t: seq<int>, ghost which: seq<int>) returns (top: seq<int>)
    requires AreSides(n, base, t, quads, which)
    ensures top == t
  {
    top := [];
    for i := 0 to |base|
      invariant top == t[..i]
    {
      var above := NodeAbove(base[i], quads, n, base, t, which, i);
      top := top + [above];
    }
  }

  // ---------------------------------------------------------------- collecting the sides

  ghost predicate Seen(order: seq<int>, k: nat, c: int) {
    exists j :: 0 <= j < k && j < |order| && order[j] == c + 2
  }

  /** The quads are sides of the prism. */
  ghost predicate SidesAre(n: nat, b: seq<int>, t: seq<int>, quads: seq<seq<int>>, which: seq<int>) {
    && |b| == |t| == n && |quads| == |which|
    && forall q: nat {:trigger quads[q]} :: q < |quads| ==> 0 <= which[q] < n && SameSet(quads[q], Side(n, b, t, which[q]))
  }

  /** The list holds the labels of the sides among the first `k` faces. */
  ghost predicate Tracks(order: seq<int>, n: nat, k: nat, which: seq<int>) {
    && NoRepeat(which)
    && (forall q :: 0 <= q < |which| ==> Seen(order, k, which[q]))
    && forall c {:trigger Seen(order, k, c)} :: 0 <= c < n && Seen(order, k, c) ==> c in which
  }

  /** The sides among the first `k` faces. */
  ghost predicate Collected(n: nat, faces: seq<seq<int>>, b: seq<int>, t: seq<int>, order: seq<int>, k: nat, quads: seq<seq<int>>, which: seq<int>) {
    Shape(n, faces, b, t, order) && k <= n + 2 && SidesAre(n, b, t, quads, which) && Tracks(order, n, k, which)
  }

  lemma {:induction false} SeenStep(order: seq<int>, k: nat, c: int)
    requires k < |order|
    ensures Seen(order, k + 1, c) <==> Seen(order, k, c) || order[k] == c + 2
  {
  }

  lemma {:induction false} TrackSide(order: seq<int>, n: nat, k: nat, which: seq<int>)
    requires Tracks(order, n, k, which) && k < |order| && NoRepeat(order)
    ensures Tracks(order, n, k + 1, which + [order[k] - 2])
  {
    var c := order[k] - 2;
    forall q | 0 <= q < |which| ensures which[q] != c && Seen(order, k + 1, which[q]) {
      assert Seen(order, k, which[q]);
      var j :| 0 <= j < k && j < |order| && order[j] == which[q] + 2;
      assert order[j] != order[k];
    }
    SeenStep(order, k, c);
    forall d | 0 <= d < n && Seen(order, k + 1, d) ensures d in which + [c] {
      SeenStep(order, k, d);
      if d == c { assert (which + [c])[|which|] == d; } else { assert Seen(order, k, d); }
    }
  }

  lemma {:induction false} TrackNothing(order: seq<int>, n: nat, k: nat, which: seq<int>)
    requires Tracks(order, n, k, which) && k < |order| && order[k] < 2
    ensures Tracks(order, n, k + 1, which)
  {
    forall q | 0 <= q < |which| ensures Seen(order, k + 1, which[q]) {
      assert Seen(order, k, which[q]);
      SeenStep(order, k, which[q]);
    }
    forall d | 0 <= d < n && Seen(order, k + 1, d) ensures d in which {
      SeenStep(order, k, d);
      assert Seen(order, k, d);
    }
  }

  lemma {:induction false} CollectSide(n: nat, faces: seq<seq<int>>, b: seq<int>, t: seq<int>, order: seq<int>, k: nat, quads: seq<seq<int>>, which: seq<int>)
    requires Collected(n, faces, b, t, order, k, quads, which) && k < n + 2 && order[k] >= 2
    ensures Collected(n, faces, b, t, order, k + 1, quads + [faces[k]], which + [order[k] - 2])
  {
    TrackSide(order, n, k, which);
    assert FaceIs(n, faces, b, t, order, k);
    SidesAppend(n, b, t, quads, which, faces[k], order[k] - 2);
  }

  lemma {:induction false} SidesAppend(n: nat, b: seq<int>, t: seq<int>, quads: seq<seq<int>>, which: seq<int>, quad: seq<int>, c: nat)
    requires SidesAre(n, b, t, quads, which) && c < n && SameSet(quad, Side(n, b, t, c))
    ensures SidesAre(n, b, t, quads + [quad], which + [c])
  {
    var more, all := quads + [quad], which + [c];
    forall q: nat | q < |more| ensures 0 <= all[q] < n && SameSet(more[q], Side(n, b, t, all[q])) {
      if q < |quads| { assert more[q] == quads[q]; }
    }
  }

  lemma {:induction false} CollectNothing(n: nat, faces: seq<seq<int>>, b: seq<int>, t: seq<int>, order: seq<int>, k: nat, quads: seq<seq<int>>, which: seq<int>)
    requires Collected(n, faces, b, t, order, k, quads, which) && k < n + 2 && order[k] < 2
    ensures Collected(n, faces, b, t, order, k + 1, quads, which)
  {
    TrackNothing(order, n, k, which);
  }

  ghost function IndexOf(s: seq<int>, x: int): (i: int)
    requires x in s
    ensures 0 <= i < |s| && s[i] == x
  {
    if s[|s| - 1] == x then |s| - 1 else IndexOf(s[..|s| - 1], x)
  }

  /** A list of different numbers below `n` that contains them all. */
  lemma {:induction false} CompleteOrder(which: seq<int>, n: nat)
    requires NoRepeat(which) && (forall q :: 0 <= q < |which| ==> 0 <= which[q] < n) && forall c :: 0 <= c < n ==> c in which
    ensures IsOrder(which, n)
  {
    Pigeonhole(which, n);
    var positions := seq(n, c requires 0 <= c < n => IndexOf(which, c));
    forall i, j | 0 <= i < j < |positions| ensures positions[i] != positions[j] {
      assert which[positions[i]] == i && which[positions[j]] == j;
    }
    Pigeonhole(positions, |which|);
  }

  lemma {:induction false} AllCollected(n: nat, faces: seq<seq<int>>, b: seq<int>, t: seq<int>, order: seq<int>, quads: seq<seq<int>>, which: seq<int>)
    requires Collected(n, faces, b, t, order, n + 2, quads, which)
    ensures AreSides(n, b, t, quads, which)
  {
    forall c | 0 <= c < n ensures c in which {
      var k := OrderHits(order, n + 2, c + 2);
      assert Seen(order, n + 2, c);
    }
    forall q | 0 <= q < |which| ensures 0 <= which[q] < n { assert SameSet(quads[q], Side(n, b, t, which[q])); }
    CompleteOrder(which, n);
  }

  // ---------------------------------------------------------------- the conversions

  predicate ShareVertices(f: seq<int>, g: seq<int>) {
    exists x :: x in f && x in g
  }

  /** Sides share vertices with the base, the top does not. */
  lemma {:induction false} SharesWithBase(n: nat, faces: seq<seq<int>>, b: seq<int>, t: seq<int>, order: seq<int>, base: seq<int>, k: nat)
    requires Shape(n, faces, b, t, order) && SameSet(base, b) && k < n + 2 && order[k] != 0
    ensures ShareVertices(faces[k], base) <==> order[k] >= 2
  {
    assert FaceIs(n, faces, b, t, order, k);
    if order[k] >= 2 {
      assert b[order[k] - 2] in Side(n, b, t, order[k] - 2);
      assert b[order[k] - 2] in b;
    } else {
      forall x | x in faces[k] ensures x !in base { assert x in t; }
    }
  }

  /** The emitted element is a prism over the base with the corners above, and its faces are the given ones. */
  ghost predicate Emitted(n: nat, faces: seq<seq<int>>, out: seq<int>, order: seq<int>) {
    |out| == 2 * n && Shape(n, faces, out[..n], out[n..], order)
  }

  /** The emitted vertices are different. */
  lemma {:induction false} EmittedDistinct(n: nat, faces: seq<seq<int>>, out: seq<int>, order: seq<int>)
    requires Emitted(n, faces, out, order)
    ensures NoRepeat(out)
  {
    forall i, j | 0 <= i < j < |out| ensures out[i] != out[j] {
      var b, t := out[..n], out[n..];
      assert i < n ==> out[i] == b[i];
      assert i >= n ==> out[i] == t[i - n];
      assert j < n ==> out[j] == b[j];
      assert j >= n ==> out[j] == t[j - n];
    }
  }

  /** The base of a hexahedron: the first face, so that it is seen from inside. */
  lemma {:induction false} HexahedronBase(faces: seq<seq<int>>, left: bool, b: seq<int>, t: seq<int>, order: seq<int>) returns (top: seq<int>, order': seq<int>)
    requires IsHexahedron(faces, b, t, order)
    ensures Shape(4, faces, if left then Reversed(faces[0]) else faces[0], top, order') && order'[0] == 0
  {
    top, order' := FirstAsBase(faces, b, t, order);
    if left {
      var o := MirrorShape(4, faces, faces[0], top, order');
      top, order' := Reversed(top), o;
    }
  }

  /**
   Convert a hexahedron given by its six faces, in any order; `left` tells that the cell is the left parent of its first face.
   The emitted vertices begin with the first face seen from inside, are all different, and the faces of the emitted element are
   the given ones.
   */
  method ConvertHexahedron(faces: seq<seq<int>>, left: bool, ghost b: seq<int>, ghost t: seq<int>, ghost order: seq<int>)
    returns (out: seq<int>, ghost order': seq<int>)
    requires IsHexahedron(faces, b, t, order)
    ensures Emitted(4, faces, out, order') && order'[0] == 0
    ensures out[..4] == if left then Reversed(faces[0]) else faces[0]
  {
    var base := if left then Reversed(faces[0]) else faces[0];
    ghost var top;
    top, order' := HexahedronBase(faces, left, b, t, order);
    if left { ReversedSameSet(faces[0]); }
    var sides: seq<seq<int>> := [];
    ghost var which: seq<int> := [];
    CollectNothing(4, faces, base, top, order', 0, sides, which);
    for i := 1 to 6
      invariant Collected(4, faces, base, top, order', i, sides, which)
    {
      assert order'[i] != order'[0];
      SharesWithBase(4, faces, base, top, order', faces[0], i);
      if ShareVertices(faces[i], faces[0]) {
        CollectSide(4, faces, base, top, order', i, sides, which);
        sides, which := sides + [faces[i]], which + [order'[i] - 2];
      } else {
        CollectNothing(4, faces, base, top, order', i, sides, which);
      }
    }
    AllCollected(4, faces, base, top, order', sides, which);
    var above := NodesAbove(base, sides, 4, top, which);
    out := base + above;
    assert out[..4] == base && out[4..] == top;
  }

  /** The base of a prism: its first triangle, so that it is seen from inside. */
  lemma {:induction false} PrismBase(faces: seq<seq<int>>, k: nat, left: bool, b: seq<int>, t: seq<int>, order: seq<int>) returns (top: seq<int>, order': seq<int>)
    requires Shape(3, faces, b, t, order) && k < 5 && |faces[k]| == 3
    ensures Shape(3, faces, if left then Reversed(faces[k]) else faces[k], top, order') && order'[k] == 0
  {
    top, order' := TriangleAsBase(faces, b, t, order, k);
    if left {
      var o := MirrorShape(3, faces, faces[k], top, order');
      top, order' := Reversed(top), o;
    }
  }

  lemma {:induction false} SizeTellsSide(faces: seq<seq<int>>, b: seq<int>, t: seq<int>, order: seq<int>, k: nat)
    requires Shape(3, faces, b, t, order) && k < 5
    ensures |faces[k]| == 3 <==> order[k] < 2
  {
    assert FaceIs(3, faces, b, t, order, k);
  }

  /**
   Convert a prism given by two triangles and three quads, in any order; `left[k]` tells that the cell is the left parent of
   face `k`.  The base is the first triangle.
   */
  method ConvertPrism(faces: seq<seq<int>>, left: seq<bool>, ghost b: seq<int>, ghost t: seq<int>, ghost order: seq<int>)
    returns (out: seq<int>, tri: nat, ghost order': seq<int>)
    requires Shape(3, faces, b, t, order) && |left| == 5
    ensures Emitted(3, faces, out, order') && tri < 5 && order'[tri] == 0
    ensures |faces[tri]| == 3 && forall k :: 0 <= k < tri ==> |faces[k]| != 3
    ensures out[..3] == if left[tri] then Reversed(faces[tri]) else faces[tri]
  {
    tri := FirstTriangle(faces, b, t, order);
    var base := if left[tri] then Reversed(faces[tri]) else faces[tri];
    ghost var top;
    top, order' := PrismBase(faces, tri, left[tri], b, t, order);
    var quads: seq<seq<int>> := [];
    ghost var which: seq<int> := [];
    for k := 0 to 5
      invariant Collected(3, faces, base, top, order', k, quads, which)
    {
      SizeTellsSide(faces, base, top, order', k);
      if |faces[k]| != 3 {
        CollectSide(3, faces, base, top, order', k, quads, which);
        quads, which := quads + [faces[k]], which + [order'[k] - 2];
      } else {
        CollectNothing(3, faces, base, top, order', k, quads, which);
      }
    }
    AllCollected(3, faces, base, top, order', quads, which);
    var above := NodesAbove(base, quads, 3, top, which);
    out := base + above;
    assert out[..3] == base && out[3..] == top;
  }

  method FirstTriangle(faces: seq<seq<int>>, ghost b: seq<int>, ghost t: seq<int>, ghost order: seq<int>) returns (tri: nat)
    requires Shape(3, faces, b, t, order)
    ensures tri < 5 && |faces[tri]| == 3 && forall k :: 0 <= k < tri ==> |faces[k]| != 3
  {
    ghost var there := OrderHits(order, 5, 0);
    SizeTellsSide(faces, b, t, order, there);
    tri := 0;
    while |faces[tri]| != 3
      invariant 0 <= tri <= there && forall k :: 0 <= k < tri ==> |faces[k]| != 3
      decreases there - tri
    {
      tri := tri + 1;
    }
  }

  // ---------------------------------------------------------------- the faces of the CGNS elements

  /** The faces of HEXA_8, as vertex sets. */
  lemma {:induction false} HexahedronFaces(v: seq<int>)
    requires |v| == 8
    ensures var b, t := v[..4], v[4..];
            && Face(4, b, t, 0) == [v[0], v[1], v[2], v[3]] && Face(4, b, t, 1) == [v[4], v[5], v[6], v[7]]
            && Face(4, b, t, 2) == [v[0], v[1], v[5], v[4]] && Face(4, b, t, 3) == [v[1], v[2], v[6], v[5]]
            && Face(4, b, t, 4) == [v[2], v[3], v[7], v[6]] && Face(4, b, t, 5) == [v[3], v[0], v[4], v[7]]
  {
    assert v[..4] == [v[0], v[1], v[2], v[3]] && v[4..] == [v[4], v[5], v[6], v[7]];
  }

  /** The faces of PENTA_6, as vertex sets. */
  lemma {:induction false} PrismFaces(v: seq<int>)
    requires |v| == 6
    ensures var b, t := v[..3], v[3..];
            && Face(3, b, t, 0) == [v[0], v[1], v[2]] && Face(3, b, t, 1) == [v[3], v[4], v[5]]
            && Face(3, b, t, 2) == [v[0], v[1], v[4], v[3]] && Face(3, b, t, 3) == [v[1], v[2], v[5], v[4]]
            && Face(3, b, t, 4) == [v[2], v[0], v[3], v[5]]
  {
    assert v[..3] == [v[0], v[1], v[2]] && v[3..] == [v[3], v[4], v[5]];
  }
}

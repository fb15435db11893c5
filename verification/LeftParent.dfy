/**
 Orientation of faces so that each has a left parent (enforce_pe_left_parent in maia/algo/part/part_algo.pybind.cpp).

 The routine swaps the parents of a face, reverses its vertices and changes its sign in the description of its cell,
 each in place.
 */
module LeftParent {
  import opened Basics
  import opened Counting

  /**
   A polyhedral mesh.  Vertices of face `j` are listed in `faceVtx` from `faceIdx[j]`, its parents are `pe[j]`, 0 for none.
   Faces of cell `c` are listed in `cellFace` from `cellIdx[c]`, positive when the face points out of the cell.
   Faces and cells have consecutive numbers from 1, faces first when `ngonFirst`.
   */
  datatype Mesh = Mesh(ngonFirst: bool, faceIdx: seq<nat>, faceVtx: seq<int>, pe: seq<(int, int)>,
                       cellIdx: seq<nat>, cellFace: seq<int>)

  function Faces(m: Mesh): nat { |m.pe| }

  function Cells(m: Mesh): nat { if m.cellIdx == [] then 0 else |m.cellIdx| - 1 }

  /** What is added to a face index or to a cell index to get its number. */
  function FaceShift(m: Mesh): nat { 1 + if m.ngonFirst then 0 else Cells(m) }

  function CellShift(m: Mesh): nat { 1 + if m.ngonFirst then Faces(m) else 0 }

  /** Offsets of consecutive rows. */
  ghost predicate Offsets(idx: seq<nat>, rows: nat, len: nat) {
    && |idx| == rows + 1 && idx[0] == 0 && idx[rows] == len
    && forall i, j :: 0 <= i <= j <= rows ==> idx[i] <= idx[j]
  }

  ghost predicate IsFaceId(m: Mesh, x: int) {
    0 <= x - FaceShift(m) < Faces(m)
  }

  ghost predicate IsCellId(m: Mesh, x: int) {
    0 <= x - CellShift(m) < Cells(m)
  }

  ghost predicate InRow(m: Mesh, c: int, k: int) {
    0 <= c < |m.cellIdx| - 1 && m.cellIdx[c] <= k < m.cellIdx[c + 1]
  }

  ghost predicate ShapeOk(m: Mesh) {
    Offsets(m.faceIdx, |m.pe|, |m.faceVtx|) && m.cellIdx != [] && Offsets(m.cellIdx, |m.cellIdx| - 1, |m.cellFace|)
  }

  /** A face has a parent; its parents are cells. */
  ghost predicate ParentsOk(m: Mesh, j: nat)
    requires j < |m.pe|
  {
    && (m.pe[j].0 != 0 || m.pe[j].1 != 0)
    && (m.pe[j].0 == 0 || IsCellId(m, m.pe[j].0)) && (m.pe[j].1 == 0 || IsCellId(m, m.pe[j].1))
  }

  /** The parent of face `j` that sees it with the given sign. */
  function Parent(m: Mesh, j: nat, positive: bool): int
    requires j < |m.pe|
  {
    if positive then m.pe[j].0 else m.pe[j].1
  }

  /** Entry `k` names a face, and the cell is the parent on the side given by the sign. */
  ghost predicate EntryOk(m: Mesh, c: int, k: nat)
    requires k < |m.cellFace|
  {
    var x := m.cellFace[k];
    IsFaceId(m, Abs(x)) && Parent(m, Abs(x) - FaceShift(m), x > 0) == c + CellShift(m)
  }

  ghost predicate Listed(m: Mesh, j: nat, positive: bool)
    requires j < |m.pe|
  {
    var x := if positive then j + FaceShift(m) else -(j + FaceShift(m));
    exists k :: 0 <= k < |m.cellFace| && m.cellFace[k] == x && InRow(m, Parent(m, j, positive) - CellShift(m), k)
  }

  /** The parents of the faces and the faces of the cells say the same. */
  ghost predicate Consistent(m: Mesh) {
    && ShapeOk(m) && NoRepeat(m.cellFace)
    && (forall j {:trigger m.pe[j]} :: 0 <= j < |m.pe| ==> ParentsOk(m, j))
    && (forall c, k {:trigger InRow(m, c, k)} :: InRow(m, c, k) ==> EntryOk(m, c, k))
    && forall j: nat, s: bool {:trigger Listed(m, j, s)} :: j < |m.pe| && Parent(m, j, s) != 0 ==> Listed(m, j, s)
  }

  // ---------------------------------------------------------------- which section comes first

  /** The routine takes the faces to come first when the first face has a parent beyond their count. */
  predicate GuessFacesFirst(pe: seq<(int, int)>) {
    pe != [] && (pe[0].0 > |pe| || pe[0].1 > |pe|)
  }

  /** Sides of faces, numbered from 0. */
  ghost function SideCode(m: Mesh, x: int): int {
    2 * (Abs(x) - FaceShift(m)) + if x > 0 then 0 else 1
  }

  /** The row that holds position `k`. */
  ghost function RowAt(idx: seq<nat>, k: nat, n: nat): (c: nat)
    requires n < |idx| && idx[0] == 0 && k < idx[n]
    ensures c < n && idx[c] <= k < idx[c + 1]
    decreases n
  {
    if idx[n - 1] <= k then n - 1 else RowAt(idx, k, n - 1)
  }

  lemma {:induction false} EntryIsOk(m: Mesh, k: nat) returns (c: nat)
    requires Consistent(m) && k < |m.cellFace|
    ensures InRow(m, c, k) && EntryOk(m, c, k)
  {
    c := RowAt(m.cellIdx, k, |m.cellIdx| - 1);
    assert InRow(m, c, k);
  }

  /** A face has two sides, so the cells list at most twice as many faces as there are. */
  lemma {:induction false} EntriesBound(m: Mesh)
    requires Consistent(m)
    ensures |m.cellFace| <= 2 * Faces(m)
  {
    var codes := seq(|m.cellFace|, k requires 0 <= k < |m.cellFace| => SideCode(m, m.cellFace[k]));
    forall k | 0 <= k < |codes| ensures 0 <= codes[k] < 2 * Faces(m) { var c := EntryIsOk(m, k); }
    forall k, l | 0 <= k < l < |codes| ensures codes[k] != codes[l] {
      var c := EntryIsOk(m, k);
      var d := EntryIsOk(m, l);
      assert m.cellFace[k] != m.cellFace[l];
    }
    Pigeonhole(codes, 2 * Faces(m));
  }

  lemma {:induction false} RowsBound(m: Mesh, n: nat)
    requires ShapeOk(m) && n <= Cells(m) && forall c :: 0 <= c < Cells(m) ==> m.cellIdx[c + 1] - m.cellIdx[c] >= 4
    ensures m.cellIdx[n] >= 4 * n
    decreases n
  {
    if n > 0 { RowsBound(m, n - 1); assert m.cellIdx[n - 1 + 1] - m.cellIdx[n - 1] >= 4; }
  }

  /** The guess is right, because a mesh whose cells have four faces or more has less cells than faces. */
  lemma {:induction false} GuessIsRight(m: Mesh)
    requires Consistent(m) && Faces(m) > 0
    requires forall c :: 0 <= c < Cells(m) ==> m.cellIdx[c + 1] - m.cellIdx[c] >= 4
    ensures GuessFacesFirst(m.pe) <==> m.ngonFirst
  {
    EntriesBound(m);
    RowsBound(m, Cells(m));
    assert ParentsOk(m, 0);
  }

  /** In general the guess fails exactly when cells come first and the first face has a parent beyond the number of faces. */
  lemma {:induction false} GuessFailsWhen(m: Mesh)
    requires Consistent(m) && Faces(m) > 0
    ensures (GuessFacesFirst(m.pe) <==> m.ngonFirst) <==> (m.ngonFirst || (m.pe[0].0 <= Faces(m) && m.pe[0].1 <= Faces(m)))
  {
    assert ParentsOk(m, 0);
  }

  /** The row in which the routine looks for a face of the cell with number `x`. */
  function GuessedRow(pe: seq<(int, int)>, x: int): int {
    x - 1 - if GuessFacesFirst(pe) then |pe| else 0
  }

  /**
   Two cells come first, then one face, seen by the second cell only.  Its parent 2 is beyond the number of faces, so the faces
   are taken to come first, and the face is sought among the faces of the other cell.
   */
  lemma {:induction false} WrongGuess()
    ensures var m := Mesh(false, [0, 3], [1, 2, 3], [(0, 2)], [0, 0, 1], [-3]);
            && Consistent(m) && !m.ngonFirst && GuessFacesFirst(m.pe)
            && InRow(m, 1, 0) && EntryOk(m, 1, 0) && GuessedRow(m.pe, 2) == 0
  {
    var m := Mesh(false, [0, 3], [1, 2, 3], [(0, 2)], [0, 0, 1], [-3]);
    assert InRow(m, 1, 0) && m.cellFace[0] == -3;
    forall c, k | InRow(m, c, k) ensures EntryOk(m, c, k) { assert c == 1 && k == 0; }
    assert Listed(m, 0, false);
  }

  // ---------------------------------------------------------------- what the routine does, on values

  /** The face had no left parent. */
  predicate Flipped(pe: seq<(int, int)>, j: int) {
    0 <= j < |pe| && pe[j].0 == 0
  }

  function Row(idx: seq<nat>, data: seq<int>, j: nat): seq<int> {
    if j + 1 < |idx| && idx[j] <= idx[j + 1] <= |data| then data[idx[j]..idx[j + 1]] else []
  }

  function SwappedPe(p: (int, int)): (int, int) {
    if p.0 == 0 then (p.1, 0) else p
  }

  function FlippedEntry(pe: seq<(int, int)>, shift: nat, x: int): int {
    if Flipped(pe, Abs(x) - shift) then -x else x
  }

  function FlippedRow(pe: seq<(int, int)>, j: nat, row: seq<int>): seq<int> {
    if Flipped(pe, j) then Reversed(row) else row
  }

  /** The mesh `a` is the mesh `b` with the faces that had no left parent turned. */
  ghost predicate Turns(b: Mesh, a: Mesh) {
    && a.ngonFirst == b.ngonFirst && a.faceIdx == b.faceIdx && a.cellIdx == b.cellIdx
    && |a.pe| == |b.pe| && (forall j :: 0 <= j < |b.pe| ==> a.pe[j] == SwappedPe(b.pe[j]))
    && |a.faceVtx| == |b.faceVtx|
    && (forall j: nat {:trigger Row(a.faceIdx, a.faceVtx, j)} :: j < |b.pe| ==>
          Row(a.faceIdx, a.faceVtx, j) == FlippedRow(b.pe, j, Row(b.faceIdx, b.faceVtx, j)))
    && |a.cellFace| == |b.cellFace|
    && forall k :: 0 <= k < |b.cellFace| ==> a.cellFace[k] == FlippedEntry(b.pe, FaceShift(b), b.cellFace[k])
  }

  /** Every face gets a left parent. */
  lemma {:induction false} TurnedHasLeftParent(b: Mesh, a: Mesh, j: nat)
    requires Turns(b, a) && Consistent(b) && j < |a.pe|
    ensures a.pe[j].0 != 0
  {
    assert ParentsOk(b, j);
  }

  /** Faces that have a left parent are left alone; the other ones get their only parent on the left, and their vertices reversed. */
  lemma {:induction false} OnlyOrphansTurn(b: Mesh, a: Mesh, j: nat)
    requires Turns(b, a) && j < |b.pe|
    ensures b.pe[j].0 != 0 ==> a.pe[j] == b.pe[j] && Row(a.faceIdx, a.faceVtx, j) == Row(b.faceIdx, b.faceVtx, j)
    ensures b.pe[j].0 == 0 ==> a.pe[j] == (b.pe[j].1, 0) && Row(a.faceIdx, a.faceVtx, j) == Reversed(Row(b.faceIdx, b.faceVtx, j))
    ensures forall k :: 0 <= k < |b.cellFace| && Abs(b.cellFace[k]) == j + FaceShift(b) ==>
              a.cellFace[k] == if b.pe[j].0 != 0 then b.cellFace[k] else -b.cellFace[k]
  {
    assert a.pe[j] == SwappedPe(b.pe[j]);
    assert Row(a.faceIdx, a.faceVtx, j) == FlippedRow(b.pe, j, Row(b.faceIdx, b.faceVtx, j));
  }

  lemma {:induction false} TurnedEntryOk(b: Mesh, a: Mesh, c: int, k: nat)
    requires Turns(b, a) && Consistent(b) && InRow(b, c, k)
    ensures k < |a.cellFace| && EntryOk(a, c, k)
  {
    assert EntryOk(b, c, k);
    var j := Abs(b.cellFace[k]) - FaceShift(b);
    assert a.pe[j] == SwappedPe(b.pe[j]);
  }

  /** A face without left parent is listed once, with the negative sign. */
  lemma {:induction false} FlippedIsNegative(b: Mesh, k: nat)
    requires Consistent(b) && k < |b.cellFace| && Flipped(b.pe, Abs(b.cellFace[k]) - FaceShift(b))
    ensures b.cellFace[k] < 0
  {
    var c := EntryIsOk(b, k);
  }

  lemma {:induction false} MentionTurned(b: Mesh, a: Mesh, j: nat, s: bool, was: bool, k: nat)
    requires Turns(b, a) && j < |b.pe| && was == (if Flipped(b.pe, j) then false else s) && Parent(a, j, s) == Parent(b, j, was) != 0
    requires k < |b.cellFace| && b.cellFace[k] == (if was then j + FaceShift(b) else -(j + FaceShift(b)))
    requires InRow(b, Parent(b, j, was) - CellShift(b), k)
    ensures Listed(a, j, s)
  {
    assert a.pe[j] == SwappedPe(b.pe[j]);
    assert a.cellFace[k] == if s then j + FaceShift(a) else -(j + FaceShift(a));
    assert InRow(a, Parent(a, j, s) - CellShift(a), k);
  }

  lemma {:induction false} TurnedListed(b: Mesh, a: Mesh, j: nat, s: bool)
    requires Turns(b, a) && Consistent(b) && j < |a.pe| && Parent(a, j, s) != 0
    ensures Listed(a, j, s)
  {
    var was := if Flipped(b.pe, j) then false else s;
    assert a.pe[j] == SwappedPe(b.pe[j]);
    ListedFor(b, j, was);
    var x := if was then j + FaceShift(b) else -(j + FaceShift(b));
    var k :| 0 <= k < |b.cellFace| && b.cellFace[k] == x && InRow(b, Parent(b, j, was) - CellShift(b), k);
    MentionTurned(b, a, j, s, was, k);
  }

  lemma {:induction false} TurnedDistinct(b: Mesh, a: Mesh)
    requires Turns(b, a) && Consistent(b)
    ensures NoRepeat(a.cellFace)
  {
    forall k, l | 0 <= k < l < |a.cellFace| ensures a.cellFace[k] != a.cellFace[l] {
      var x, y := b.cellFace[k], b.cellFace[l];
      assert x != y;
      if Abs(x) == Abs(y) && Flipped(b.pe, Abs(x) - FaceShift(b)) {
        FlippedIsNegative(b, k);
        FlippedIsNegative(b, l);
      }
    }
  }

  /** The parents of the faces and the faces of the cells still say the same. */
  lemma {:induction false} TurnedIsConsistent(b: Mesh, a: Mesh)
    requires Turns(b, a) && Consistent(b)
    ensures Consistent(a)
  {
    TurnedDistinct(b, a);
    forall j | 0 <= j < |a.pe| ensures ParentsOk(a, j) { assert ParentsOk(b, j); assert a.pe[j] == SwappedPe(b.pe[j]); }
    forall c, k | InRow(a, c, k) ensures EntryOk(a, c, k) { assert InRow(b, c, k); TurnedEntryOk(b, a, c, k); }
    forall j: nat, s: bool | j < |a.pe| && Parent(a, j, s) != 0 ensures Listed(a, j, s) { TurnedListed(b, a, j, s); }
  }

  /** The vertices of a face as seen from its left, or from its right. */
  function Oriented(row: seq<int>, left: bool): seq<int> { if left then row else Reversed(row) }

  lemma {:induction false} OrientedAlike(row: seq<int>, x: int, flipped: bool)
    requires x != 0 && (flipped ==> x < 0)
    ensures Oriented(if flipped then Reversed(row) else row, (if flipped then -x else x) > 0) == Oriented(row, x > 0)
  {
  }

  /** The vertices of a face in the order in which its cell sees it from outside. */
  function Outward(m: Mesh, k: nat): seq<int>
    requires k < |m.cellFace| && Abs(m.cellFace[k]) >= FaceShift(m)
  {
    Oriented(Row(m.faceIdx, m.faceVtx, Abs(m.cellFace[k]) - FaceShift(m)), m.cellFace[k] > 0)
  }

  lemma {:induction false} OutwardTurned(b: Mesh, a: Mesh, k: nat, j: nat)
    requires Turns(b, a) && k < |b.cellFace| && b.cellFace[k] != 0 && j < |b.pe| && Abs(b.cellFace[k]) == j + FaceShift(b)
    requires Flipped(b.pe, j) ==> b.cellFace[k] < 0
    ensures Abs(a.cellFace[k]) == j + FaceShift(a) && Outward(a, k) == Outward(b, k)
  {
    TurnedRow(b, a, j);
    assert a.cellFace[k] == FlippedEntry(b.pe, FaceShift(b), b.cellFace[k]);
    OrientedAlike(Row(b.faceIdx, b.faceVtx, j), b.cellFace[k], Flipped(b.pe, j));
  }

  /** Every cell keeps its outward vertex cycles. */
  lemma {:induction false} TurnedKeepsOutward(b: Mesh, a: Mesh, k: nat)
    requires Turns(b, a) && Consistent(b) && k < |b.cellFace|
    ensures Abs(b.cellFace[k]) >= FaceShift(b) && Abs(a.cellFace[k]) >= FaceShift(a)
    ensures Outward(a, k) == Outward(b, k)
  {
    var j := EntryFace(b, k);
    OutwardTurned(b, a, k, j);
  }

  /** The face that an entry names; without left parent it is named with the negative sign. */
  lemma {:induction false} EntryFace(b: Mesh, k: nat) returns (j: nat)
    requires Consistent(b) && k < |b.cellFace|
    ensures j < |b.pe| && Abs(b.cellFace[k]) == j + FaceShift(b) && (Flipped(b.pe, j) ==> b.cellFace[k] < 0)
  {
    var c := EntryIsOk(b, k);
    j := Abs(b.cellFace[k]) - FaceShift(b);
    if Flipped(b.pe, j) { FlippedIsNegative(b, k); }
  }

  lemma {:induction false} TurnedRow(b: Mesh, a: Mesh, j: nat)
    requires Turns(b, a) && j < |b.pe|
    ensures Row(a.faceIdx, a.faceVtx, j) == if Flipped(b.pe, j) then Reversed(Row(b.faceIdx, b.faceVtx, j)) else Row(b.faceIdx, b.faceVtx, j)
  {
    assert Row(a.faceIdx, a.faceVtx, j) == FlippedRow(b.pe, j, Row(b.faceIdx, b.faceVtx, j));
  }

  /** What a parent sees, going by the parents of the faces alone. */
  function SeenBy(m: Mesh, j: nat, cell: int): seq<int>
    requires j < |m.pe|
  {
    var row := Row(m.faceIdx, m.faceVtx, j);
    if m.pe[j].0 == cell then row else if m.pe[j].1 == cell then Reversed(row) else []
  }

  /** Every parent sees its faces as before. */
  lemma {:induction false} TurnedIsSeenAlike(b: Mesh, a: Mesh, j: nat, cell: int)
    requires Turns(b, a) && j < |b.pe| && cell != 0
    ensures SeenBy(a, j, cell) == SeenBy(b, j, cell)
  {
    assert Row(a.faceIdx, a.faceVtx, j) == FlippedRow(b.pe, j, Row(b.faceIdx, b.faceVtx, j));
    assert a.pe[j] == SwappedPe(b.pe[j]);
  }

  /** Doing it again changes nothing. */
  lemma {:induction false} TurningTwice(b: Mesh, a: Mesh, again: Mesh)
    requires Turns(b, a) && Turns(a, again) && Consistent(b)
    ensures again == a
  {
    forall j: nat | j < |a.pe| ensures !Flipped(a.pe, j) { TurnedHasLeftParent(b, a, j); }
    assert again.pe == a.pe;
    assert again.cellFace == a.cellFace;
    forall q: nat | q < |a.faceVtx| ensures again.faceVtx[q] == a.faceVtx[q] {
      var j := RowAt(a.faceIdx, q, |a.pe|);
      assert Row(again.faceIdx, again.faceVtx, j) == Row(a.faceIdx, a.faceVtx, j);
      assert Row(a.faceIdx, a.faceVtx, j)[q - a.faceIdx[j]] == a.faceVtx[q];
    }
  }

  // ---------------------------------------------------------------- the routine

  method ReverseRange(a: array<int>, lo: nat, hi: nat)
    requires lo <= hi <= a.Length
    modifies a
    ensures forall q :: lo <= q < hi ==> a[q] == old(a[lo + hi - 1 - q])
    ensures forall q :: 0 <= q < a.Length && !(lo <= q < hi) ==> a[q] == old(a[q])
  {
    var i, j := lo, hi;
    while i + 1 < j
      invariant lo <= i <= j + 1 && i + j == lo + hi
      invariant forall q :: 0 <= q < a.Length ==>
                  a[q] == if lo <= q < hi && !(i <= q < j) then old(a[lo + hi - 1 - q]) else old(a[q])
      decreases j - i
    {
      j := j - 1;
      a[i], a[j] := a[j], a[i];
      i := i + 1;
    }
  }

  /** The first position in a range that names a face, or the end of the range. */
  method FindFace(a: array<int>, lo: nat, hi: nat, id: nat) returns (k: nat)
    requires lo <= hi <= a.Length
    ensures lo <= k <= hi && (k < hi ==> Abs(a[k]) == id)
    ensures forall l :: lo <= l < k ==> Abs(a[l]) != id
  {
    k := lo;
    while k < hi && Abs(a[k]) != id
      invariant lo <= k <= hi && forall l :: lo <= l < k ==> Abs(a[l]) != id
    {
      k := k + 1;
    }
  }

  ghost predicate PeDone(pe: array2<int>, was: seq<(int, int)>, i: nat)
    reads pe
  {
    && pe.Length1 == 2 && pe.Length0 == |was|
    && forall j :: 0 <= j < |was| ==> (pe[j, 0], pe[j, 1]) == if j < i then SwappedPe(was[j]) else was[j]
  }

  ghost predicate VtxDone(faceVtx: array<int>, b: Mesh, i: nat)
    reads faceVtx
  {
    && faceVtx.Length == |b.faceVtx|
    && forall j: nat {:trigger Row(b.faceIdx, faceVtx[..], j)} :: j < |b.pe| ==>
         Row(b.faceIdx, faceVtx[..], j) == FlippedRow(if j < i then b.pe else [], j, Row(b.faceIdx, b.faceVtx, j))
  }

  ghost predicate CellsDone(cellFace: array<int>, b: Mesh, i: nat)
    reads cellFace
  {
    && cellFace.Length == |b.cellFace|
    && forall k :: 0 <= k < |b.cellFace| ==>
         cellFace[k] == if Abs(b.cellFace[k]) - FaceShift(b) < i then FlippedEntry(b.pe, FaceShift(b), b.cellFace[k]) else b.cellFace[k]
  }

  lemma {:induction false} ListedFor(b: Mesh, j: nat, s: bool)
    requires Consistent(b) && j < |b.pe| && Parent(b, j, s) != 0
    ensures Listed(b, j, s)
  {
  }

  /** The only mention of a face without left parent. */
  lemma {:induction false} OnlyMention(b: Mesh, i: nat) returns (k: nat)
    requires Consistent(b) && i < |b.pe| && b.pe[i].0 == 0
    ensures IsCellId(b, b.pe[i].1) && InRow(b, b.pe[i].1 - CellShift(b), k) && k < |b.cellFace| && b.cellFace[k] == -(i + FaceShift(b))
    ensures forall l :: 0 <= l < |b.cellFace| && Abs(b.cellFace[l]) == i + FaceShift(b) ==> l == k
  {
    assert ParentsOk(b, i);
    ListedFor(b, i, false);
    k :| 0 <= k < |b.cellFace| && b.cellFace[k] == -(i + FaceShift(b)) && InRow(b, b.pe[i].1 - CellShift(b), k);
    forall l | 0 <= l < |b.cellFace| && Abs(b.cellFace[l]) == i + FaceShift(b) ensures l == k { FlippedIsNegative(b, l); }
  }

  /** Change the sign of a face in the description of its cell. */
  method TurnInCell(cellIdx: seq<nat>, cellFace: array<int>, cell: nat, id: nat, ghost b: Mesh, ghost i: nat)
    requires Consistent(b) && b.cellIdx == cellIdx && i < |b.pe| && b.pe[i].0 == 0
    requires cell == b.pe[i].1 - CellShift(b) && id == i + FaceShift(b) && CellsDone(cellFace, b, i)
    modifies cellFace
    ensures CellsDone(cellFace, b, i + 1)
  {
    ghost var only := OnlyMention(b, i);
    assert InRow(b, cell, only);
    assert cellIdx[cell + 1] <= cellIdx[|cellIdx| - 1];
    var k := FindFace(cellFace, cellIdx[cell], cellIdx[cell + 1], id);
    if k < cellIdx[cell + 1] { cellFace[k] := -cellFace[k]; }
  }

  lemma {:induction false} SliceKept(before: seq<int>, after: seq<int>, lo: nat, hi: nat)
    requires lo <= hi <= |before| == |after| && forall q :: lo <= q < hi ==> after[q] == before[q]
    ensures after[lo..hi] == before[lo..hi]
  {
  }

  lemma {:induction false} SliceReversed(before: seq<int>, after: seq<int>, lo: nat, hi: nat)
    requires lo <= hi <= |before| == |after| && forall q :: lo <= q < hi ==> after[q] == before[lo + hi - 1 - q]
    ensures after[lo..hi] == Reversed(before[lo..hi])
  {
  }

  lemma {:induction false} RowReversed(idx: seq<nat>, before: seq<int>, after: seq<int>, i: nat, j: nat, n: nat)
    requires Offsets(idx, n, |before|) && |after| == |before| && i < n && j < n
    requires forall q :: idx[i] <= q < idx[i + 1] ==> after[q] == before[idx[i] + idx[i + 1] - 1 - q]
    requires forall q :: 0 <= q < |before| && !(idx[i] <= q < idx[i + 1]) ==> after[q] == before[q]
    ensures Row(idx, after, j) == if j == i then Reversed(Row(idx, before, j)) else Row(idx, before, j)
  {
    assert idx[j] <= idx[j + 1] <= idx[n];
    if j == i {
      SliceReversed(before, after, idx[j], idx[j + 1]);
    } else {
      assert if j < i then idx[j + 1] <= idx[i] else idx[i + 1] <= idx[j];
      SliceKept(before, after, idx[j], idx[j + 1]);
    }
  }

  /** Reverse the vertices of a face. */
  method TurnVertices(faceIdx: seq<nat>, faceVtx: array<int>, i: nat, ghost b: Mesh)
    requires Offsets(faceIdx, |b.pe|, |b.faceVtx|) && b.faceIdx == faceIdx && i < |b.pe| && b.pe[i].0 == 0 && VtxDone(faceVtx, b, i)
    modifies faceVtx
    ensures VtxDone(faceVtx, b, i + 1)
  {
    ghost var before := faceVtx[..];
    assert faceIdx[i] <= faceIdx[i + 1] <= faceIdx[|b.pe|];
    ReverseRange(faceVtx, faceIdx[i], faceIdx[i + 1]);
    forall j: nat | j < |b.pe|
      ensures Row(faceIdx, faceVtx[..], j) == FlippedRow(if j < i + 1 then b.pe else [], j, Row(faceIdx, b.faceVtx, j))
    {
      RowReversed(faceIdx, before, faceVtx[..], i, j, |b.pe|);
      assert Row(faceIdx, before, j) == FlippedRow(if j < i then b.pe else [], j, Row(faceIdx, b.faceVtx, j));
    }
  }

  ghost function Parents(pe: array2<int>): (s: seq<(int, int)>)
    requires pe.Length1 == 2
    reads pe
    ensures |s| == pe.Length0 && forall j :: 0 <= j < |s| ==> s[j] == (pe[j, 0], pe[j, 1])
  {
    seq(pe.Length0, j requires 0 <= j < pe.Length0 reads pe => (pe[j, 0], pe[j, 1]))
  }

  lemma {:induction false} SkippedRow(b: Mesh, i: nat, j: nat, row: seq<int>)
    requires i < |b.pe| && b.pe[i].0 != 0
    ensures FlippedRow(if j < i + 1 then b.pe else [], j, row) == FlippedRow(if j < i then b.pe else [], j, row)
  {
    if j == i {
      assert !Flipped(b.pe, j) && !Flipped([], j);
      assert FlippedRow(b.pe, j, row) == row;
    }
  }

  /** A face that is not turned needs no change. */
  lemma {:induction false} SkippedVertices(faceVtx: array<int>, b: Mesh, i: nat)
    requires i < |b.pe| && b.pe[i].0 != 0 && VtxDone(faceVtx, b, i)
    ensures VtxDone(faceVtx, b, i + 1)
  {
    forall j: nat | j < |b.pe|
      ensures Row(b.faceIdx, faceVtx[..], j) == FlippedRow(if j < i + 1 then b.pe else [], j, Row(b.faceIdx, b.faceVtx, j))
    {
      SkippedRow(b, i, j, Row(b.faceIdx, b.faceVtx, j));
    }
  }

  lemma {:induction false} SkippedCells(cellFace: array<int>, b: Mesh, i: nat)
    requires i < |b.pe| && b.pe[i].0 != 0 && CellsDone(cellFace, b, i)
    ensures CellsDone(cellFace, b, i + 1)
  {
  }

  /**
   Give every face a left parent.  The cells are described or not.  The mesh `b` is the one before the call: the arrays are
   its fields.
   */
  method EnforceLeftParent(faceIdx: seq<nat>, faceVtx: array<int>, pe: array2<int>, hasCells: bool, cellIdx: seq<nat>,
                           cellFace: array<int>, ghost b: Mesh)
    requires faceVtx != cellFace && pe.Length1 == 2 && Offsets(faceIdx, pe.Length0, faceVtx.Length)
    requires b == Mesh(b.ngonFirst, faceIdx, faceVtx[..], Parents(pe), cellIdx, cellFace[..])
    requires hasCells ==> Consistent(b) && (Faces(b) > 0 ==> (GuessFacesFirst(b.pe) <==> b.ngonFirst))
    modifies faceVtx, pe, cellFace
    ensures PeDone(pe, b.pe, Faces(b)) && VtxDone(faceVtx, b, Faces(b))
    ensures if hasCells then CellsDone(cellFace, b, Faces(b)) else cellFace[..] == b.cellFace
  {
    var nFace := pe.Length0;
    var fShift, cShift := 0, 0;
    if nFace > 0 {
      if pe[0, 0] > nFace || pe[0, 1] > nFace { fShift := nFace; }
      else if hasCells { cShift := |cellIdx| - 1; }
    }
    assert hasCells && nFace > 0 ==> fShift + 1 == CellShift(b) && cShift + 1 == FaceShift(b);
    for i := 0 to nFace
      invariant PeDone(pe, b.pe, i) && VtxDone(faceVtx, b, i)
      invariant if hasCells then CellsDone(cellFace, b, i) else cellFace[..] == b.cellFace
    {
      assert (pe[i, 0], pe[i, 1]) == b.pe[i];
      if pe[i, 0] == 0 {
        pe[i, 0] := pe[i, 1];
        pe[i, 1] := 0;
        if hasCells {
          assert ParentsOk(b, i);
          TurnInCell(cellIdx, cellFace, pe[i, 0] - fShift - 1, i + cShift + 1, b, i);
        }
        TurnVertices(faceIdx, faceVtx, i, b);
      } else {
        SkippedVertices(faceVtx, b, i);
        if hasCells { SkippedCells(cellFace, b, i); }
      }
    }
  }

  /** The arrays that the routine leaves describe the turned mesh. */
  lemma {:induction false} ResultTurns(b: Mesh, faceVtx: array<int>, pe: array2<int>, cellFace: array<int>)
    requires Consistent(b) && PeDone(pe, b.pe, Faces(b)) && VtxDone(faceVtx, b, Faces(b)) && CellsDone(cellFace, b, Faces(b))
    ensures Turns(b, Mesh(b.ngonFirst, b.faceIdx, faceVtx[..], Parents(pe), b.cellIdx, cellFace[..]))
  {
    var a := Mesh(b.ngonFirst, b.faceIdx, faceVtx[..], Parents(pe), b.cellIdx, cellFace[..]);
    forall k | 0 <= k < |b.cellFace| ensures a.cellFace[k] == FlippedEntry(b.pe, FaceShift(b), b.cellFace[k]) {
      var c := EntryIsOk(b, k);
    }
    forall j: nat | j < |b.pe| ensures Row(a.faceIdx, a.faceVtx, j) == FlippedRow(b.pe, j, Row(b.faceIdx, b.faceVtx, j)) {
      assert Row(b.faceIdx, faceVtx[..], j) == FlippedRow(b.pe, j, Row(b.faceIdx, b.faceVtx, j));
    }
  }
}

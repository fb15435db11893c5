/**
 Numbering of the wall surfaces of several domains, with their periodic copies
 (maia/algo/part/wall_distance.py).  Coordinates are kept abstract: a copy carries the list of the periodicities by which
 it was moved, 1 for the given one, -1 for the opposite one, 0 for none.
 */
module WallDistance {
  import opened Basics
  import opened Counting

  /**
   The surface of a domain on one rank: numbers of its faces and of its vertices, by partition, and the greatest numbers that
   the other ranks hold.
   */
  datatype Surface = Surface(faces: seq<seq<nat>>, vertices: seq<seq<nat>>, facesElsewhere: nat, verticesElsewhere: nat)

  /** A surface and the moves that give its position. */
  datatype Parts = Parts(surface: Surface, moves: seq<int>)

  /** Greatest number in a partition, 0 when it is empty. */
  function MaxOf(gnums: seq<nat>): (m: nat)
    ensures forall i :: 0 <= i < |gnums| ==> gnums[i] <= m
  {
    if gnums == [] then 0 else Max(MaxOf(gnums[..|gnums| - 1]), gnums[|gnums| - 1])
  }

  function MaxOfAll(parts: seq<seq<nat>>): (m: nat)
    ensures forall i, k :: 0 <= i < |parts| && 0 <= k < |parts[i]| ==> parts[i][k] <= m
  {
    if parts == [] then 0 else Max(MaxOfAll(parts[..|parts| - 1]), MaxOf(parts[|parts| - 1]))
  }

  /** Greatest face number over all ranks. */
  function FaceTotal(s: Surface): nat { Max(MaxOfAll(s.faces), s.facesElsewhere) }

  function VertexTotal(s: Surface): nat { Max(MaxOfAll(s.vertices), s.verticesElsewhere) }

  function ShiftAll(parts: seq<seq<nat>>, shift: nat): (r: seq<seq<nat>>)
    ensures |r| == |parts| && forall i :: 0 <= i < |r| ==> r[i] == Shifted(parts[i], shift)
  {
    seq(|parts|, i requires 0 <= i < |parts| => Shifted(parts[i], shift))
  }

  function Pow3(k: nat): (p: nat)
    ensures p >= 1
  {
    if k == 0 then 1 else 3 * Pow3(k - 1)
  }

  /** Offsets and contents of the slots: shifted faces, shifted vertices, positions. */
  datatype Store = Store(faceOffsets: seq<nat>, vtxOffsets: seq<nat>, faces: seq<seq<seq<nat>>>, vertices: seq<seq<seq<nat>>>,
                         positions: seq<seq<int>>)

  ghost predicate StoreOk(st: Store) {
    && |st.faces| == |st.vertices| == |st.positions| && |st.faceOffsets| == |st.vtxOffsets| == |st.faces| + 1
    && st.faceOffsets[0] == 0 && st.vtxOffsets[0] == 0
  }

  /** Slot `i` holds a surface, shifted by the offset of the slot, and takes as many numbers as the surface. */
  ghost predicate Holds(st: Store, i: nat, s: Surface) {
    && StoreOk(st) && i < |st.faces|
    && st.faces[i] == ShiftAll(s.faces, st.faceOffsets[i]) && st.vertices[i] == ShiftAll(s.vertices, st.vtxOffsets[i])
    && st.faceOffsets[i + 1] == st.faceOffsets[i] + FaceTotal(s) && st.vtxOffsets[i + 1] == st.vtxOffsets[i] + VertexTotal(s)
  }

  /** Slots `lo` to `hi` hold the surface. */
  ghost predicate HoldsFrom(st: Store, lo: nat, hi: nat, s: Surface) {
    forall i: nat {:trigger Holds(st, i, s)} :: lo <= i < hi ==> Holds(st, i, s)
  }

  ghost predicate IsPrefix<T(!new)>(a: seq<T>, b: seq<T>) {
    |a| <= |b| && forall i :: 0 <= i < |a| ==> b[i] == a[i]
  }

  /** What was stored is still there. */
  ghost predicate Extends(before: Store, after: Store) {
    && IsPrefix(before.faceOffsets, after.faceOffsets) && IsPrefix(before.vtxOffsets, after.vtxOffsets)
    && IsPrefix(before.faces, after.faces) && IsPrefix(before.vertices, after.vertices)
  }

  lemma {:induction false} StillHolds(before: Store, after: Store, lo: nat, hi: nat, s: Surface)
    requires StoreOk(before) && StoreOk(after) && Extends(before, after) && HoldsFrom(before, lo, hi, s) && hi <= |before.faces|
    ensures HoldsFrom(after, lo, hi, s)
  {
    forall i: nat | lo <= i < hi ensures Holds(after, i, s) { assert Holds(before, i, s); }
  }

  lemma {:induction false} ExtendsTwice(a: Store, b: Store, c: Store)
    requires Extends(a, b) && Extends(b, c)
    ensures Extends(a, c)
  {
  }

  // ---------------------------------------------------------------- the periodic copies

  function Zeros(k: nat): (r: seq<int>)
    ensures |r| == k && forall i :: 0 <= i < k ==> r[i] == 0
  {
    seq(k, i => 0)
  }

  /** The moves with a move along periodicity `j`. */
  function Moved(x: seq<int>, j: nat, sign: int): (r: seq<int>)
    ensures |r| == |x|
  {
    if j < |x| then x[j := sign] else x
  }

  /** Each list of moves, without and with a move along periodicity `j`. */
  ghost function Tripled(list: seq<seq<int>>, j: nat): (r: seq<seq<int>>)
    ensures |r| == 3 * |list|
  {
    if list == [] then []
    else
      var x := list[|list| - 1];
      Tripled(list[..|list| - 1], j) + [x, Moved(x, j, 1), Moved(x, j, -1)]
  }

  ghost predicate AreMoves(m: seq<int>, k: nat, j: nat) {
    |m| == k && (forall i :: 0 <= i < k ==> -1 <= m[i] <= 1) && forall i :: j <= i < k ==> m[i] == 0
  }

  lemma {:induction false} MoveCases(x: seq<int>, m: seq<int>, j: nat, sign: int)
    requires j < |x| == |m| && x[j] == 0
    ensures m == x[j := sign] <==> m[j := 0] == x && m[j] == sign
  {
    if m == x[j := sign] { assert m[j := 0] == x; }
    if m[j := 0] == x && m[j] == sign { assert m == m[j := 0][j := sign]; }
  }

  lemma {:induction false} TripleCount(x: seq<int>, m: seq<int>, j: nat)
    requires j < |x| == |m| && x[j] == 0
    ensures Count([x, x[j := 1], x[j := -1]], Is(m)) == if -1 <= m[j] <= 1 && m[j := 0] == x then 1 else 0
  {
    var y, z := x[j := 1], x[j := -1];
    assert [x, y, z] == (([] + [x]) + [y]) + [z];
    CountAppend([], x, Is(m));
    CountAppend([] + [x], y, Is(m));
    CountAppend(([] + [x]) + [y], z, Is(m));
    assert x == x[j := 0];
    MoveCases(x, m, j, 0);
    MoveCases(x, m, j, 1);
    MoveCases(x, m, j, -1);
  }

  lemma {:induction false} TripledCount(list: seq<seq<int>>, k: nat, j: nat, m: seq<int>)
    requires j < k == |m| && forall i :: 0 <= i < |list| ==> |list[i]| == k && list[i][j] == 0
    ensures Count(Tripled(list, j), Is(m)) == if -1 <= m[j] <= 1 then Count(list, Is(m[j := 0])) else 0
    decreases |list|
  {
    if list != [] {
      var front, x := list[..|list| - 1], list[|list| - 1];
      TripledCount(front, k, j, m);
      CountConcat(Tripled(front, j), [x, x[j := 1], x[j := -1]], Is(m));
      TripleCount(x, m, j);
    }
  }

  /** No move from periodicity `j` on. */
  ghost predicate Still(x: seq<int>, k: nat, j: nat) {
    |x| == k && forall i :: j <= i < k ==> x[i] == 0
  }

  lemma {:induction false} TripledShape(list: seq<seq<int>>, k: nat, j: nat)
    requires j < k && forall n :: 0 <= n < |list| ==> Still(list[n], k, j)
    ensures forall n :: 0 <= n < |Tripled(list, j)| ==> Still(Tripled(list, j)[n], k, j + 1)
    decreases |list|
  {
    if list != [] {
      TripledShape(list[..|list| - 1], k, j);
      var x := list[|list| - 1];
      assert Still(x, k, j + 1) && Still(Moved(x, j, 1), k, j + 1) && Still(Moved(x, j, -1), k, j + 1);
    }
  }

  /** The moves of the copies after `j` of `k` periodicities. */
  ghost function CopyMoves(k: nat, j: nat): (r: seq<seq<int>>)
    ensures |r| == Pow3(j)
  {
    if j == 0 then [Zeros(k)] else Tripled(CopyMoves(k, j - 1), j - 1)
  }

  lemma {:induction false} CopiesAreStill(k: nat, j: nat)
    requires j <= k
    ensures forall n :: 0 <= n < |CopyMoves(k, j)| ==> Still(CopyMoves(k, j)[n], k, j)
    decreases j
  {
    if j > 0 {
      CopiesAreStill(k, j - 1);
      TripledShape(CopyMoves(k, j - 1), k, j - 1);
    }
  }

  lemma {:induction false} OneMoveLess(m: seq<int>, k: nat, j: nat)
    requires 0 < j <= k == |m|
    ensures AreMoves(m, k, j) <==> AreMoves(m[j - 1 := 0], k, j - 1) && -1 <= m[j - 1] <= 1
  {
    var l := m[j - 1 := 0];
    if AreMoves(l, k, j - 1) && -1 <= m[j - 1] <= 1 {
      forall i | 0 <= i < k ensures -1 <= m[i] <= 1 && (j <= i ==> m[i] == 0) { assert i != j - 1 ==> m[i] == l[i]; }
    }
  }

  /** Every combination of moves occurs exactly once. */
  lemma {:induction false} EveryMoveOnce(k: nat, j: nat, m: seq<int>)
    requires j <= k == |m|
    ensures Count(CopyMoves(k, j), Is(m)) == if AreMoves(m, k, j) then 1 else 0
    decreases j
  {
    if j == 0 {
      var none := Zeros(k);
      assert [none] == [] + [none];
      CountAppend([], none, Is(m));
      assert AreMoves(m, k, 0) ==> m == none;
    } else {
      var list := CopyMoves(k, j - 1);
      CopiesAreStill(k, j - 1);
      EveryMoveOnce(k, j - 1, m[j - 1 := 0]);
      assert forall i :: 0 <= i < |list| ==> |list[i]| == k && list[i][j - 1] == 0;
      TripledCount(list, k, j - 1, m);
      OneMoveLess(m, k, j);
    }
  }

  /** Both moves of every list along periodicity `j`. */
  ghost function Doubled(list: seq<seq<int>>, j: nat): (r: seq<seq<int>>)
    ensures |r| == 2 * |list|
  {
    if list == [] then []
    else
      var x := list[|list| - 1];
      Doubled(list[..|list| - 1], j) + [Moved(x, j, 1), Moved(x, j, -1)]
  }

  /** The copies in the order in which they are stored. */
  ghost function StoredMoves(k: nat, j: nat): (r: seq<seq<int>>)
    ensures |r| == Pow3(j)
  {
    if j == 0 then [Zeros(k)] else StoredMoves(k, j - 1) + Doubled(CopyMoves(k, j - 1), j - 1)
  }

  lemma {:induction false} TripledIsDoubled(list: seq<seq<int>>, j: nat, m: seq<int>)
    ensures Count(Tripled(list, j), Is(m)) == Count(list, Is(m)) + Count(Doubled(list, j), Is(m))
    decreases |list|
  {
    if list != [] {
      var front, x := list[..|list| - 1], list[|list| - 1];
      TripledIsDoubled(front, j, m);
      CountConcat(Tripled(front, j), [x, Moved(x, j, 1), Moved(x, j, -1)], Is(m));
      CountConcat(Doubled(front, j), [Moved(x, j, 1), Moved(x, j, -1)], Is(m));
      assert [x, Moved(x, j, 1), Moved(x, j, -1)] == [x] + [Moved(x, j, 1), Moved(x, j, -1)];
      CountConcat([x], [Moved(x, j, 1), Moved(x, j, -1)], Is(m));
      CountAppend([], x, Is(m));
      assert [] + [x] == [x];
    }
  }

  lemma {:induction false} StoredIsCopied(k: nat, j: nat, m: seq<int>)
    ensures Count(StoredMoves(k, j), Is(m)) == Count(CopyMoves(k, j), Is(m))
    decreases j
  {
    if j > 0 {
      StoredIsCopied(k, j - 1, m);
      CountConcat(StoredMoves(k, j - 1), Doubled(CopyMoves(k, j - 1), j - 1), Is(m));
      TripledIsDoubled(CopyMoves(k, j - 1), j - 1, m);
    }
  }

  /** The surface of a domain is stored once in every position that the periodicities give. */
  lemma {:induction false} StoredOnce(k: nat, m: seq<int>)
    requires |m| == k
    ensures Count(StoredMoves(k, k), Is(m)) == if AreMoves(m, k, k) then 1 else 0
  {
    StoredIsCopied(k, k, m);
    EveryMoveOnce(k, k, m);
  }

  lemma {:induction false} TripledStep(ms: seq<seq<int>>, i: nat, j: nat)
    requires i < |ms|
    ensures Tripled(ms[..i + 1], j) == Tripled(ms[..i], j) + [ms[i], Moved(ms[i], j, 1), Moved(ms[i], j, -1)]
    ensures Doubled(ms[..i + 1], j) == Doubled(ms[..i], j) + [Moved(ms[i], j, 1), Moved(ms[i], j, -1)]
  {
    assert ms[..i + 1][..i] == ms[..i];
  }

  // ---------------------------------------------------------------- the numbering

  class Numbering {
    var faceOffsets: seq<nat>
    var vtxOffsets: seq<nat>
    var faces: seq<seq<seq<nat>>>
    var vertices: seq<seq<seq<nat>>>
    var positions: seq<seq<int>>

    ghost function View(): Store
      reads this
    {
      Store(faceOffsets, vtxOffsets, faces, vertices, positions)
    }

    constructor ()
      ensures View() == Store([0], [0], [], [], [])
    {
      faceOffsets, vtxOffsets, faces, vertices, positions := [0], [0], [], [], [];
    }

    /** Reserve the numbers of a surface. */
    method PushOffsets(s: Surface)
      requires StoreOk(View())
      modifies this`faceOffsets, this`vtxOffsets
      ensures faceOffsets == old(faceOffsets) + [old(faceOffsets)[|old(faceOffsets)| - 1] + FaceTotal(s)]
      ensures vtxOffsets == old(vtxOffsets) + [old(vtxOffsets)[|old(vtxOffsets)| - 1] + VertexTotal(s)]
    {
      var nFace, nVtx := 0, 0;
      for i := 0 to |s.faces|
        invariant nFace == MaxOfAll(s.faces[..i])
      {
        assert s.faces[..i + 1][..i] == s.faces[..i];
        nFace := Max(nFace, MaxOf(s.faces[i]));
      }
      assert s.faces[..|s.faces|] == s.faces;
      nFace := Max(nFace, s.facesElsewhere);
      faceOffsets := faceOffsets + [faceOffsets[|faceOffsets| - 1] + nFace];
      for i := 0 to |s.vertices|
        invariant nVtx == MaxOfAll(s.vertices[..i])
      {
        assert s.vertices[..i + 1][..i] == s.vertices[..i];
        nVtx := Max(nVtx, MaxOf(s.vertices[i]));
      }
      assert s.vertices[..|s.vertices|] == s.vertices;
      nVtx := Max(nVtx, s.verticesElsewhere);
      vtxOffsets := vtxOffsets + [vtxOffsets[|vtxOffsets| - 1] + nVtx];
    }

    /** Shift the numbers of a surface beyond those of the previous slots, and append it. */
    method ShiftAndPush(p: Parts, iDom: nat)
      requires StoreOk(View()) && iDom == |faces|
      modifies this
      ensures StoreOk(View()) && Extends(old(View()), View()) && |faces| == iDom + 1 && positions == old(positions) + [p.moves]
      ensures Holds(View(), iDom, p.surface)
    {
      PushOffsets(p.surface);
      faces := faces + [ShiftAll(p.surface.faces, faceOffsets[iDom])];
      vertices := vertices + [ShiftAll(p.surface.vertices, vtxOffsets[iDom])];
      positions := positions + [p.moves];
    }

    /** Append a copy of a surface, moved along periodicity `j`. */
    method PushCopy(x: Parts, j: nat, sign: int, iDom: nat, ghost lo: nat) returns (copy: Parts)
      requires StoreOk(View()) && iDom == |faces| && lo <= iDom && HoldsFrom(View(), lo, iDom, x.surface)
      modifies this
      ensures StoreOk(View()) && Extends(old(View()), View()) && |faces| == iDom + 1 && HoldsFrom(View(), lo, iDom + 1, x.surface)
      ensures copy == Parts(x.surface, Moved(x.moves, j, sign)) && positions == old(positions) + [copy.moves]
    {
      copy := Parts(x.surface, Moved(x.moves, j, sign));
      ShiftAndPush(copy, iDom);
      StillHolds(old(View()), View(), lo, iDom, x.surface);
    }

    /** Append both copies of a surface along periodicity `j`. */
    method PushBoth(x: Parts, j: nat, ghost lo: nat) returns (next: seq<Parts>)
      requires StoreOk(View()) && lo <= |faces| && HoldsFrom(View(), lo, |faces|, x.surface)
      modifies this
      ensures StoreOk(View()) && Extends(old(View()), View()) && |faces| == old(|faces|) + 2 && HoldsFrom(View(), lo, |faces|, x.surface)
      ensures next == [x, Parts(x.surface, Moved(x.moves, j, 1)), Parts(x.surface, Moved(x.moves, j, -1))]
      ensures positions == old(positions) + [Moved(x.moves, j, 1), Moved(x.moves, j, -1)]
    {
      var plus := PushCopy(x, j, 1, |faces|, lo);
      ghost var mid := View();
      var minus := PushCopy(x, j, -1, |faces|, lo);
      ExtendsTwice(old(View()), mid, View());
      next := [x, plus, minus];
    }

    /** Append the copies of all surfaces along periodicity `j`. */
    method PushAll(list: seq<Parts>, j: nat, ghost s: Surface, ghost lo: nat, ghost moves: seq<seq<int>>) returns (next: seq<Parts>)
      requires StoreOk(View()) && lo <= |faces| && HoldsFrom(View(), lo, |faces|, s) && CopiesOf(list, s, moves)
      modifies this
      ensures StoreOk(View()) && Extends(old(View()), View()) && HoldsFrom(View(), lo, |faces|, s)
      ensures |faces| == old(|faces|) + 2 * |list| && CopiesOf(next, s, Tripled(moves, j))
      ensures positions == old(positions) + Doubled(moves, j)
    {
      next := [];
      for i := 0 to |list|
        invariant StoreOk(View()) && Extends(old(View()), View()) && HoldsFrom(View(), lo, |faces|, s)
        invariant |faces| == old(|faces|) + 2 * i && CopiesOf(next, s, Tripled(moves[..i], j))
        invariant positions == old(positions) + Doubled(moves[..i], j)
      {
        ghost var mid, was := View(), next;
        var three := PushBoth(list[i], j, lo);
        ExtendsTwice(old(View()), mid, View());
        TripledStep(moves, i, j);
        next := next + three;
        CopiesAppend(was, three, s, Tripled(moves[..i], j), moves[i], j);
      }
      assert moves[..|list|] == moves;
    }

    /** The copies along periodicity `j` of all the copies made so far. */
    method PushPeriod(list: seq<Parts>, k: nat, j: nat, ghost s: Surface, ghost lo: nat, ghost base: seq<seq<int>>) returns (next: seq<Parts>)
      requires j < k && Copied(View(), lo, base, list, s, k, j)
      modifies this
      ensures Extends(old(View()), View()) && Copied(View(), lo, base, next, s, k, j + 1)
    {
      next := PushAll(list, j, s, lo, CopyMoves(k, j));
      assert base + StoredMoves(k, j) + Doubled(CopyMoves(k, j), j) == base + (StoredMoves(k, j) + Doubled(CopyMoves(k, j), j));
    }

    /** Append the surface of a domain and its periodic copies. */
    method AddDomain(s: Surface, perio: bool, k: nat)
      requires StoreOk(View())
      modifies this
      ensures StoreOk(View()) && Extends(old(View()), View())
      ensures |faces| == old(|faces|) + Copies(perio, k) && HoldsFrom(View(), old(|faces|), |faces|, s)
      ensures positions == old(positions) + StoredMoves(k, if perio then k else 0)
    {
      var list := [Parts(s, Zeros(k))];
      ghost var lo := |faces|;
      ShiftAndPush(list[0], |faces|);
      FirstCopied(View(), lo, old(positions), s, k);
      if perio {
        for j := 0 to k
          invariant Extends(old(View()), View()) && Copied(View(), lo, old(positions), list, s, k, j)
        {
          ghost var mid := View();
          list := PushPeriod(list, k, j, s, lo, old(positions));
          ExtendsTwice(old(View()), mid, View());
        }
      }
    }
  }

  /** The state after the copies along the first `j` periodicities. */
  ghost predicate Copied(st: Store, lo: nat, base: seq<seq<int>>, list: seq<Parts>, s: Surface, k: nat, j: nat) {
    && j <= k && StoreOk(st) && |st.faces| == lo + Pow3(j) && HoldsFrom(st, lo, |st.faces|, s)
    && CopiesOf(list, s, CopyMoves(k, j)) && st.positions == base + StoredMoves(k, j)
  }

  lemma {:induction false} FirstCopied(st: Store, lo: nat, base: seq<seq<int>>, s: Surface, k: nat)
    requires StoreOk(st) && |st.faces| == lo + 1 && Holds(st, lo, s) && st.positions == base + [Zeros(k)]
    ensures Copied(st, lo, base, [Parts(s, Zeros(k))], s, k, 0)
  {
  }

  /** Copies of a surface with the given moves. */
  ghost predicate CopiesOf(list: seq<Parts>, s: Surface, moves: seq<seq<int>>) {
    |list| == |moves| && forall i :: 0 <= i < |list| ==> list[i] == Parts(s, moves[i])
  }

  lemma {:induction false} CopiesAppend(next: seq<Parts>, three: seq<Parts>, s: Surface, moves: seq<seq<int>>, x: seq<int>, j: nat)
    requires CopiesOf(next, s, moves) && three == [Parts(s, x), Parts(s, Moved(x, j, 1)), Parts(s, Moved(x, j, -1))]
    ensures CopiesOf(next + three, s, moves + [x, Moved(x, j, 1), Moved(x, j, -1)])
  {
  }

  /** Number of slots of a domain. */
  function Copies(perio: bool, k: nat): nat { if perio then Pow3(k) else 1 }

  // ---------------------------------------------------------------- all domains

  /** The slots from `lo` on hold the surface, in the given positions. */
  ghost predicate RangeOk(st: Store, lo: nat, s: Surface, moves: seq<seq<int>>) {
    && lo + |moves| <= |st.faces| && HoldsFrom(st, lo, lo + |moves|, s)
    && lo + |moves| <= |st.positions| && st.positions[lo..lo + |moves|] == moves
  }

  /** The positions of the surface of a domain. */
  ghost function AllMoves(perio: bool, k: nat): (r: seq<seq<int>>)
    ensures |r| == Copies(perio, k)
  {
    StoredMoves(k, if perio then k else 0)
  }

  /** Domain `d` takes the slots from `d * n` on, `n` being the number of its copies. */
  ghost predicate DomainOk(st: Store, d: nat, s: Surface, perio: bool, k: nat) {
    RangeOk(st, d * Copies(perio, k), s, AllMoves(perio, k))
  }

  /** Every domain takes as many consecutive slots as it has copies. */
  ghost predicate Layout(st: Store, domains: seq<Surface>, perio: bool, k: nat) {
    && StoreOk(st) && |st.faces| == |domains| * Copies(perio, k)
    && forall d: nat {:trigger DomainOk(st, d, domains[d], perio, k)} :: d < |domains| ==> DomainOk(st, d, domains[d], perio, k)
  }

  lemma {:induction false} NextMultiple(d: nat, n: nat)
    ensures (d + 1) * n == d * n + n
  {
  }

  lemma {:induction false} RangeKept(before: Store, after: Store, lo: nat, s: Surface, moves: seq<seq<int>>)
    requires StoreOk(before) && StoreOk(after) && Extends(before, after) && RangeOk(before, lo, s, moves)
    requires IsPrefix(before.positions, after.positions)
    ensures RangeOk(after, lo, s, moves)
  {
    StillHolds(before, after, lo, lo + |moves|, s);
  }

  lemma {:induction false} RangeAdded(before: Store, after: Store, lo: nat, s: Surface, moves: seq<seq<int>>)
    requires StoreOk(before) && StoreOk(after) && |before.faces| == lo
    requires |after.faces| == lo + |moves| && HoldsFrom(after, lo, |after.faces|, s) && after.positions == before.positions + moves
    ensures RangeOk(after, lo, s, moves)
  {
  }

  lemma {:induction false} LayoutGrows(before: Store, after: Store, domains: seq<Surface>, s: Surface, perio: bool, k: nat)
    requires Layout(before, domains, perio, k) && StoreOk(after) && Extends(before, after)
    requires |after.faces| == |before.faces| + Copies(perio, k) && HoldsFrom(after, |before.faces|, |after.faces|, s)
    requires after.positions == before.positions + AllMoves(perio, k)
    ensures Layout(after, domains + [s], perio, k)
  {
    var all := domains + [s];
    NextMultiple(|domains|, Copies(perio, k));
    forall d: nat | d < |all| ensures DomainOk(after, d, all[d], perio, k) {
      if d < |domains| {
        assert DomainOk(before, d, domains[d], perio, k);
        RangeKept(before, after, d * Copies(perio, k), all[d], AllMoves(perio, k));
      } else {
        RangeAdded(before, after, d * Copies(perio, k), s, AllMoves(perio, k));
      }
    }
  }

  /** Number the surfaces of all domains, with their periodic copies. */
  method SetupSurfaces(domains: seq<Surface>, perio: bool, k: nat) returns (numbering: Numbering)
    ensures fresh(numbering) && Layout(numbering.View(), domains, perio, k)
  {
    numbering := new Numbering();
    for d := 0 to |domains|
      invariant fresh(numbering) && Layout(numbering.View(), domains[..d], perio, k)
    {
      ghost var before := numbering.View();
      numbering.AddDomain(domains[d], perio, k);
      LayoutGrows(before, numbering.View(), domains[..d], domains[d], perio, k);
      assert domains[..d + 1] == domains[..d] + [domains[d]];
    }
    assert domains[..|domains|] == domains;
  }

  // ---------------------------------------------------------------- decoding

  lemma {:induction false} DivisionOf(d: nat, n: nat, i: nat)
    requires n > 0 && d * n <= i < d * n + n
    ensures i / n == d
  {
    var q, r := i / n, i % n;
    assert i == q * n + r;
    MultiplesApart(q, d, n);
    MultiplesApart(d, q, n);
  }

  lemma {:induction false} Multiples(a: nat, b: nat, n: nat)
    requires a <= b
    ensures a * n <= b * n
  {
  }

  lemma {:induction false} MultiplesApart(a: nat, b: nat, n: nat)
    ensures a < b ==> a * n + n <= b * n
  {
    if a < b { Multiples(a + 1, b, n); NextMultiple(a, n); }
  }

  lemma {:induction false} OwnerOf(count: nat, n: nat, i: nat) returns (d: nat)
    requires n > 0 && i < count * n
    ensures d < count && d * n <= i < d * n + n
  {
    d := i / n;
    assert i == d * n + i % n;
    if d >= count { Multiples(count, d, n); }
  }

  /** Offsets do not decrease. */
  lemma {:induction false} OffsetsSorted(st: Store, domains: seq<Surface>, perio: bool, k: nat, i: nat, j: nat)
    requires Layout(st, domains, perio, k) && i <= j < |st.faceOffsets|
    ensures st.faceOffsets[i] <= st.faceOffsets[j]
    decreases j
  {
    if i < j {
      OffsetsSorted(st, domains, perio, k, i, j - 1);
      var d := OwnerOf(|domains|, Copies(perio, k), j - 1);
      assert DomainOk(st, d, domains[d], perio, k);
      assert Holds(st, j - 1, domains[d]);
    }
  }

  /** The first position whose value exceeds `x`: searchsorted on the right side. */
  method SearchRight(a: seq<nat>, x: int) returns (i: nat)
    requires forall i, j :: 0 <= i <= j < |a| ==> a[i] <= a[j]
    ensures i <= |a| && (forall k :: 0 <= k < i ==> a[k] <= x) && forall k :: i <= k < |a| ==> x < a[k]
  {
    var lo, hi := 0, |a|;
    while lo < hi
      invariant 0 <= lo <= hi <= |a| && (forall k :: 0 <= k < lo ==> a[k] <= x) && forall k :: hi <= k < |a| ==> x < a[k]
    {
      var mid := (lo + hi) / 2;
      if a[mid] <= x { lo := mid + 1; } else { hi := mid; }
    }
    i := lo;
  }

  /** A shifted face number of slot `i` lies between the offsets of this slot only. */
  lemma {:induction false} SlotIsUnique(st: Store, domains: seq<Surface>, perio: bool, k: nat, d: nat, i: nat, x: nat, j: nat)
    requires Layout(st, domains, perio, k) && d < |domains| && i < |st.faces| && 1 <= x <= FaceTotal(domains[d])
    requires d * Copies(perio, k) <= i < d * Copies(perio, k) + Copies(perio, k)
    requires 0 < j <= |st.faceOffsets| && st.faceOffsets[j - 1] <= x + st.faceOffsets[i] - 1
    requires forall l :: j <= l < |st.faceOffsets| ==> x + st.faceOffsets[i] - 1 < st.faceOffsets[l]
    ensures j - 1 == i
  {
    assert DomainOk(st, d, domains[d], perio, k);
    assert Holds(st, i, domains[d]);
    if j - 1 > i { OffsetsSorted(st, domains, perio, k, i + 1, j - 1); }
  }

  lemma {:induction false} AllOffsetsSorted(st: Store, domains: seq<Surface>, perio: bool, k: nat)
    requires Layout(st, domains, perio, k)
    ensures forall a, b :: 0 <= a <= b < |st.faceOffsets| ==> st.faceOffsets[a] <= st.faceOffsets[b]
  {
    forall a: nat, b: nat | a <= b < |st.faceOffsets| ensures st.faceOffsets[a] <= st.faceOffsets[b] {
      OffsetsSorted(st, domains, perio, k, a, b);
    }
  }

  /** Searching the offsets for a shifted face number stops right after the slot of the face. */
  lemma {:induction false} SearchFindsSlot(st: Store, domains: seq<Surface>, perio: bool, k: nat, d: nat, i: nat, x: nat, j: nat)
    requires Layout(st, domains, perio, k) && d < |domains| && i < |st.faceOffsets| && 1 <= x <= FaceTotal(domains[d])
    requires d * Copies(perio, k) <= i < d * Copies(perio, k) + Copies(perio, k) && j <= |st.faceOffsets|
    requires forall l :: 0 <= l < j ==> st.faceOffsets[l] <= x + st.faceOffsets[i] - 1
    requires forall l :: j <= l < |st.faceOffsets| ==> x + st.faceOffsets[i] - 1 < st.faceOffsets[l]
    ensures j == i + 1
  {
    assert DomainOk(st, d, domains[d], perio, k);
    assert i < j;
    SlotIsUnique(st, domains, perio, k, d, i, x, j);
  }

  /**
   Find the domain and the local number of a face from its shifted number.  The face is face `x` of domain `d`, or of one of
   its periodic copies: the one in slot `i`.
   */
  method DecodeFace(numbering: Numbering, perio: bool, k: nat, gnum: int, ghost domains: seq<Surface>, ghost d: nat, ghost i: nat, ghost x: nat)
    returns (domain: int, local: int)
    requires Layout(numbering.View(), domains, perio, k) && d < |domains|
    requires d * Copies(perio, k) <= i < d * Copies(perio, k) + Copies(perio, k) && 1 <= x <= FaceTotal(domains[d])
    requires i < |numbering.faceOffsets| && gnum == x + numbering.faceOffsets[i]
    ensures domain == d && local == x
  {
    AllOffsetsSorted(numbering.View(), domains, perio, k);
    var j := SearchRight(numbering.faceOffsets, gnum - 1);
    SearchFindsSlot(numbering.View(), domains, perio, k, d, i, x, j);
    domain := j - 1;
    local := gnum - numbering.faceOffsets[domain];
    DivisionOf(d, Copies(perio, k), i);
    if perio { domain := domain / Pow3(k); }
  }

  // ---------------------------------------------------------------- what the slots promise

  /** Slot `i` belongs to domain `d`. */
  ghost predicate SlotOf(st: Store, domains: seq<Surface>, perio: bool, k: nat, d: nat, i: nat) {
    && Layout(st, domains, perio, k) && d < |domains| && i < |st.faces|
    && d * Copies(perio, k) <= i < d * Copies(perio, k) + Copies(perio, k)
  }

  /** The greatest of the numbers of this rank and of the greatest number elsewhere, 0 for none. */
  ghost predicate IsGreatest(n: int, parts: seq<seq<nat>>, elsewhere: nat) {
    && elsewhere <= n && (forall p, q :: 0 <= p < |parts| && 0 <= q < |parts[p]| ==> parts[p][q] <= n)
    && (n == 0 || n == elsewhere || exists p, q :: 0 <= p < |parts| && 0 <= q < |parts[p]| && parts[p][q] == n)
  }

  lemma {:induction false} MaxIsHeld(gnums: seq<nat>)
    ensures MaxOf(gnums) == 0 || MaxOf(gnums) in gnums
    decreases |gnums|
  {
    if gnums != [] { MaxIsHeld(gnums[..|gnums| - 1]); }
  }

  lemma {:induction false} MaxOfAllIsHeld(parts: seq<seq<nat>>)
    ensures MaxOfAll(parts) == 0 || exists p :: 0 <= p < |parts| && MaxOfAll(parts) in parts[p]
    decreases |parts|
  {
    if parts != [] {
      MaxOfAllIsHeld(parts[..|parts| - 1]);
      MaxIsHeld(parts[|parts| - 1]);
    }
  }

  lemma {:induction false} GreatestIsMax(parts: seq<seq<nat>>, elsewhere: nat)
    ensures IsGreatest(Max(MaxOfAll(parts), elsewhere), parts, elsewhere)
  {
    MaxOfAllIsHeld(parts);
  }

  /** The numbers reserved for a slot are as many as the greatest number of the surface over all ranks, for faces and vertices. */
  lemma {:induction false} SlotIsAsWide(st: Store, domains: seq<Surface>, perio: bool, k: nat, d: nat, i: nat)
    requires SlotOf(st, domains, perio, k, d, i)
    ensures IsGreatest(st.faceOffsets[i + 1] as int - st.faceOffsets[i] as int, domains[d].faces, domains[d].facesElsewhere)
    ensures IsGreatest(st.vtxOffsets[i + 1] as int - st.vtxOffsets[i] as int, domains[d].vertices, domains[d].verticesElsewhere)
  {
    assert DomainOk(st, d, domains[d], perio, k);
    assert Holds(st, i, domains[d]);
    GreatestIsMax(domains[d].faces, domains[d].facesElsewhere);
    GreatestIsMax(domains[d].vertices, domains[d].verticesElsewhere);
  }

  lemma {:induction false} VertexOffsetsSorted(st: Store, domains: seq<Surface>, perio: bool, k: nat, i: nat, j: nat)
    requires Layout(st, domains, perio, k) && i <= j < |st.vtxOffsets|
    ensures st.vtxOffsets[i] <= st.vtxOffsets[j]
    decreases j
  {
    if i < j {
      VertexOffsetsSorted(st, domains, perio, k, i, j - 1);
      var d := OwnerOf(|domains|, Copies(perio, k), j - 1);
      assert DomainOk(st, d, domains[d], perio, k);
      assert Holds(st, j - 1, domains[d]);
    }
  }

  /** Every vertex stored in a slot is a vertex of its domain, shifted into the numbers of the slot. */
  lemma {:induction false} StoredVertex(st: Store, domains: seq<Surface>, perio: bool, k: nat, d: nat, i: nat, part: nat, v: nat)
    requires SlotOf(st, domains, perio, k, d, i) && part < |st.vertices[i]| && v < |st.vertices[i][part]|
    ensures part < |domains[d].vertices| && v < |domains[d].vertices[part]|
    ensures st.vertices[i][part][v] == domains[d].vertices[part][v] + st.vtxOffsets[i] <= st.vtxOffsets[i + 1]
  {
    assert DomainOk(st, d, domains[d], perio, k);
    assert Holds(st, i, domains[d]);
    SlotIsAsWide(st, domains, perio, k, d, i);
  }

  ghost predicate FromOne(parts: seq<seq<nat>>) {
    forall p, q :: 0 <= p < |parts| && 0 <= q < |parts[p]| ==> 1 <= parts[p][q]
  }

  /** Vertices stored in different slots have different numbers. */
  lemma {:induction false} VerticesApart(st: Store, domains: seq<Surface>, perio: bool, k: nat, d: nat, i: nat, p: nat, v: nat,
                                         e: nat, j: nat, q: nat, w: nat)
    requires SlotOf(st, domains, perio, k, d, i) && p < |st.vertices[i]| && v < |st.vertices[i][p]|
    requires SlotOf(st, domains, perio, k, e, j) && q < |st.vertices[j]| && w < |st.vertices[j][q]|
    requires FromOne(domains[d].vertices) && FromOne(domains[e].vertices) && i != j
    ensures st.vertices[i][p][v] != st.vertices[j][q][w]
  {
    StoredVertex(st, domains, perio, k, d, i, p, v);
    StoredVertex(st, domains, perio, k, e, j, q, w);
    if i < j { VertexOffsetsSorted(st, domains, perio, k, i + 1, j); } else { VertexOffsetsSorted(st, domains, perio, k, j + 1, i); }
  }

  /** Faces stored in different slots have different numbers. */
  lemma {:induction false} FacesApart(st: Store, domains: seq<Surface>, perio: bool, k: nat, d: nat, i: nat, p: nat, f: nat,
                                      e: nat, j: nat, q: nat, g: nat)
    requires SlotOf(st, domains, perio, k, d, i) && p < |st.faces[i]| && f < |st.faces[i][p]|
    requires SlotOf(st, domains, perio, k, e, j) && q < |st.faces[j]| && g < |st.faces[j][q]|
    requires FromOne(domains[d].faces) && FromOne(domains[e].faces) && i != j
    ensures st.faces[i][p][f] != st.faces[j][q][g]
  {
    StoredFace(st, domains, perio, k, d, i, p, f);
    StoredFace(st, domains, perio, k, e, j, q, g);
    SlotIsAsWide(st, domains, perio, k, d, i);
    SlotIsAsWide(st, domains, perio, k, e, j);
    if i < j { OffsetsSorted(st, domains, perio, k, i + 1, j); } else { OffsetsSorted(st, domains, perio, k, j + 1, i); }
  }

  lemma {:induction false} OnePeriodicity()
    ensures CopyMoves(2, 1) == [[0, 0], [1, 0], [-1, 0]] == StoredMoves(2, 1)
  {
    var x: seq<int> := [0, 0];
    assert Zeros(2) == x && Moved(x, 0, 1) == [1, 0] && Moved(x, 0, -1) == [-1, 0];
    assert |[x][..0]| == 0;
    assert CopyMoves(2, 0) == [x] == StoredMoves(2, 0);
    assert Tripled([x], 0) == [x, Moved(x, 0, 1), Moved(x, 0, -1)] && Doubled([x], 0) == [Moved(x, 0, 1), Moved(x, 0, -1)];
  }

  lemma {:induction false} DoubledThree(x: seq<int>, y: seq<int>, z: seq<int>, j: nat)
    ensures Doubled([x, y, z], j) == [Moved(x, j, 1), Moved(x, j, -1), Moved(y, j, 1), Moved(y, j, -1), Moved(z, j, 1), Moved(z, j, -1)]
  {
    assert [x, y, z][..2] == [x, y] && [x, y][..1] == [x] && |[x][..0]| == 0;
    assert Doubled([x], j) == [Moved(x, j, 1), Moved(x, j, -1)];
    assert Doubled([x, y], j) == Doubled([x], j) + [Moved(y, j, 1), Moved(y, j, -1)];
  }

  /** With two periodicities: the surface, its copies along the first, then the copies of these three along the second. */
  lemma {:induction false} TwoPeriodicities()
    ensures AllMoves(true, 2) == [[0, 0], [1, 0], [-1, 0], [0, 1], [0, -1], [1, 1], [1, -1], [-1, 1], [-1, -1]]
  {
    var x: seq<int>, y: seq<int>, z: seq<int> := [0, 0], [1, 0], [-1, 0];
    OnePeriodicity();
    DoubledThree(x, y, z, 1);
    assert StoredMoves(2, 2) == StoredMoves(2, 1) + Doubled([x, y, z], 1);
    assert Moved(x, 1, 1) == [0, 1] && Moved(x, 1, -1) == [0, -1];
    assert Moved(y, 1, 1) == [1, 1] && Moved(y, 1, -1) == [1, -1];
    assert Moved(z, 1, 1) == [-1, 1] && Moved(z, 1, -1) == [-1, -1];
  }

  /** Every face stored in a slot is a face of its domain, under a number that decoding undoes. */
  lemma {:induction false} StoredFace(st: Store, domains: seq<Surface>, perio: bool, k: nat, d: nat, i: nat, part: nat, f: nat)
    requires Layout(st, domains, perio, k) && d < |domains| && d * Copies(perio, k) <= i < d * Copies(perio, k) + Copies(perio, k)
    requires i < |st.faces| && part < |st.faces[i]| && f < |st.faces[i][part]|
    ensures part < |domains[d].faces| && f < |domains[d].faces[part]|
    ensures st.faces[i][part][f] == domains[d].faces[part][f] + st.faceOffsets[i] && domains[d].faces[part][f] <= FaceTotal(domains[d])
  {
    assert DomainOk(st, d, domains[d], perio, k);
    assert Holds(st, i, domains[d]);
  }
}

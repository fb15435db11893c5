/**
 Recovery of the size of a structured block from its partitions, by walking through the joins between partitions
 (_recover_dist_block_size in maia/factory/dist_from_part.py, Subset.normal_axis in maia/pytree/sids/node_inspect.py).
 */
module BlockSize {
  import opened Basics

  /** A join between two partitions: the opposite partition and the range of shared vertices. */
  datatype Join = Join(donor: string, range: seq<(int, int)>)

  /** Axes along which the range has a single index, among the first `n`. */
  function ConstantAxes(range: seq<(int, int)>, n: nat): seq<nat>
    requires n <= |range|
  {
    if n == 0 then []
    else ConstantAxes(range, n - 1) + if range[n - 1].0 == range[n - 1].1 then [n - 1] else []
  }

  /** The normal of a face given by vertices; undetermined unless exactly one axis is constant. */
  function NormalAxis(range: seq<(int, int)>): Option<nat> {
    var axes := ConstantAxes(range, |range|);
    if |axes| == 1 then Some(axes[0]) else None
  }

  lemma {:induction false} OneConstantAxis(range: seq<(int, int)>, n: nat, d: nat)
    requires n <= |range| && d < |range| && range[d].0 == range[d].1
    requires forall e :: 0 <= e < |range| && e != d ==> range[e].0 != range[e].1
    ensures ConstantAxes(range, n) == if d < n then [d] else []
    decreases n
  {
    if n > 0 { OneConstantAxis(range, n - 1, d); }
  }

  /** The normal axis is the only constant one, if there is only one. */
  lemma {:induction false} NormalAxisIsConstant(range: seq<(int, int)>, d: nat)
    requires d < |range| && range[d].0 == range[d].1
    requires forall e :: 0 <= e < |range| && e != d ==> range[e].0 != range[e].1
    ensures NormalAxis(range) == Some(d)
  {
    OneConstantAxis(range, |range|, d);
  }

  /** Axis `d` is the only constant one. */
  ghost predicate OnlyConstant(range: seq<(int, int)>, d: nat) {
    d < |range| && range[d].0 == range[d].1 && forall e :: 0 <= e < |range| && e != d ==> range[e].0 != range[e].1
  }

  lemma {:induction false} ConstantAxesAre(range: seq<(int, int)>, n: nat)
    requires n <= |range|
    ensures forall d: nat :: d in ConstantAxes(range, n) <==> d < n && range[d].0 == range[d].1
    decreases n
  {
    if n > 0 { ConstantAxesAre(range, n - 1); }
  }

  /** The normal axis is told exactly when there is only one constant axis. */
  lemma {:induction false} NormalIsOnlyConstant(range: seq<(int, int)>, d: nat)
    ensures NormalAxis(range) == Some(d) <==> OnlyConstant(range, d)
  {
    if OnlyConstant(range, d) { NormalAxisIsConstant(range, d); }
    if NormalAxis(range) == Some(d) {
      var axes := ConstantAxes(range, |range|);
      ConstantAxesAre(range, |range|);
      assert axes == [d] && d in axes;
      forall e | 0 <= e < |range| && e != d ensures range[e].0 != range[e].1 {
        var n: nat := e;
        assert n !in axes;
      }
    }
  }

  // ---------------------------------------------------------------- tilings

  /** The cells of a partition in the block: first cell and number of cells along each axis. */
  datatype Box = Box(lo: seq<int>, size: seq<nat>)

  ghost function End(b: Box, d: nat): int
    requires d < |b.lo| == |b.size|
  {
    b.lo[d] + b.size[d]
  }

  ghost predicate Inside(x: seq<int>, b: Box) {
    |x| == |b.lo| == |b.size| && forall d :: 0 <= d < |x| ==> b.lo[d] <= x[d] < End(b, d)
  }

  ghost predicate InBlock(x: seq<int>, dims: seq<nat>) {
    |x| == |dims| && forall d :: 0 <= d < |x| ==> 0 <= x[d] < dims[d]
  }

  ghost predicate BoxOk(b: Box, dims: seq<nat>) {
    |b.lo| == |b.size| == |dims| && forall d: nat :: d < |dims| ==> 0 <= b.lo[d] && 1 <= b.size[d] && End(b, d) <= dims[d]
  }

  ghost predicate CellCovered(boxes: map<string, Box>, x: seq<int>) {
    exists z :: z in boxes && Inside(x, boxes[z])
  }

  /** Every cell of the block is in exactly one partition. */
  ghost predicate Tiles(boxes: map<string, Box>, dims: seq<nat>) {
    && (forall z :: z in boxes ==> BoxOk(boxes[z], dims))
    && (forall x {:trigger CellCovered(boxes, x)} :: InBlock(x, dims) ==> CellCovered(boxes, x))
    && (forall z, w, x {:trigger Inside(x, boxes[z]), Inside(x, boxes[w])} ::
          z in boxes && w in boxes && Inside(x, boxes[z]) && Inside(x, boxes[w]) ==> z == w)
  }

  /** Two partitions share a face, normal to axis `d`, which is the last (or the first) one of `b`. */
  ghost predicate Touches(b: Box, c: Box, d: nat, front: bool) {
    && d < |b.lo| == |b.size| == |c.lo| == |c.size|
    && (if front then c.lo[d] == End(b, d) else End(c, d) == b.lo[d])
    && forall e :: 0 <= e < |b.lo| && e != d ==> b.lo[e] < End(c, e) && c.lo[e] < End(b, e)
  }

  /** Vertices shared along an axis, numbered from 1 in the partition `b`. */
  ghost function Window(b: Box, c: Box, e: nat): (int, int)
    requires e < |b.lo| == |b.size| == |c.lo| == |c.size|
  {
    var lo := if b.lo[e] < c.lo[e] then c.lo[e] else b.lo[e];
    var end := if End(b, e) < End(c, e) then End(b, e) else End(c, e);
    (lo - b.lo[e] + 1, end - b.lo[e] + 1)
  }

  ghost predicate JoinsFace(j: Join, b: Box, c: Box, d: nat, front: bool) {
    && Touches(b, c, d, front) && |j.range| == |b.lo|
    && (var v := if front then b.size[d] + 1 else 1; j.range[d] == (v, v))
    && forall e :: 0 <= e < |b.lo| && e != d ==> j.range[e] == Window(b, c, e)
  }

  ghost predicate JoinSound(boxes: map<string, Box>, z: string, j: Join) {
    z in boxes && j.donor in boxes && exists d: nat, front: bool :: JoinsFace(j, boxes[z], boxes[j.donor], d, front)
  }

  ghost predicate FaceJoined(boxes: map<string, Box>, js: seq<Join>, z: string, w: string, d: nat, front: bool) {
    z in boxes && w in boxes && exists i :: 0 <= i < |js| && js[i].donor == w && JoinsFace(js[i], boxes[z], boxes[w], d, front)
  }

  /** The joins, in any order, are the shared faces of the partitions. */
  ghost predicate JoinsAreFaces(boxes: map<string, Box>, joins: map<string, seq<Join>>) {
    && joins.Keys == boxes.Keys
    && (forall z, i :: z in joins && 0 <= i < |joins[z]| ==> JoinSound(boxes, z, joins[z][i]))
    && forall z, w, d: nat, front: bool {:trigger FaceJoined(boxes, joins[z], z, w, d, front)} ::
         z in boxes && w in boxes && Touches(boxes[z], boxes[w], d, front) ==> FaceJoined(boxes, joins[z], z, w, d, front)
  }

  /** How the walk reads a join: its normal axis and its side. */
  lemma {:induction false} JoinReads(j: Join, b: Box, c: Box, d: nat, front: bool, dims: seq<nat>)
    requires JoinsFace(j, b, c, d, front) && BoxOk(b, dims) && BoxOk(c, dims)
    ensures NormalAxis(j.range) == Some(d) && |j.range| == |dims|
    ensures front <==> j.range[d].0 != 1
  {
    forall e | 0 <= e < |j.range| && e != d ensures j.range[e].0 != j.range[e].1 { assert j.range[e] == Window(b, c, e); }
    NormalAxisIsConstant(j.range, d);
  }

  /** The cell next to the last (or first) layer of a partition. */
  ghost function NextCell(b: Box, d: nat, front: bool): seq<int>
    requires d < |b.lo| == |b.size|
  {
    b.lo[d := if front then End(b, d) else b.lo[d] - 1]
  }

  lemma {:induction false} NextCellOutside(b: Box, d: nat, front: bool, dims: seq<nat>)
    requires BoxOk(b, dims) && d < |dims| && (if front then End(b, d) < dims[d] else 0 < b.lo[d])
    ensures InBlock(NextCell(b, d, front), dims) && !Inside(NextCell(b, d, front), b)
  {
    var x := NextCell(b, d, front);
    forall e | 0 <= e < |x| ensures 0 <= x[e] < dims[e] { assert 1 <= b.size[e] && End(b, e) <= dims[e]; }
  }

  /** The partition that holds the next cell begins where the current one ends. */
  lemma {:induction false} NeighbourTouches(boxes: map<string, Box>, dims: seq<nat>, z: string, w: string, d: nat, front: bool)
    requires Tiles(boxes, dims) && z in boxes && w in boxes && z != w && d < |dims|
    requires Inside(NextCell(boxes[z], d, front), boxes[w])
    ensures Touches(boxes[z], boxes[w], d, front)
  {
    var b, c := boxes[z], boxes[w];
    var x := NextCell(b, d, front);
    var inner := b.lo[d := if front then End(b, d) - 1 else b.lo[d]];
    assert Inside(inner, b) by {
      forall e | 0 <= e < |inner| ensures b.lo[e] <= inner[e] < End(b, e) { assert 1 <= b.size[e]; }
    }
    assert !Inside(inner, c);
    assert forall e :: 0 <= e < |x| && e != d ==> inner[e] == x[e];
    forall e | 0 <= e < |b.lo| && e != d ensures b.lo[e] < End(c, e) && c.lo[e] < End(b, e) {
      assert c.lo[e] <= x[e] < End(c, e) && b.lo[e] <= inner[e] < End(b, e);
    }
  }

  /** As long as the end of the block is not reached, there is a join to go on. */
  lemma {:induction false} NextJoinExists(boxes: map<string, Box>, joins: map<string, seq<Join>>, dims: seq<nat>, z: string, d: nat, front: bool)
    returns (i: nat)
    requires Tiles(boxes, dims) && JoinsAreFaces(boxes, joins) && z in boxes && d < |dims|
    requires if front then End(boxes[z], d) < dims[d] else 0 < boxes[z].lo[d]
    ensures i < |joins[z]| && Selected(joins[z][i], d, front)
  {
    var x := NextCell(boxes[z], d, front);
    NextCellOutside(boxes[z], d, front, dims);
    assert CellCovered(boxes, x);
    var w :| w in boxes && Inside(x, boxes[w]);
    NeighbourTouches(boxes, dims, z, w, d, front);
    assert FaceJoined(boxes, joins[z], z, w, d, front);
    i :| 0 <= i < |joins[z]| && joins[z][i].donor == w && JoinsFace(joins[z][i], boxes[z], boxes[w], d, front);
    JoinReads(joins[z][i], boxes[z], boxes[w], d, front, dims);
  }

  // ---------------------------------------------------------------- the walk

  /** The join continues in the direction of the walk: front while vertices are not at 1, back while they are. */
  predicate Selected(j: Join, axis: nat, front: bool) {
    axis < |j.range| && NormalAxis(j.range) == Some(axis) && (front <==> j.range[axis].0 != 1)
  }

  /** A selected join leads to the next partition along the axis. */
  lemma {:induction false} SelectedTouches(boxes: map<string, Box>, joins: map<string, seq<Join>>, dims: seq<nat>, z: string, i: nat, axis: nat, front: bool)
    requires Tiles(boxes, dims) && JoinsAreFaces(boxes, joins) && z in boxes && i < |joins[z]|
    ensures joins[z][i].donor in boxes && NormalAxis(joins[z][i].range).Some? && |joins[z][i].range| == |dims|
    ensures Selected(joins[z][i], axis, front) ==> Touches(boxes[z], boxes[joins[z][i].donor], axis, front)
  {
    var j := joins[z][i];
    assert JoinSound(boxes, z, j);
    var d: nat, f: bool :| JoinsFace(j, boxes[z], boxes[j.donor], d, f);
    JoinReads(j, boxes[z], boxes[j.donor], d, f, dims);
  }

  /** The first selected join of a partition, if any. */
  method FindNext(js: seq<Join>, axis: nat, front: bool) returns (next: Option<nat>)
    requires forall i :: 0 <= i < |js| ==> NormalAxis(js[i].range).Some?
    ensures next.Some? ==> next.value < |js| && Selected(js[next.value], axis, front)
    ensures next.None? ==> forall i :: 0 <= i < |js| ==> !Selected(js[i], axis, front)
  {
    for i := 0 to |js|
      invariant forall k :: 0 <= k < i ==> !Selected(js[k], axis, front)
    {
      if Selected(js[i], axis, front) { return Some(i); }
    }
    return None;
  }

  ghost predicate SizesAre(boxes: map<string, Box>, sizes: map<string, seq<nat>>) {
    sizes.Keys == boxes.Keys && forall z :: z in sizes ==> sizes[z] == boxes[z].size
  }

  /** Cells between the given partition and the end of the block. */
  ghost function Ahead(b: Box, dims: seq<nat>, d: nat, front: bool): int
    requires BoxOk(b, dims)
  {
    if d >= |dims| then 0 else if front then dims[d] - End(b, d) else b.lo[d]
  }

  /** Walk along an axis until no join goes further, and add the cells that are passed. */
  method Walk(sizes: map<string, seq<nat>>, joins: map<string, seq<Join>>, first: string, axis: nat, front: bool, cells: array<int>,
              ghost boxes: map<string, Box>, ghost dims: seq<nat>)
    requires Tiles(boxes, dims) && JoinsAreFaces(boxes, joins) && SizesAre(boxes, sizes) && first in sizes && cells.Length == |dims|
    modifies cells
    ensures forall d: nat :: d < |dims| ==>
              cells[d] == old(cells[d]) + if d == axis then Ahead(boxes[first], dims, axis, front) else 0
  {
    var current, going := first, true;
    while going
      invariant current in boxes && Ahead(boxes[current], dims, axis, front) <= Ahead(boxes[first], dims, axis, front)
      invariant forall d: nat :: d < |dims| ==>
                  cells[d] == old(cells[d]) + if d == axis then Ahead(boxes[first], dims, axis, front) - Ahead(boxes[current], dims, axis, front) else 0
      invariant !going ==> Ahead(boxes[current], dims, axis, front) == 0
      decreases Ahead(boxes[current], dims, axis, front), going
    {
      forall i | 0 <= i < |joins[current]| ensures NormalAxis(joins[current][i].range).Some? {
        SelectedTouches(boxes, joins, dims, current, i, axis, front);
      }
      var next := FindNext(joins[current], axis, front);
      if next.Some? {
        SelectedTouches(boxes, joins, dims, current, next.value, axis, front);
        current := joins[current][next.value].donor;
        cells[axis] := cells[axis] + sizes[current][axis];
      } else {
        if Ahead(boxes[current], dims, axis, front) != 0 {
          ghost var i := NextJoinExists(boxes, joins, dims, current, axis, front);
          assert false;
        }
        going := false;
      }
    }
  }

  /** A row of the zone value: numbers of vertices, of cells and of boundary vertices. */
  datatype Row = Row(vertices: int, cells: int, boundary: int)

  /**
   The recovered dimensions are those of the block, whatever partition the walk starts from and whatever the order of the
   joins of each partition.
   */
  method RecoverBlockSize(sizes: map<string, seq<nat>>, joins: map<string, seq<Join>>, first: string,
                          ghost boxes: map<string, Box>, ghost dims: seq<nat>) returns (rows: seq<Row>)
    requires Tiles(boxes, dims) && JoinsAreFaces(boxes, joins) && SizesAre(boxes, sizes) && first in sizes && |dims| <= 3
    ensures |rows| == |dims| && forall d :: 0 <= d < |dims| ==> rows[d] == Row(dims[d] + 1, dims[d], 0)
  {
    var idxDim := |sizes[first]|;
    var cells := new int[idxDim](d requires 0 <= d < idxDim => sizes[first][d]);
    for axis := 0 to 3
      invariant forall d: nat :: d < idxDim ==> cells[d] == if d < axis then dims[d] else sizes[first][d]
    {
      Walk(sizes, joins, first, axis, true, cells, boxes, dims);
      Walk(sizes, joins, first, axis, false, cells, boxes, dims);
      assert BoxOk(boxes[first], dims);
    }
    rows := seq(idxDim, d requires 0 <= d < idxDim reads cells => Row(cells[d] + 1, cells[d], 0));
  }
}

/**
 Removal of ghost elements and of unused nodes from a zone
 (maia/__old/transform/remove_ghost_info.cpp, maia/__old/transform/renumber_point_lists.cpp).
 */
module GhostRemoval {
  import opened Basics
  import opened Counting

  /** An element section: its range, its number of ghost elements (which come last), its element type and its connectivity. */
  datatype Pool = Pool(first: int, last: int, ghosts: nat, width: nat, dim: nat, connec: seq<int>)

  function Size(p: Pool): int { p.last - p.first + 1 }

  function Owned(p: Pool): int { Size(p) - p.ghosts }

  ghost predicate PoolOk(p: Pool, nodes: nat) {
    && 0 <= Owned(p) && |p.connec| == Size(p) * p.width
    && forall k :: 0 <= k < |p.connec| ==> 1 <= p.connec[k] <= nodes
  }

  /** Elements, and owned elements, before section `n`. */
  function SizeBefore(pools: seq<Pool>, n: nat): int
    requires n <= |pools|
  {
    if n == 0 then 0 else SizeBefore(pools, n - 1) + Size(pools[n - 1])
  }

  function OwnedBefore(pools: seq<Pool>, n: nat): int
    requires n <= |pools|
  {
    if n == 0 then 0 else OwnedBefore(pools, n - 1) + Owned(pools[n - 1])
  }

  /** Sections are numbered one after the other. */
  ghost predicate PoolsOk(pools: seq<Pool>, nodes: nat) {
    pools != [] && forall p: nat {:trigger SectionOk(pools, p, nodes)} :: p < |pools| ==> SectionOk(pools, p, nodes)
  }

  ghost predicate SectionOk(pools: seq<Pool>, p: nat, nodes: nat)
    requires p < |pools|
  {
    PoolOk(pools[p], nodes) && pools[p].first == pools[0].first + SizeBefore(pools, p)
  }

  ghost predicate SizesOk(pools: seq<Pool>) {
    forall p :: 0 <= p < |pools| ==> 0 <= Owned(pools[p])
  }

  lemma {:induction false} SizesAreOk(pools: seq<Pool>, nodes: nat)
    requires PoolsOk(pools, nodes)
    ensures SizesOk(pools)
  {
    forall p: nat | p < |pools| ensures 0 <= Owned(pools[p]) { assert SectionOk(pools, p, nodes); }
  }

  // ---------------------------------------------------------------- the permutation of elements

  function Iota(base: int, n: nat): (r: seq<int>)
    ensures |r| == n && forall e :: 0 <= e < n ==> r[e] == base + e
  {
    seq(n, e => base + e)
  }

  function Repeat(x: int, n: nat): (r: seq<int>)
    ensures |r| == n && forall e :: 0 <= e < n ==> r[e] == x
  {
    seq(n, e => x)
  }

  /** New position of every element, -2 for a ghost. */
  ghost function Permutation(pools: seq<Pool>, n: nat): (r: seq<int>)
    requires n <= |pools| && SizesOk(pools)
    ensures |r| == SizeBefore(pools, n)
  {
    if n == 0 then []
    else
      Permutation(pools, n - 1) + Iota(OwnedBefore(pools, n - 1), Owned(pools[n - 1])) + Repeat(-2, pools[n - 1].ghosts)
  }

  /** Element `e` of section `p` keeps its rank among the owned ones. */
  lemma {:induction false} PermutationAt(pools: seq<Pool>, n: nat, p: nat, e: nat)
    requires p < n <= |pools| && e < Size(pools[p]) && SizesOk(pools)
    ensures 0 <= SizeBefore(pools, p) && SizeBefore(pools, p) + e < |Permutation(pools, n)|
    ensures Permutation(pools, n)[SizeBefore(pools, p) + e] == if e < Owned(pools[p]) then OwnedBefore(pools, p) + e else -2
    decreases n
  {
    SizesGrow(pools, p, n - 1);
    if p < n - 1 { PermutationAt(pools, n - 1, p, e); }
  }

  lemma {:induction false} SizesGrow(pools: seq<Pool>, p: nat, n: nat)
    requires p <= n <= |pools| && SizesOk(pools)
    ensures 0 <= SizeBefore(pools, p) <= SizeBefore(pools, n) && 0 <= OwnedBefore(pools, p) <= OwnedBefore(pools, n)
    decreases n
  {
    if p < n { SizesGrow(pools, p, n - 1); } else if p > 0 { SizesGrow(pools, p - 1, n - 1); }
  }

  lemma {:induction false} PermutationStep(pools: seq<Pool>, n: nat)
    requires n < |pools| && SizesOk(pools)
    ensures Permutation(pools, n + 1) == Permutation(pools, n) + Iota(OwnedBefore(pools, n), Owned(pools[n])) + Repeat(-2, pools[n].ghosts)
  {
  }

  /** Compute the permutation, the bounds of the sections and the number of owned cells. */
  method ElementPermutation(pools: seq<Pool>) returns (perm: seq<int>, intervals: seq<int>, cells: int)
    requires SizesOk(pools)
    ensures perm == Permutation(pools, |pools|)
    ensures |intervals| == |pools| + 1 && forall p: nat {:trigger intervals[p]} :: p <= |pools| ==> intervals[p] == OwnedBefore(pools, p)
    ensures cells == OwnedCells(pools, |pools|)
  {
    perm, intervals, cells := [], [0], 0;
    for n := 0 to |pools|
      invariant perm == Permutation(pools, n) && cells == OwnedCells(pools, n)
      invariant |intervals| == n + 1 && forall p: nat {:trigger intervals[p]} :: p <= n ==> intervals[p] == OwnedBefore(pools, p)
    {
      PermutationStep(pools, n);
      var owned, ghosts, base := Size(pools[n]) - pools[n].ghosts, pools[n].ghosts, intervals[n];
      assert owned == Owned(pools[n]) && base == OwnedBefore(pools, n);
      if pools[n].dim == 3 { cells := cells + owned; }
      perm := perm + Iota(base, owned);
      intervals := intervals + [base + owned];
      perm := perm + Repeat(-1 - 1, ghosts);
      assert perm == Permutation(pools, n + 1);
    }
  }

  function OwnedCells(pools: seq<Pool>, n: nat): int
    requires n <= |pools|
  {
    if n == 0 then 0 else OwnedCells(pools, n - 1) + if pools[n - 1].dim == 3 then Owned(pools[n - 1]) else 0
  }

  /** The number of the element after removal, -1 for a ghost. */
  function NewElement(perm: seq<int>, first: int, id: int): int
    requires 0 <= id - first < |perm|
  {
    perm[id - first] + 1
  }

  /** Renumber the elements of a point list. */
  method RenumberElements(pl: seq<int>, perm: seq<int>, first: int) returns (out: seq<int>)
    requires forall i :: 0 <= i < |pl| ==> 0 <= pl[i] - first < |perm|
    ensures |out| == |pl| && forall i :: 0 <= i < |pl| ==> out[i] == NewElement(perm, first, pl[i])
  {
    out := pl;
    for k := 0 to |pl|
      invariant |out| == |pl| && forall i :: 0 <= i < |pl| ==> out[i] == if i < k then NewElement(perm, first, pl[i]) else pl[i]
    {
      out := out[k := perm[out[k] - first] + 1];
    }
  }

  /** New element numbers are ranks in the new range of the section; ghosts, and only they, become -1. */
  lemma {:induction false} ElementKeepsPlace(pools: seq<Pool>, nodes: nat, p: nat, e: nat)
    requires PoolsOk(pools, nodes) && SizesOk(pools) && p < |pools| && e < Size(pools[p])
    ensures var perm, first := Permutation(pools, |pools|), pools[0].first;
            && 0 <= (pools[p].first + e) - first < |perm|
            && var id := NewElement(perm, first, pools[p].first + e);
               if e < Owned(pools[p]) then id == OwnedBefore(pools, p) + 1 + e && 1 <= id <= OwnedBefore(pools, p + 1) else id == -1
  {
    assert SectionOk(pools, p, nodes);
    PermutationAt(pools, |pools|, p, e);
    SizesGrow(pools, p, |pools|);
  }

  // ---------------------------------------------------------------- truncated sections

  /** Length of the connectivity of the owned elements. */
  function Kept(p: Pool): int { Owned(p) * p.width }

  ghost predicate RowsFit(pools: seq<Pool>) {
    forall p :: 0 <= p < |pools| ==> 0 <= Kept(pools[p]) <= |pools[p].connec|
  }

  function Truncated(pools: seq<Pool>, p: nat): Pool
    requires p < |pools| && 0 <= Kept(pools[p]) <= |pools[p].connec|
  {
    pools[p].(first := OwnedBefore(pools, p) + 1, last := OwnedBefore(pools, p + 1), ghosts := 0, connec := pools[p].connec[..Kept(pools[p])])
  }

  lemma {:induction false} OwnedRowsFit(p: Pool, nodes: nat)
    requires PoolOk(p, nodes)
    ensures 0 <= Kept(p) <= |p.connec|
  {
    assert Size(p) * p.width == Owned(p) * p.width + p.ghosts * p.width;
  }

  lemma {:induction false} AllRowsFit(pools: seq<Pool>, nodes: nat)
    requires PoolsOk(pools, nodes)
    ensures RowsFit(pools)
  {
    forall p: nat | p < |pools| ensures 0 <= Kept(pools[p]) <= |pools[p].connec| {
      assert SectionOk(pools, p, nodes);
      OwnedRowsFit(pools[p], nodes);
    }
  }

  method TruncatePool(pool: Pool, lo: int, hi: int) returns (out: Pool)
    requires hi - lo == Owned(pool) && 0 <= Kept(pool) <= |pool.connec|
    ensures out == pool.(first := lo + 1, last := hi, ghosts := 0, connec := pool.connec[..Kept(pool)])
  {
    var size := (hi - lo) * pool.width;
    assert size == Kept(pool);
    var connec := [];
    for k := 0 to size
      invariant connec == pool.connec[..k]
    {
      connec := connec + [pool.connec[k]];
    }
    out := pool.(first := lo + 1, last := hi, ghosts := 0, connec := connec);
  }

  ghost predicate AreTruncated(out: seq<Pool>, pools: seq<Pool>)
    requires RowsFit(pools)
  {
    |out| == |pools| && forall p: nat {:trigger out[p]} :: p < |pools| ==> out[p] == Truncated(pools, p)
  }

  /** Drop the ghost rows and set the new ranges. */
  method TruncatePools(pools: seq<Pool>, intervals: seq<int>) returns (out: seq<Pool>)
    requires RowsFit(pools)
    requires |intervals| == |pools| + 1 && forall p: nat {:trigger intervals[p]} :: p <= |pools| ==> intervals[p] == OwnedBefore(pools, p)
    ensures AreTruncated(out, pools)
  {
    out := [];
    for p := 0 to |pools|
      invariant |out| == p && forall q: nat {:trigger out[q]} :: q < p ==> out[q] == Truncated(pools, q)
    {
      var pool := TruncatePool(pools[p], intervals[p], intervals[p + 1]);
      out := out + [pool];
    }
  }

  // ---------------------------------------------------------------- compaction of nodes

  ghost predicate UsedBy(connec: seq<int>, i: int) {
    exists k :: 0 <= k < |connec| && connec[k] == i + 1
  }

  /** Node `i` (from 0) is a corner of an element. */
  ghost predicate Used(pools: seq<Pool>, i: int) {
    exists p :: 0 <= p < |pools| && UsedBy(pools[p].connec, i)
  }

  /** Number of used nodes before node `i`. */
  ghost function Rank(pools: seq<Pool>, i: nat): (r: nat)
    ensures r <= i
  {
    if i == 0 then 0 else Rank(pools, i - 1) + if Used(pools, i - 1) then 1 else 0
  }

  ghost predicate NodesInRange(pools: seq<Pool>, n: nat) {
    forall p, k :: 0 <= p < |pools| && 0 <= k < |pools[p].connec| ==> 1 <= pools[p].connec[k] <= n
  }

  /** The new position of every node, -1 for an unused one. */
  ghost predicate IsCompaction(nodes: seq<int>, pools: seq<Pool>) {
    forall i: nat :: i < |nodes| ==> nodes[i] == if Used(pools, i) then Rank(pools, i) else -1
  }

  method MarkUsed(pools: seq<Pool>, n: nat) returns (nodes: array<int>)
    requires NodesInRange(pools, n)
    ensures fresh(nodes) && nodes.Length == n && forall i :: 0 <= i < n ==> nodes[i] == if Used(pools, i) then 0 else -1
  {
    nodes := new int[n](i => -1);
    for p := 0 to |pools|
      invariant forall i :: 0 <= i < n ==> nodes[i] == if Used(pools[..p], i) then 0 else -1
    {
      var connec := pools[p].connec;
      for k := 0 to |connec|
        invariant forall i :: 0 <= i < n ==> nodes[i] == if Used(pools[..p], i) || UsedBy(connec[..k], i) then 0 else -1
      {
        assert 1 <= pools[p].connec[k] <= n;
        UsedByStep(connec, k);
        nodes[connec[k] - 1] := 0;
      }
      assert connec[..|connec|] == connec;
      UsedStep(pools, p);
    }
    assert pools[..|pools|] == pools;
  }

  lemma {:induction false} UsedByStep(connec: seq<int>, k: nat)
    requires k < |connec|
    ensures forall i :: UsedBy(connec[..k + 1], i) <==> UsedBy(connec[..k], i) || connec[k] == i + 1
  {
    forall i ensures UsedBy(connec[..k + 1], i) <==> UsedBy(connec[..k], i) || connec[k] == i + 1 {
      if UsedBy(connec[..k], i) {
        var l :| 0 <= l < k && connec[..k][l] == i + 1;
        assert connec[..k + 1][l] == i + 1;
      }
      if connec[k] == i + 1 { assert connec[..k + 1][k] == i + 1; }
      if UsedBy(connec[..k + 1], i) {
        var l :| 0 <= l < k + 1 && connec[..k + 1][l] == i + 1;
        if l < k { assert connec[..k][l] == i + 1; }
      }
    }
  }

  lemma {:induction false} UsedStep(pools: seq<Pool>, p: nat)
    requires p < |pools|
    ensures forall i :: Used(pools[..p + 1], i) <==> Used(pools[..p], i) || UsedBy(pools[p].connec, i)
  {
    forall i ensures Used(pools[..p + 1], i) <==> Used(pools[..p], i) || UsedBy(pools[p].connec, i) {
      if Used(pools[..p], i) {
        var q :| 0 <= q < p && UsedBy(pools[..p][q].connec, i);
        assert pools[..p + 1][q] == pools[q];
      }
      if UsedBy(pools[p].connec, i) { assert pools[..p + 1][p] == pools[p]; }
      if Used(pools[..p + 1], i) {
        var q :| 0 <= q < p + 1 && UsedBy(pools[..p + 1][q].connec, i);
        if q < p { assert pools[..p][q] == pools[q]; }
      }
    }
  }

  /** Give consecutive numbers to the used nodes, in place. */
  method CompactNodes(pools: seq<Pool>, n: nat) returns (nodes: seq<int>, count: nat)
    requires NodesInRange(pools, n)
    ensures |nodes| == n && IsCompaction(nodes, pools) && count == Rank(pools, n)
  {
    var a := MarkUsed(pools, n);
    count := 0;
    for i := 0 to n
      invariant count == Rank(pools, i)
      invariant forall j: nat :: j < n ==>
                  a[j] == if Used(pools, j) then if j < i then Rank(pools, j) else 0 else -1
    {
      if a[i] != -1 {
        a[i] := count;
        count := count + 1;
      }
    }
    nodes := a[..];
  }

  /** The renumbering keeps the order of the used nodes. */
  lemma {:induction false} RankIncreases(pools: seq<Pool>, i: nat, j: nat)
    requires i < j
    ensures Rank(pools, i) <= Rank(pools, j) && (Used(pools, i) ==> Rank(pools, i) < Rank(pools, j))
    decreases j
  {
    if i < j - 1 { RankIncreases(pools, i, j - 1); }
  }

  /** The renumbering leaves no gap. */
  lemma {:induction false} RankHits(pools: seq<Pool>, n: nat, r: nat) returns (i: nat)
    requires r < Rank(pools, n)
    ensures i < n && Used(pools, i) && Rank(pools, i) == r
    decreases n
  {
    if r < Rank(pools, n - 1) { i := RankHits(pools, n - 1, r); } else { i := n - 1; }
  }

  /** Different positions below `count`. */
  ghost predicate Places(nodes: seq<int>, count: nat) {
    && (forall i :: 0 <= i < |nodes| && nodes[i] != -1 ==> 0 <= nodes[i] < count)
    && forall i, j :: 0 <= i < j < |nodes| && nodes[i] != -1 && nodes[j] != -1 ==> nodes[i] != nodes[j]
  }

  lemma {:induction false} CompactionPlaces(nodes: seq<int>, pools: seq<Pool>)
    requires IsCompaction(nodes, pools)
    ensures Places(nodes, Rank(pools, |nodes|))
  {
    forall i: nat | i < |nodes| && nodes[i] != -1 ensures 0 <= nodes[i] < Rank(pools, |nodes|) { RankIncreases(pools, i, |nodes|); }
    forall i: nat, j: nat | i < j < |nodes| && nodes[i] != -1 && nodes[j] != -1 ensures nodes[i] != nodes[j] { RankIncreases(pools, i, j); }
  }

  /** Move a coordinate array to the new positions. */
  method CompactCoordinates(coord: seq<real>, nodes: seq<int>, count: nat) returns (out: seq<real>)
    requires |coord| == |nodes| && Places(nodes, count)
    ensures |out| == count && forall i :: 0 <= i < |nodes| && nodes[i] != -1 ==> out[nodes[i]] == coord[i]
  {
    var a := new real[count](i => 0.0);
    for i := 0 to |nodes|
      invariant forall j :: 0 <= j < i && nodes[j] != -1 ==> a[nodes[j]] == coord[j]
    {
      var position := nodes[i];
      if position != -1 { a[position] := coord[i]; }
    }
    out := a[..];
  }

  // ---------------------------------------------------------------- renumbering of nodes

  /** The number of a node after compaction, -1 for an unused one. */
  ghost function NewNode(pools: seq<Pool>, id: int): int {
    if 1 <= id && Used(pools, id - 1) then Rank(pools, id - 1) + 1 else -1
  }

  ghost predicate IdsIn(pl: seq<int>, n: nat) {
    forall i :: 0 <= i < |pl| ==> 1 <= pl[i] <= n
  }

  ghost predicate Renumbered(out: seq<int>, pl: seq<int>, pools: seq<Pool>) {
    |out| == |pl| && forall i :: 0 <= i < |pl| ==> out[i] == NewNode(pools, pl[i])
  }

  /** Renumber the corners of the elements of a section. */
  method RenumberConnectivity(connec: seq<int>, nodes: seq<int>, ghost pools: seq<Pool>, ghost p: nat) returns (out: seq<int>)
    requires IsCompaction(nodes, pools) && IdsIn(connec, |nodes|) && p < |pools| && pools[p].connec == connec
    ensures Renumbered(out, connec, pools)
  {
    out := connec;
    for k := 0 to |connec|
      invariant |out| == |connec| && forall i :: 0 <= i < |connec| ==> out[i] == if i < k then NewNode(pools, connec[i]) else connec[i]
    {
      assert UsedBy(pools[p].connec, connec[k] - 1);
      out := out[k := nodes[out[k] - 1] + 1];
    }
  }

  /** Renumber the nodes of a point list; the number 0 that an unused node gets is replaced by -1. */
  method RenumberNodes(pl: seq<int>, nodes: seq<int>, ghost pools: seq<Pool>) returns (out: seq<int>)
    requires IsCompaction(nodes, pools) && IdsIn(pl, |nodes|)
    ensures Renumbered(out, pl, pools)
  {
    out := pl;
    for k := 0 to |pl|
      invariant |out| == |pl| && forall i :: 0 <= i < |pl| ==> out[i] == if i < k then NewNode(pools, pl[i]) else pl[i]
    {
      out := out[k := nodes[out[k] - 1] + 1];
      if out[k] == 0 { out := out[k := -1]; }
    }
  }

  method RenumberLists(lists: seq<seq<int>>, nodes: seq<int>, ghost pools: seq<Pool>) returns (out: seq<seq<int>>)
    requires IsCompaction(nodes, pools) && forall i :: 0 <= i < |lists| ==> IdsIn(lists[i], |nodes|)
    ensures AllRenumbered(out, lists, pools)
  {
    out := [];
    for k := 0 to |lists|
      invariant |out| == k && forall i :: 0 <= i < k ==> Renumbered(out[i], lists[i], pools)
    {
      var pl := RenumberNodes(lists[k], nodes, pools);
      out := out + [pl];
    }
  }

  ghost predicate AllRenumbered(out: seq<seq<int>>, lists: seq<seq<int>>, pools: seq<Pool>) {
    |out| == |lists| && forall i :: 0 <= i < |lists| ==> Renumbered(out[i], lists[i], pools)
  }

  // ---------------------------------------------------------------- the zone

  /**
   The parts of a zone that are changed: element sections, coordinate arrays, lists of faces, lists of vertices, lists of
   vertices of this zone kept by other zones, numbers of cells and of vertices.
   */
  datatype ZoneData = ZoneData(pools: seq<Pool>, coords: seq<seq<real>>, faceLists: seq<seq<int>>, vertexLists: seq<seq<int>>,
                               donated: seq<seq<int>>, cells: int, vertices: nat)

  ghost predicate ZoneOk(z: ZoneData) {
    && PoolsOk(z.pools, z.vertices)
    && (forall c :: 0 <= c < |z.coords| ==> |z.coords[c]| == z.vertices)
    && (forall i :: 0 <= i < |z.faceLists| ==> ElementsIn(z.faceLists[i], z.pools[0].first, SizeBefore(z.pools, |z.pools|)))
    && (forall i :: 0 <= i < |z.vertexLists| ==> IdsIn(z.vertexLists[i], z.vertices))
    && forall i :: 0 <= i < |z.donated| ==> IdsIn(z.donated[i], z.vertices)
  }

  ghost predicate ElementsIn(pl: seq<int>, first: int, n: int) {
    forall i :: 0 <= i < |pl| ==> 0 <= pl[i] - first < n
  }

  /** The section `a` is the owned part of section `p`, with renumbered nodes. */
  ghost predicate SectionCleaned(a: Pool, t: seq<Pool>, p: nat) {
    p < |t| && Renumbered(a.connec, t[p].connec, t) && a == t[p].(connec := a.connec)
  }

  ghost predicate CoordinatesMoved(out: seq<real>, coord: seq<real>, t: seq<Pool>) {
    && |out| == Rank(t, |coord|)
    && forall i: nat {:trigger Used(t, i)} :: i < |coord| && Used(t, i) ==> Rank(t, i) < |out| && out[Rank(t, i)] == coord[i]
  }

  ghost predicate FacesRenumbered(out: seq<int>, pl: seq<int>, perm: seq<int>, first: int) {
    ElementsIn(pl, first, |perm|) && |out| == |pl| && forall i :: 0 <= i < |pl| ==> out[i] == NewElement(perm, first, pl[i])
  }

  /** The zone `a` is what remains of the zone `b`; `t` are the sections without ghosts. */
  ghost predicate Cleaned(b: ZoneData, a: ZoneData, t: seq<Pool>)
  {
    && ZoneOk(b) && SizesOk(b.pools) && RowsFit(b.pools) && AreTruncated(t, b.pools)
    && |a.pools| == |t| && (forall p: nat {:trigger a.pools[p]} :: p < |t| ==> SectionCleaned(a.pools[p], t, p))
    && |a.coords| == |b.coords| && (forall c :: 0 <= c < |b.coords| ==> CoordinatesMoved(a.coords[c], b.coords[c], t))
    && |a.faceLists| == |b.faceLists|
    && (forall i :: 0 <= i < |b.faceLists| ==>
          FacesRenumbered(a.faceLists[i], b.faceLists[i], Permutation(b.pools, |b.pools|), b.pools[0].first))
    && AllRenumbered(a.vertexLists, b.vertexLists, t) && AllRenumbered(a.donated, b.donated, t)
    && a.cells == OwnedCells(b.pools, |b.pools|) && a.vertices == Rank(t, b.vertices)
  }

  lemma {:induction false} TruncatedInRange(t: seq<Pool>, pools: seq<Pool>, n: nat)
    requires PoolsOk(pools, n) && RowsFit(pools) && AreTruncated(t, pools)
    ensures NodesInRange(t, n)
  {
    forall p: nat, k | p < |t| && 0 <= k < |t[p].connec| ensures 1 <= t[p].connec[k] <= n {
      assert SectionOk(pools, p, n);
      assert t[p] == Truncated(pools, p);
      assert t[p].connec[k] == pools[p].connec[k];
    }
  }

  method RenumberSections(t: seq<Pool>, nodes: seq<int>) returns (out: seq<Pool>)
    requires IsCompaction(nodes, t) && NodesInRange(t, |nodes|)
    ensures |out| == |t| && forall p: nat {:trigger out[p]} :: p < |t| ==> SectionCleaned(out[p], t, p)
  {
    out := [];
    for p := 0 to |t|
      invariant |out| == p && forall q: nat {:trigger out[q]} :: q < p ==> SectionCleaned(out[q], t, q)
    {
      var connec := RenumberConnectivity(t[p].connec, nodes, t, p);
      out := out + [t[p].(connec := connec)];
    }
  }

  method MoveCoordinates(coords: seq<seq<real>>, nodes: seq<int>, count: nat, ghost t: seq<Pool>) returns (out: seq<seq<real>>)
    requires IsCompaction(nodes, t) && count == Rank(t, |nodes|) && forall c :: 0 <= c < |coords| ==> |coords[c]| == |nodes|
    ensures |out| == |coords| && forall c :: 0 <= c < |coords| ==> CoordinatesMoved(out[c], coords[c], t)
  {
    out := [];
    CompactionPlaces(nodes, t);
    for c := 0 to |coords|
      invariant |out| == c && forall d :: 0 <= d < c ==> CoordinatesMoved(out[d], coords[d], t)
    {
      var moved := CompactCoordinates(coords[c], nodes, count);
      assert CoordinatesMoved(moved, coords[c], t) by {
        forall i: nat | i < |coords[c]| && Used(t, i) ensures Rank(t, i) < |moved| && moved[Rank(t, i)] == coords[c][i] {
          assert nodes[i] == Rank(t, i);
        }
      }
      out := out + [moved];
    }
  }

  method RenumberFaces(lists: seq<seq<int>>, perm: seq<int>, first: int) returns (out: seq<seq<int>>)
    requires forall i :: 0 <= i < |lists| ==> ElementsIn(lists[i], first, |perm|)
    ensures |out| == |lists| && forall i :: 0 <= i < |lists| ==> FacesRenumbered(out[i], lists[i], perm, first)
  {
    out := [];
    for k := 0 to |lists|
      invariant |out| == k && forall i :: 0 <= i < k ==> FacesRenumbered(out[i], lists[i], perm, first)
    {
      var pl := RenumberElements(lists[k], perm, first);
      out := out + [pl];
    }
  }

  // ---------------------------------------------------------------- the order of the sections

  ghost predicate InRangeOrder(s: seq<Pool>) {
    forall i, j :: 0 <= i < j < |s| ==> s[i].first <= s[j].first
  }

  /** The same sections in the order of their ranges; the order of ties is not promised. */
  ghost predicate IsSort(s: seq<Pool>, pools: seq<Pool>) {
    multiset(s) == multiset(pools) && InRangeOrder(s)
  }

  /** Once sorted, the sections are contiguous and the zone is well formed. */
  ghost predicate SortsWell(z: ZoneData) {
    forall s {:trigger IsSort(s, z.pools)} :: IsSort(s, z.pools) ==> ZoneOk(z.(pools := s))
  }

  ghost predicate GoesAt(s: seq<Pool>, first: int, pos: nat) {
    && pos <= |s| && (forall i :: 0 <= i < pos ==> s[i].first <= first)
    && (pos < |s| ==> first <= s[pos].first)
  }

  lemma {:induction false} InsertKeepsOrder(s: seq<Pool>, p: Pool, pos: nat)
    requires InRangeOrder(s) && GoesAt(s, p.first, pos)
    ensures InRangeOrder(s[..pos] + [p] + s[pos..])
  {
    var r := s[..pos] + [p] + s[pos..];
    forall i, j | 0 <= i < j < |r| ensures r[i].first <= r[j].first {
      InsertedAt(s, p, pos, i);
      InsertedAt(s, p, pos, j);
    }
  }

  lemma {:induction false} InsertSection(s: seq<Pool>, pools: seq<Pool>, k: nat, pos: nat)
    requires k < |pools| && IsSort(s, pools[..k]) && GoesAt(s, pools[k].first, pos)
    ensures IsSort(s[..pos] + [pools[k]] + s[pos..], pools[..k + 1])
  {
    InsertKeepsOrder(s, pools[k], pos);
    InsertAdds(s, pools[k], pos);
    assert pools[..k + 1] == pools[..k] + [pools[k]];
  }

  method FindPlace(s: seq<Pool>, first: int) returns (pos: nat)
    ensures GoesAt(s, first, pos)
  {
    pos := 0;
    while pos < |s| && s[pos].first < first
      invariant 0 <= pos <= |s|
      invariant forall i :: 0 <= i < pos ==> s[i].first <= first
    {
      pos := pos + 1;
    }
  }

  method SortSections(pools: seq<Pool>) returns (s: seq<Pool>)
    ensures IsSort(s, pools)
  {
    s := [];
    for k := 0 to |pools|
      invariant IsSort(s, pools[..k])
    {
      var pos := FindPlace(s, pools[k].first);
      InsertSection(s, pools, k, pos);
      s := s[..pos] + [pools[k]] + s[pos..];
    }
    assert pools[..|pools|] == pools;
  }

  class Zone {
    var pools: seq<Pool>
    var coords: seq<seq<real>>
    var faceLists: seq<seq<int>>
    var vertexLists: seq<seq<int>>
    var donated: seq<seq<int>>
    var cells: int
    var vertices: nat

    ghost function View(): ZoneData
      reads this
    {
      ZoneData(pools, coords, faceLists, vertexLists, donated, cells, vertices)
    }

    /** Put the sections in the order of their ranges, and clean them. */
    method RemoveGhostInfo() returns (ghost sorted: seq<Pool>, ghost t: seq<Pool>)
      requires SortsWell(View())
      modifies this
      ensures IsSort(sorted, old(pools)) && Cleaned(old(View()).(pools := sorted), View(), t)
    {
      pools := SortSections(pools);
      sorted := pools;
      assert View() == old(View()).(pools := sorted);
      t := CleanSections();
    }

    /** Remove ghost elements, then the nodes that no element uses, and renumber what refers to them. */
    method CleanSections() returns (ghost t: seq<Pool>)
      requires ZoneOk(View())
      modifies this
      ensures Cleaned(old(View()), View(), t)
    {
      ghost var n := vertices;
      SizesAreOk(pools, n);
      AllRowsFit(pools, n);
      var perm, intervals, owned := ElementPermutation(pools);
      faceLists := RenumberFaces(faceLists, perm, pools[0].first);
      cells := owned;
      var truncated := TruncatePools(pools, intervals);
      t := truncated;
      TruncatedInRange(t, pools, n);
      var nodes, count := CompactNodes(truncated, vertices);
      vertices := count;
      coords := MoveCoordinates(coords, nodes, count, t);
      pools := RenumberSections(truncated, nodes);
      vertexLists := RenumberLists(vertexLists, nodes, t);
      donated := RenumberLists(donated, nodes, t);
    }
  }

  // ---------------------------------------------------------------- the meaning is kept

  lemma {:induction false} RowPosition(owned: nat, width: nat, e: nat, v: nat)
    requires e < owned && v < width
    ensures 0 <= e * width + v < owned * width
  {
    assert e * width + width == (e + 1) * width <= owned * width;
  }

  /** A corner of an owned element is renumbered by its rank among the used nodes. */
  lemma {:induction false} CornerMoves(b: ZoneData, a: ZoneData, t: seq<Pool>, p: nat, k: nat)
    requires Cleaned(b, a, t) && p < |b.pools| && k < Kept(b.pools[p])
    ensures k < |b.pools[p].connec| && k < |a.pools[p].connec| && 1 <= b.pools[p].connec[k] <= b.vertices
    ensures Used(t, b.pools[p].connec[k] - 1) && a.pools[p].connec[k] == Rank(t, b.pools[p].connec[k] - 1) + 1
  {
    assert SectionOk(b.pools, p, b.vertices);
    assert t[p] == Truncated(b.pools, p);
    assert SectionCleaned(a.pools[p], t, p);
    assert t[p].connec[k] == b.pools[p].connec[k];
    assert UsedBy(t[p].connec, b.pools[p].connec[k] - 1);
  }

  lemma {:induction false} NodeKeepsCoordinate(b: ZoneData, a: ZoneData, t: seq<Pool>, i: nat, c: nat)
    requires Cleaned(b, a, t) && i < b.vertices && Used(t, i) && c < |b.coords|
    ensures |b.coords[c]| == b.vertices && Rank(t, i) < |a.coords[c]| && a.coords[c][Rank(t, i)] == b.coords[c][i]
  {
    assert CoordinatesMoved(a.coords[c], b.coords[c], t);
  }

  /** Every owned element keeps its corners, and they keep their coordinates. */
  lemma {:induction false} ElementKeepsCoordinates(b: ZoneData, a: ZoneData, t: seq<Pool>, p: nat, e: nat, v: nat, c: nat)
    requires Cleaned(b, a, t) && p < |b.pools| && e < Owned(b.pools[p]) && v < b.pools[p].width && c < |b.coords|
    ensures var k := e * b.pools[p].width + v;
            && 0 <= k < |b.pools[p].connec| && k < |a.pools[p].connec|
            && 1 <= b.pools[p].connec[k] <= |b.coords[c]| && 1 <= a.pools[p].connec[k] <= |a.coords[c]|
            && a.coords[c][a.pools[p].connec[k] - 1] == b.coords[c][b.pools[p].connec[k] - 1]
  {
    var k := e * b.pools[p].width + v;
    RowPosition(Owned(b.pools[p]), b.pools[p].width, e, v);
    CornerMoves(b, a, t, p, k);
    NodeKeepsCoordinate(b, a, t, b.pools[p].connec[k] - 1, c);
  }

  /** The new number of an owned element is the number of the row that holds it; ghosts become -1. */
  lemma {:induction false} ElementFindsRow(b: ZoneData, a: ZoneData, t: seq<Pool>, p: nat, e: nat)
    requires Cleaned(b, a, t) && p < |b.pools| && e < Size(b.pools[p])
    ensures var perm, first := Permutation(b.pools, |b.pools|), b.pools[0].first;
            && 0 <= (b.pools[p].first + e) - first < |perm|
            && NewElement(perm, first, b.pools[p].first + e) == if e < Owned(b.pools[p]) then a.pools[p].first + e else -1
    ensures a.pools[p].first + Owned(b.pools[p]) == a.pools[p].last + 1
  {
    ElementKeepsPlace(b.pools, b.vertices, p, e);
    assert t[p] == Truncated(b.pools, p);
    assert SectionCleaned(a.pools[p], t, p);
  }

  /** The new sections are again numbered one after the other, from 1. */
  lemma {:induction false} SectionsStayContiguous(b: ZoneData, a: ZoneData, t: seq<Pool>, p: nat)
    requires Cleaned(b, a, t) && p + 1 < |b.pools|
    ensures a.pools[0].first == 1 && a.pools[p + 1].first == a.pools[p].last + 1
  {
    assert t[p] == Truncated(b.pools, p) && t[p + 1] == Truncated(b.pools, p + 1) && t[0] == Truncated(b.pools, 0);
    assert SectionCleaned(a.pools[p], t, p) && SectionCleaned(a.pools[p + 1], t, p + 1) && SectionCleaned(a.pools[0], t, 0);
  }

  // ---------------------------------------------------------------- invalid ids

  predicate IsValid(i: int) { i != -1 }

  /** Drop the invalid numbers of a list. */
  method DropInvalid(pl: seq<int>) returns (out: seq<int>)
    ensures out == Filter(pl, IsValid)
  {
    out := [];
    for k := 0 to |pl|
      invariant out == Filter(pl[..k], IsValid)
    {
      assert pl[..k + 1] == pl[..k] + [pl[k]];
      FilterAppend(pl[..k], pl[k], IsValid);
      if pl[k] != -1 { out := out + [pl[k]]; }
    }
    assert pl[..|pl|] == pl;
  }

  function Pairs(pl: seq<int>, pld: seq<int>): (r: seq<(int, int)>)
    requires |pl| == |pld|
    ensures |r| == |pl| && forall i :: 0 <= i < |r| ==> r[i] == (pl[i], pld[i])
  {
    seq(|pl|, i requires 0 <= i < |pl| => (pl[i], pld[i]))
  }

  function BothValid(x: (int, int)): bool { x.0 != -1 && x.1 != -1 }

  /** Drop the pairs of a list and of its donor list where either number is invalid. */
  method DropInvalidPairs(pl: seq<int>, pld: seq<int>) returns (newPl: seq<int>, newPld: seq<int>)
    requires |pl| == |pld|
    ensures |newPl| == |newPld| && Pairs(newPl, newPld) == Filter(Pairs(pl, pld), BothValid)
  {
    newPl, newPld := [], [];
    for k := 0 to |pl|
      invariant |newPl| == |newPld| && Pairs(newPl, newPld) == Filter(Pairs(pl, pld)[..k], BothValid)
    {
      var all := Pairs(pl, pld);
      assert all[..k + 1] == all[..k] + [all[k]];
      FilterAppend(all[..k], all[k], BothValid);
      if pl[k] != -1 && pld[k] != -1 {
        assert Pairs(newPl + [pl[k]], newPld + [pld[k]]) == Pairs(newPl, newPld) + [(pl[k], pld[k])];
        newPl, newPld := newPl + [pl[k]], newPld + [pld[k]];
      }
    }
    assert Pairs(pl, pld)[..|pl|] == Pairs(pl, pld);
  }

  ghost function NewPair(t: seq<Pool>, tD: seq<Pool>): ((int, int)) -> (int, int) {
    (x: (int, int)) => (NewNode(t, x.0), NewNode(tD, x.1))
  }

  ghost function BothUsed(t: seq<Pool>, tD: seq<Pool>): ((int, int)) -> bool {
    (x: (int, int)) => 1 <= x.0 && 1 <= x.1 && Used(t, x.0 - 1) && Used(tD, x.1 - 1)
  }

  /**
   A join between two zones: each zone renumbers its own side, then invalid pairs are dropped.  What remains are the pairs of
   nodes that are used on both sides, in the same order, under their new numbers.
   */
  lemma {:induction false} JoinKeepsUsedPairs(t: seq<Pool>, tD: seq<Pool>, pl: seq<int>, pld: seq<int>, out: seq<int>, outD: seq<int>)
    requires |pl| == |pld| && Renumbered(out, pl, t) && Renumbered(outD, pld, tD)
    ensures Filter(Pairs(out, outD), BothValid) == Map(Filter(Pairs(pl, pld), BothUsed(t, tD)), NewPair(t, tD))
  {
    assert Pairs(out, outD) == Map(Pairs(pl, pld), NewPair(t, tD));
    FilterMap(Pairs(pl, pld), NewPair(t, tD), BothValid, BothUsed(t, tD));
  }

  // ---------------------------------------------------------------- sizes and lists

  /** The dimension of every element that is kept. */
  ghost function KeptDimensions(pools: seq<Pool>): seq<int> {
    FlatMap(pools, (p: Pool) => Repeat(p.dim, if Owned(p) < 0 then 0 else Owned(p)))
  }

  lemma {:induction false} CountRepeat(x: int, n: nat, y: int)
    ensures Count(Repeat(x, n), Is(y)) == if x == y then n else 0
    decreases n
  {
    if n > 0 {
      CountRepeat(x, n - 1, y);
      assert Repeat(x, n) == Repeat(x, n - 1) + [x];
      CountAppend(Repeat(x, n - 1), x, Is(y));
    }
  }

  lemma {:induction false} CellsAreCounted(pools: seq<Pool>, n: nat)
    requires n <= |pools| && SizesOk(pools)
    ensures OwnedCells(pools, n) == Count(KeptDimensions(pools[..n]), Is(3))
    decreases n
  {
    if n > 0 {
      CellsAreCounted(pools, n - 1);
      var p := pools[n - 1];
      assert pools[..n][..n - 1] == pools[..n - 1];
      assert KeptDimensions(pools[..n]) == KeptDimensions(pools[..n - 1]) + Repeat(p.dim, Owned(p));
      CountConcat(KeptDimensions(pools[..n - 1]), Repeat(p.dim, Owned(p)), Is(3));
      CountRepeat(p.dim, Owned(p), 3);
    }
  }

  /** The number of cells is the number of elements of dimension 3 that are kept. */
  lemma {:induction false} CellsAreVolumes(b: ZoneData, a: ZoneData, t: seq<Pool>)
    requires Cleaned(b, a, t)
    ensures a.cells == Count(KeptDimensions(b.pools), Is(3))
  {
    CellsAreCounted(b.pools, |b.pools|);
    assert b.pools[..|b.pools|] == b.pools;
  }

  /** The element with number `id` is owned by its section. */
  ghost predicate OwnedElement(b: ZoneData, id: int) {
    exists p: nat :: p < |b.pools| && b.pools[p].first <= id < b.pools[p].first + Owned(b.pools[p])
  }

  /** The number of the row that holds an owned element, after removal. */
  ghost predicate RowOfElement(b: ZoneData, a: ZoneData, id: int, out: int)
    requires |a.pools| == |b.pools|
  {
    exists p: nat :: p < |b.pools| && b.pools[p].first <= id < b.pools[p].first + Owned(b.pools[p]) && out - a.pools[p].first == id - b.pools[p].first
  }

  lemma {:induction false} SectionOfElement(pools: seq<Pool>, nodes: nat, id: int, n: nat) returns (p: nat)
    requires PoolsOk(pools, nodes) && n <= |pools| && pools[0].first <= id < pools[0].first + SizeBefore(pools, n)
    ensures p < n && pools[p].first <= id < pools[p].first + Size(pools[p])
    decreases n
  {
    assert SectionOk(pools, n - 1, nodes);
    if id < pools[n - 1].first { p := SectionOfElement(pools, nodes, id, n - 1); } else { p := n - 1; }
  }

  /** An entry of a face list becomes the number of the row of its element, or -1 for a ghost: dropping -1 drops exactly the ghosts. */
  lemma {:induction false} FaceEntryFindsRow(b: ZoneData, a: ZoneData, t: seq<Pool>, l: nat, i: nat)
    requires Cleaned(b, a, t) && l < |b.faceLists| && i < |b.faceLists[l]|
    ensures |a.faceLists[l]| == |b.faceLists[l]| && |a.pools| == |b.pools|
    ensures IsValid(a.faceLists[l][i]) <==> OwnedElement(b, b.faceLists[l][i])
    ensures IsValid(a.faceLists[l][i]) ==> RowOfElement(b, a, b.faceLists[l][i], a.faceLists[l][i])
  {
    var pl, first, perm := b.faceLists[l], b.pools[0].first, Permutation(b.pools, |b.pools|);
    assert FacesRenumbered(a.faceLists[l], pl, perm, first);
    assert ElementsIn(pl, first, |perm|);
    var p := SectionOfElement(b.pools, b.vertices, pl[i], |b.pools|);
    ElementFindsRow(b, a, t, p, pl[i] - b.pools[p].first);
    OneSection(b.pools, b.vertices, pl[i], p);
    SizesGrow(b.pools, 0, p);
    assert t[p] == Truncated(b.pools, p) && SectionCleaned(a.pools[p], t, p);
    var e, out := pl[i] - b.pools[p].first, a.faceLists[l][i];
    assert out == NewElement(perm, first, pl[i]);
    assert OwnedElement(b, pl[i]) <==> e < Owned(b.pools[p]);
  }

  lemma {:induction false} OneSection(pools: seq<Pool>, nodes: nat, id: int, p: nat)
    requires PoolsOk(pools, nodes) && p < |pools| && pools[p].first <= id < pools[p].first + Size(pools[p])
    ensures forall q: nat :: q < |pools| && pools[q].first <= id < pools[q].first + Owned(pools[q]) ==> q == p
  {
    forall q: nat | q < |pools| && pools[q].first <= id < pools[q].first + Owned(pools[q]) ensures q == p {
      assert SectionOk(pools, p, nodes) && SectionOk(pools, q, nodes);
      SizesAreOk(pools, nodes);
      if p < q { SizesGrow(pools, p + 1, q); }
      if q < p { SizesGrow(pools, q + 1, p); }
    }
  }

  /** A section has no ghost left; it keeps its element type, and the rows of its owned elements. */
  lemma {:induction false} SectionsKeepType(b: ZoneData, a: ZoneData, t: seq<Pool>, p: nat)
    requires Cleaned(b, a, t) && p < |b.pools|
    ensures a.pools[p].ghosts == 0 && a.pools[p].width == b.pools[p].width && a.pools[p].dim == b.pools[p].dim
    ensures |a.pools[p].connec| == Owned(b.pools[p]) * b.pools[p].width && Size(a.pools[p]) == Owned(b.pools[p])
  {
    assert t[p] == Truncated(b.pools, p);
    assert SectionCleaned(a.pools[p], t, p);
  }

  /** An entry of a vertex list, own or donated, leads to the same coordinates as before, or is -1 when no element uses the vertex. */
  lemma {:induction false} ListKeepsCoordinates(b: ZoneData, a: ZoneData, t: seq<Pool>, pl: seq<int>, out: seq<int>, i: nat, c: nat)
    requires Cleaned(b, a, t) && IdsIn(pl, b.vertices) && Renumbered(out, pl, t) && i < |pl| && c < |b.coords|
    ensures if Used(t, pl[i] - 1) then 1 <= out[i] <= |a.coords[c]| && 1 <= pl[i] <= |b.coords[c]| && a.coords[c][out[i] - 1] == b.coords[c][pl[i] - 1]
            else out[i] == -1
  {
    if Used(t, pl[i] - 1) { NodeKeepsCoordinate(b, a, t, pl[i] - 1, c); }
  }
}

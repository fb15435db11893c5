/**
 Distribution of element sections over the ranks, and the parts of the offset array that each rank reads or writes
 (distribute_element_node in maia/factory/full_to_dist.py, create_zone_eso_elements_filter and
 load_element_connectivity_from_eso in maia/io/hdf/cgns_elements.py).
 */
module ElementSlices {
  import opened BlockToBlock

  // ---------------------------------------------------------------- uniform cuts

  /** Cut points of the uniform distribution. */
  function UniformCuts(n: nat, size: nat): (d: seq<int>)
    requires size > 0
    ensures |d| == size + 1
  {
    seq(size + 1, r requires 0 <= r < size + 1 => if r < size then UniformDistributionAt(n, r, size).0 else n)
  }

  lemma {:induction false} CutsAreBounds(n: nat, size: nat, r: nat)
    requires r < size
    ensures UniformDistributionAt(n, r, size) == (UniformCuts(n, size)[r], UniformCuts(n, size)[r + 1])
    ensures UniformCuts(n, size)[r] <= UniformCuts(n, size)[r + 1]
  {
    UniformTiles(n, size);
    var (a, b) := UniformDistributionAt(n, r, size);
    assert b - a >= 0;
  }

  lemma {:induction false} CutsGrow(n: nat, size: nat, i: nat, j: nat)
    requires size > 0 && i <= j <= size
    ensures UniformCuts(n, size)[i] <= UniformCuts(n, size)[j]
    decreases j
  {
    if i < j { CutsGrow(n, size, i, j - 1); CutsAreBounds(n, size, j - 1); }
  }

  /** The bounds that the ranks compute are those of a distribution, whose parts differ by at most one. */
  lemma {:induction false} UniformIsDistribution(n: nat, size: nat)
    requires size > 0
    ensures IsDistribution(UniformCuts(n, size), n)
    ensures forall r, s :: 0 <= r < size && 0 <= s < size ==>
              UniformCuts(n, size)[r + 1] - UniformCuts(n, size)[r] <= UniformCuts(n, size)[s + 1] - UniformCuts(n, size)[s] + 1
  {
    var d := UniformCuts(n, size);
    UniformTiles(n, size);
    forall i, j | 0 <= i <= j < |d| ensures d[i] <= d[j] { CutsGrow(n, size, i, j); }
    forall r: nat | r < size ensures n / size <= d[r + 1] - d[r] <= n / size + 1 {
      CutsAreBounds(n, size, r);
      var (a, b) := UniformDistributionAt(n, r, size);
      assert b - a == n / size + if r < n % size then 1 else 0;
    }
  }

  // ---------------------------------------------------------------- slices

  /** The pieces between consecutive cut points. */
  ghost predicate ArePieces<T>(pieces: seq<seq<T>>, s: seq<T>, cuts: seq<int>) {
    && |cuts| == |pieces| + 1 && cuts[0] == 0 && cuts[|pieces|] == |s|
    && forall r: nat {:trigger PieceAt(pieces, s, cuts, r)} :: r < |pieces| ==> PieceAt(pieces, s, cuts, r)
  }

  ghost predicate PieceAt<T>(pieces: seq<seq<T>>, s: seq<T>, cuts: seq<int>, r: nat)
    requires r < |pieces| && r + 1 < |cuts|
  {
    0 <= cuts[r] <= cuts[r + 1] <= |s| && pieces[r] == s[cuts[r]..cuts[r + 1]]
  }

  lemma {:induction false} PiecesConcat<T>(pieces: seq<seq<T>>, s: seq<T>, cuts: seq<int>, k: nat)
    requires ArePieces(pieces, s, cuts) && k <= |pieces|
    ensures 0 <= cuts[k] <= |s| && Concat(pieces[..k]) == s[..cuts[k]]
    decreases k
  {
    if k > 0 {
      PiecesConcat(pieces, s, cuts, k - 1);
      assert pieces[..k][..k - 1] == pieces[..k - 1];
      assert PieceAt(pieces, s, cuts, k - 1);
    }
  }

  /** A section with offsets: element `e` has the nodes from `eso[e]` to `eso[e + 1]`. */
  datatype Section = Section(eso: seq<nat>, ec: seq<int>, pe: seq<(int, int)>)

  ghost predicate SectionOk(s: Section, n: nat) {
    && |s.eso| == n + 1 && s.eso[0] == 0 && s.eso[n] == |s.ec| && |s.pe| == n
    && forall i, j :: 0 <= i <= j <= n ==> s.eso[i] <= s.eso[j]
  }

  /** What a rank keeps: its elements, the bounds of its connectivity, and its arrays. */
  datatype Local = Local(elements: (nat, nat, nat), connectivity: (nat, nat, nat), section: Section)

  /** Slice a section along the uniform distribution. */
  method DistributeSection(s: Section, n: nat, rank: nat, size: nat) returns (l: Local)
    requires SectionOk(s, n) && rank < size
    ensures var d := UniformCuts(n, size); 0 <= d[rank] <= d[rank + 1] <= n && l == LocalOf(s, n, d[rank], d[rank + 1])
  {
    var (lo, hi) := UniformDistributionAt(n, rank, size);
    CutsAreBounds(n, size, rank);
    CutsGrow(n, size, rank + 1, size);
    assert s.eso[lo] <= s.eso[hi] <= s.eso[n];
    l := Local((lo, hi, n), (s.eso[lo], s.eso[hi], s.eso[n]), Section(s.eso[lo..hi + 1], s.ec[s.eso[lo]..s.eso[hi]], s.pe[lo..hi]));
  }

  ghost function LocalOf(s: Section, n: nat, lo: nat, hi: nat): Local
    requires SectionOk(s, n) && lo <= hi <= n
  {
    assert s.eso[lo] <= s.eso[hi] <= s.eso[n];
    Local((lo, hi, n), (s.eso[lo], s.eso[hi], |s.ec|), Section(s.eso[lo..hi + 1], s.ec[s.eso[lo]..s.eso[hi]], s.pe[lo..hi]))
  }

  /** The nodes of element `e` of a rank. */
  function LocalNodes(l: Local, e: nat): seq<int>
    requires e + 1 < |l.section.eso|
    requires l.connectivity.0 <= l.section.eso[e] <= l.section.eso[e + 1] <= l.connectivity.0 + |l.section.ec|
  {
    l.section.ec[l.section.eso[e] - l.connectivity.0..l.section.eso[e + 1] - l.connectivity.0]
  }

  /** The local offsets bound the local connectivity, and every element keeps its nodes and its parents. */
  lemma {:induction false} SliceKeepsElements(s: Section, n: nat, lo: nat, hi: nat, e: nat)
    requires SectionOk(s, n) && lo <= hi <= n && e < hi - lo
    ensures var l := LocalOf(s, n, lo, hi);
            && |l.section.eso| == hi - lo + 1 && l.section.eso[0] == l.connectivity.0 && l.section.eso[hi - lo] == l.connectivity.1
            && l.connectivity.0 <= l.section.eso[e] <= l.section.eso[e + 1] <= l.connectivity.0 + |l.section.ec|
            && s.eso[lo + e] <= s.eso[lo + e + 1] <= |s.ec|
            && LocalNodes(l, e) == s.ec[s.eso[lo + e]..s.eso[lo + e + 1]] && l.section.pe[e] == s.pe[lo + e]
  {
    assert s.eso[lo] <= s.eso[lo + e] <= s.eso[lo + e + 1] <= s.eso[hi] <= s.eso[n];
    var l := LocalOf(s, n, lo, hi);
    assert l.section.eso[e] == s.eso[lo + e] && l.section.eso[e + 1] == s.eso[lo + e + 1];
    SliceOfSlice(s.ec, s.eso[lo], s.eso[hi], s.eso[lo + e], s.eso[lo + e + 1]);
  }

  ghost predicate AreLocal(locals: seq<Local>, s: Section, n: nat, d: seq<int>) {
    && SectionOk(s, n) && IsDistribution(d, n) && |d| == |locals| + 1
    && forall r: nat {:trigger LocalAt(locals, s, n, d, r)} :: r < |locals| ==> LocalAt(locals, s, n, d, r)
  }

  ghost predicate LocalAt(locals: seq<Local>, s: Section, n: nat, d: seq<int>, r: nat)
    requires SectionOk(s, n) && r < |locals| && r + 1 < |d|
  {
    0 <= d[r] <= d[r + 1] <= n && locals[r] == LocalOf(s, n, d[r], d[r + 1])
  }

  ghost function OffsetAt(s: Section, e: int): int {
    if 0 <= e < |s.eso| then s.eso[e] else 0
  }

  ghost function Connectivities(locals: seq<Local>): (r: seq<seq<int>>)
    ensures |r| == |locals| && forall i :: 0 <= i < |r| ==> r[i] == locals[i].section.ec
  {
    seq(|locals|, i requires 0 <= i < |locals| => locals[i].section.ec)
  }

  ghost function Offsets(s: Section, d: seq<int>): (cuts: seq<int>)
    ensures |cuts| == |d| && forall r :: 0 <= r < |d| ==> cuts[r] == OffsetAt(s, d[r])
  {
    seq(|d|, r requires 0 <= r < |d| => OffsetAt(s, d[r]))
  }

  lemma {:induction false} LocalIsPiece(locals: seq<Local>, s: Section, n: nat, d: seq<int>, r: nat)
    requires SectionOk(s, n) && |d| == |locals| + 1 && r < |locals| && LocalAt(locals, s, n, d, r)
    ensures PieceAt(Connectivities(locals), s.ec, Offsets(s, d), r)
  {
    assert s.eso[d[r]] <= s.eso[d[r + 1]] <= s.eso[n];
  }

  /** The local connectivities, one after the other, are the connectivity of the section. */
  lemma {:induction false} SlicesConcatenate(locals: seq<Local>, s: Section, n: nat, d: seq<int>)
    requires AreLocal(locals, s, n, d)
    ensures Concat(Connectivities(locals)) == s.ec
  {
    var cuts, pieces := Offsets(s, d), Connectivities(locals);
    forall r: nat | r < |pieces| ensures PieceAt(pieces, s.ec, cuts, r) {
      assert LocalAt(locals, s, n, d, r);
      LocalIsPiece(locals, s, n, d, r);
    }
    PiecesConcat(pieces, s.ec, cuts, |pieces|);
    assert pieces[..|pieces|] == pieces;
    assert s.ec[..|s.ec|] == s.ec;
  }

  // ---------------------------------------------------------------- sections of fixed width

  /** Elements with `w` nodes each: the same cut points, scaled. */
  lemma {:induction false} FixedWidthConcatenate(ec: seq<int>, w: nat, n: nat, d: seq<int>, pieces: seq<seq<int>>)
    requires IsDistribution(d, n) && |ec| == w * n && |pieces| == |d| - 1
    requires forall r: nat {:trigger pieces[r]} :: r < |pieces| ==> 0 <= w * d[r] <= w * d[r + 1] <= |ec| && pieces[r] == ec[w * d[r]..w * d[r + 1]]
    ensures Concat(pieces) == ec
  {
    var cuts := seq(|d|, r requires 0 <= r < |d| => w * d[r]);
    forall r: nat | r < |pieces| ensures PieceAt(pieces, ec, cuts, r) {
      Interval(d, n, r);
      assert pieces[r] == ec[w * d[r]..w * d[r + 1]];
    }
    PiecesConcat(pieces, ec, cuts, |pieces|);
    assert pieces[..|pieces|] == pieces;
    assert ec[..|ec|] == ec;
  }

  // ---------------------------------------------------------------- parts of the offset array in the file

  datatype Mode = Read | Write

  /** First entry and number of entries of the offset array that a rank handles; `n + 1` entries in all. */
  function OffsetSlab(lo: int, hi: int, n: int, mode: Mode): (int, int) {
    match mode
    case Read => (lo, hi - lo + 1)
    case Write => (lo, hi - lo + if hi == n && lo != hi then 1 else 0)
  }

  predicate InSlab(slab: (int, int), e: int) {
    slab.0 <= e < slab.0 + slab.1
  }

  ghost predicate Handles(d: seq<int>, n: int, r: nat, mode: Mode, e: int)
    requires r + 1 < |d|
  {
    InSlab(OffsetSlab(d[r], d[r + 1], n, mode), e)
  }

  /** Exactly one rank writes the entry. */
  ghost predicate WrittenOnce(d: seq<int>, n: int, e: int) {
    exists r: nat :: OnlyWriter(d, n, r, e)
  }

  ghost predicate OnlyWriter(d: seq<int>, n: int, r: nat, e: int) {
    r + 1 < |d| && Handles(d, n, r, Write, e) && forall s: nat :: s + 1 < |d| && Handles(d, n, s, Write, e) ==> s == r
  }

  lemma {:induction false} RankOf(d: seq<int>, n: nat, e: nat, k: nat) returns (r: nat)
    requires IsDistribution(d, n) && k < |d| && e < d[k]
    ensures r < k && d[r] <= e < d[r + 1]
    decreases k
  {
    if d[k - 1] <= e { r := k - 1; } else { r := RankOf(d, n, e, k - 1); }
  }

  /** A writing rank has a non-empty part; the last entry belongs with the last element. */
  lemma {:induction false} WriterIs(d: seq<int>, n: nat, r: nat, e: nat)
    requires IsDistribution(d, n) && r + 1 < |d| && n >= 1 && e <= n
    ensures var f := if e < n then e else n - 1; Handles(d, n, r, Write, e) <==> d[r] <= f < d[r + 1]
  {
    Interval(d, n, r);
  }

  lemma {:induction false} RankIsUnique(d: seq<int>, n: nat, r: nat, s: nat, e: int)
    requires IsDistribution(d, n) && r + 1 < |d| && s + 1 < |d| && d[r] <= e < d[r + 1] && d[s] <= e < d[s + 1]
    ensures r == s
  {
    assert r < s ==> InOrder(d, r + 1, s);
    assert s < r ==> InOrder(d, s + 1, r);
  }

  /** Every entry is written exactly once, empty ranks or not, exactly when the section has an element. */
  lemma {:induction false} WriteCoversOnce(d: seq<int>, n: nat)
    requires IsDistribution(d, n)
    ensures (forall e: nat :: e <= n ==> WrittenOnce(d, n, e)) <==> n >= 1
  {
    if n >= 1 {
      forall e: nat | e <= n ensures WrittenOnce(d, n, e) {
        var f := if e < n then e else n - 1;
        var r := RankOf(d, n, f, |d| - 1);
        WriterIs(d, n, r, e);
        forall s: nat | s + 1 < |d| && Handles(d, n, s, Write, e) ensures s == r {
          WriterIs(d, n, s, e);
          RankIsUnique(d, n, r, s, f);
        }
        assert OnlyWriter(d, n, r, e);
      }
    } else {
      NothingWritten(d);
    }
  }

  /** The single entry of an empty section is never written. */
  lemma {:induction false} NothingWritten(d: seq<int>)
    requires IsDistribution(d, 0)
    ensures !WrittenOnce(d, 0, 0)
  {
    forall r: nat | r + 1 < |d| ensures !Handles(d, 0, r, Write, 0) {
      Interval(d, 0, r);
    }
  }

  /** The file after all ranks wrote the beginning of their local offsets: entry `e` comes from the rank that handles it. */
  ghost predicate FileHolds(file: seq<nat>, locals: seq<Local>, d: seq<int>, n: nat) {
    && |file| == n + 1
    && forall e: nat, r: nat {:trigger Handles(d, n, r, Write, e)} :: r < |locals| && r + 1 < |d| && e <= n && Handles(d, n, r, Write, e) ==>
         0 <= e - d[r] < |locals[r].section.eso| && file[e] == locals[r].section.eso[e - d[r]]
  }

  lemma {:induction false} EntryFrom(file: seq<nat>, locals: seq<Local>, s: Section, n: nat, d: seq<int>, e: nat, q: nat)
    requires SectionOk(s, n) && |d| == |locals| + 1 && q < |locals| && LocalAt(locals, s, n, d, q)
    requires FileHolds(file, locals, d, n) && e <= n && Handles(d, n, q, Write, e)
    ensures file[e] == s.eso[e]
  {
    assert locals[q].section.eso == s.eso[d[q]..d[q + 1] + 1];
  }

  lemma {:induction false} EntryWritten(file: seq<nat>, locals: seq<Local>, s: Section, n: nat, d: seq<int>, e: nat)
    requires AreLocal(locals, s, n, d) && FileHolds(file, locals, d, n) && e <= n && WrittenOnce(d, n, e)
    ensures file[e] == s.eso[e]
  {
    var q: nat :| OnlyWriter(d, n, q, e);
    assert LocalAt(locals, s, n, d, q);
    EntryFrom(file, locals, s, n, d, e, q);
  }

  lemma {:induction false} LocalOffsets(locals: seq<Local>, s: Section, n: nat, d: seq<int>, r: nat)
    requires AreLocal(locals, s, n, d) && r < |locals|
    ensures 0 <= d[r] <= d[r + 1] < |s.eso| && locals[r].section.eso == s.eso[d[r]..d[r + 1] + 1]
  {
    assert LocalAt(locals, s, n, d, r);
  }

  /** What the ranks write is the offset array of the section; reading it back gives every rank its own offsets. */
  lemma {:induction false} WriteThenRead(file: seq<nat>, locals: seq<Local>, s: Section, n: nat, d: seq<int>, r: nat)
    requires AreLocal(locals, s, n, d) && n >= 1 && FileHolds(file, locals, d, n) && r < |locals|
    ensures file == s.eso
    ensures var slab := OffsetSlab(d[r], d[r + 1], n, Read);
            0 <= slab.0 <= slab.0 + slab.1 <= |file| && file[slab.0..slab.0 + slab.1] == locals[r].section.eso
  {
    WriteCoversOnce(d, n);
    forall e: nat | e <= n ensures file[e] == s.eso[e] { EntryWritten(file, locals, s, n, d, e); }
    LocalOffsets(locals, s, n, d, r);
  }

  /** The parts of the connectivity that the ranks read or write follow each other. */
  lemma {:induction false} ConnectivitySlabsFollow(locals: seq<Local>, s: Section, n: nat, d: seq<int>, r: nat)
    requires AreLocal(locals, s, n, d) && r + 1 < |locals|
    ensures locals[0].connectivity.0 == 0 && locals[|locals| - 1].connectivity.1 == |s.ec|
    ensures locals[r].connectivity.1 == locals[r + 1].connectivity.0
    ensures |locals[r].section.ec| == locals[r].connectivity.1 - locals[r].connectivity.0
  {
    assert LocalAt(locals, s, n, d, r) && LocalAt(locals, s, n, d, r + 1);
    assert LocalAt(locals, s, n, d, 0) && LocalAt(locals, s, n, d, |locals| - 1);
    assert s.eso[d[r]] <= s.eso[d[r + 1]] <= s.eso[n];
  }

  // ---------------------------------------------------------------- the distributions that go with the slices

  /**
   The ranges that go with the slices: they follow each other from 0 to the number of elements and to the size of the
   connectivity, every rank knows both totals, and they are as long as the local arrays.
   */
  lemma {:induction false} RangesFollow(locals: seq<Local>, s: Section, n: nat, d: seq<int>, r: nat)
    requires AreLocal(locals, s, n, d) && r < |locals|
    ensures var l := locals[r];
            && l.elements.2 == n && l.connectivity.2 == |s.ec|
            && |l.section.pe| == l.elements.1 - l.elements.0 == |l.section.eso| - 1 && |l.section.ec| == l.connectivity.1 - l.connectivity.0
    ensures r == 0 ==> locals[r].elements.0 == 0 && locals[r].connectivity.0 == 0
    ensures r + 1 == |locals| ==> locals[r].elements.1 == n && locals[r].connectivity.1 == |s.ec|
    ensures r + 1 < |locals| ==> locals[r + 1].elements.0 == locals[r].elements.1 && locals[r + 1].connectivity.0 == locals[r].connectivity.1
  {
    assert LocalAt(locals, s, n, d, r);
    assert s.eso[d[r]] <= s.eso[d[r + 1]] <= s.eso[n];
    if r + 1 < |locals| { assert LocalAt(locals, s, n, d, r + 1); }
  }
}

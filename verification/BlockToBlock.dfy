/**
 Redistribution of a block-distributed array over the ranks (maia/transfer/_protocols/block_to_block.py),
 with the distributions it takes (maia/transfer/protocols.py, maia/utils/py_utils.py).

 All ranks are modelled together: a distributed array is the sequence of the pieces held by the ranks.
 */
module BlockToBlock {
  import opened Basics

  // ---------------------------------------------------------------- distributions

  /** Cut points of `n` entities over `|d| - 1` ranks. */
  ghost predicate IsDistribution(d: seq<int>, n: nat) {
    && |d| >= 2 && d[0] == 0 && d[|d| - 1] == n
    && forall i, j {:trigger InOrder(d, i, j)} :: 0 <= i <= j < |d| ==> InOrder(d, i, j)
  }

  ghost predicate InOrder(d: seq<int>, i: int, j: int)
    requires 0 <= i <= j < |d|
  {
    d[i] <= d[j]
  }

  /** Interval `r` of a distribution. */
  lemma {:induction false} Interval(d: seq<int>, n: nat, r: nat)
    requires IsDistribution(d, n) && r + 1 < |d|
    ensures 0 <= d[r] <= d[r + 1] <= n
  {
    assert InOrder(d, 0, r) && InOrder(d, r, r + 1) && InOrder(d, r + 1, |d| - 1);
  }

  lemma {:induction false} CutPoint(d: seq<int>, n: nat, r: nat)
    requires IsDistribution(d, n) && r < |d|
    ensures 0 <= d[r] <= n
  {
    assert InOrder(d, 0, r) && InOrder(d, r, |d| - 1);
  }

  /** The bounds of interval `i` when `n` entities are spread over `size` intervals. */
  function UniformDistributionAt(n: nat, i: nat, size: nat): (r: (nat, nat))
    requires i < size
  {
    var step, remainder := n / size, n % size;
    if i < remainder then (i * (step + 1), i * (step + 1) + step + 1)
    else (i * step + remainder, i * step + remainder + step)
  }

  /** The intervals tile [0, n) in order, and their sizes differ by at most one. */
  lemma {:induction false} UniformTiles(n: nat, size: nat)
    requires size > 0
    ensures UniformDistributionAt(n, 0, size).0 == 0
    ensures UniformDistributionAt(n, size - 1, size).1 == n
    ensures forall i: nat :: i + 1 < size ==> UniformDistributionAt(n, i, size).1 == UniformDistributionAt(n, i + 1, size).0
    ensures forall i: nat :: i < size ==>
              var (a, b) := UniformDistributionAt(n, i, size);
              b - a == n / size + if i < n % size then 1 else 0
  {
    var step, remainder := n / size, n % size;
    assert n == size * step + remainder;
    forall i: nat | i + 1 < size ensures UniformDistributionAt(n, i, size).1 == UniformDistributionAt(n, i + 1, size).0 {
      assert (i + 1) * (step + 1) == i * (step + 1) + step + 1;
      assert (i + 1) * step == i * step + step;
      if i + 1 == remainder { assert (i + 1) * (step + 1) == (i + 1) * step + remainder; }
    }
    assert (size - 1) * step + step == size * step;
  }

  // ---------------------------------------------------------------- overlap of intervals

  function Min(a: int, b: int): int { if a < b then a else b }

  function Overlap(start1: int, end1: int, start2: int, end2: int): int {
    Max(Min(end1, end2) - Max(start1, start2), 0)
  }

  function Clamp(x: int, lo: int, hi: int): int { Max(lo, Min(x, hi)) }

  lemma {:induction false} OverlapSymmetric(a: int, b: int, c: int, d: int)
    ensures Overlap(a, b, c, d) == Overlap(c, d, a, b)
  {
  }

  /** The overlap of two intervals is what one of them cuts out of the other. */
  lemma {:induction false} OverlapCut(a: int, b: int, c: int, d: int)
    requires a <= b && c <= d
    ensures Overlap(a, b, c, d) == Clamp(d, a, b) - Clamp(c, a, b)
  {
  }

  lemma {:induction false} MulSub(k: int, x: int, y: int)
    ensures k * (x - y) == k * x - k * y
  {
  }

  function Sum(s: seq<int>): int {
    if s == [] then 0 else Sum(s[..|s| - 1]) + s[|s| - 1]
  }

  lemma {:induction false} SumStep(s: seq<int>, k: nat)
    requires k < |s|
    ensures Sum(s[..k + 1]) == Sum(s[..k]) + s[k]
  {
    assert s[..k + 1][..k] == s[..k];
  }

  lemma {:induction false} SumSplit(s: seq<int>, t: seq<int>)
    ensures Sum(s + t) == Sum(s) + Sum(t)
    decreases |t|
  {
    if t == [] {
      assert s + t == s;
    } else {
      SumSplit(s, t[..|t| - 1]);
      assert (s + t)[..|s + t| - 1] == s + t[..|t| - 1];
    }
  }

  /** What a rank owning [a, b) sends to, or receives from, each interval of a distribution. */
  function Counts(a: int, b: int, d: seq<int>): (c: seq<int>)
    requires |d| >= 2
    ensures |c| == |d| - 1
  {
    seq(|d| - 1, i requires 0 <= i < |d| - 1 => Overlap(a, b, d[i], d[i + 1]))
  }

  /** The counts before interval `k` add up to the part of [a, b) that lies before it. */
  lemma {:induction false} CountsPrefix(a: int, b: int, d: seq<int>, n: nat, k: nat)
    requires IsDistribution(d, n) && 0 <= a <= b <= n && k < |d|
    ensures Sum(Counts(a, b, d)[..k]) == Clamp(d[k], a, b) - a
    decreases k
  {
    if k > 0 {
      CountsPrefix(a, b, d, n, k - 1);
      SumStep(Counts(a, b, d), k - 1);
      Interval(d, n, k - 1);
      OverlapCut(a, b, d[k - 1], d[k]);
    }
  }

  /** All counts add up to the size of the interval. */
  lemma {:induction false} CountsTotal(a: int, b: int, d: seq<int>, n: nat)
    requires IsDistribution(d, n) && 0 <= a <= b <= n
    ensures Sum(Counts(a, b, d)) == b - a
  {
    CountsPrefix(a, b, d, n, |d| - 1);
    assert Counts(a, b, d)[..|d| - 1] == Counts(a, b, d);
  }

  // ---------------------------------------------------------------- the exchange object of one rank

  /** Fill the counts of one rank towards and from every rank. */
  method FillCounts(distriIn: seq<int>, distriOut: seq<int>, me: nat) returns (send: array<int>, recv: array<int>)
    requires |distriIn| == |distriOut| && me + 1 < |distriIn|
    ensures fresh(send) && fresh(recv)
    ensures send[..] == Counts(distriIn[me], distriIn[me + 1], distriOut)
    ensures recv[..] == Counts(distriOut[me], distriOut[me + 1], distriIn)
  {
    var size := |distriIn| - 1;
    ghost var sends := Counts(distriIn[me], distriIn[me + 1], distriOut);
    ghost var recvs := Counts(distriOut[me], distriOut[me + 1], distriIn);
    send, recv := new int[size], new int[size];
    for i := 0 to size
      invariant forall k :: 0 <= k < i ==> send[k] == sends[k] && recv[k] == recvs[k]
    {
      send[i] := Overlap(distriIn[me], distriIn[me + 1], distriOut[i], distriOut[i + 1]);
      recv[i] := Overlap(distriOut[me], distriOut[me + 1], distriIn[i], distriIn[i + 1]);
    }
    assert send[..] == sends && recv[..] == recvs;
  }

  class BlockToBlock {
    const rank: nat
    const distriIn: seq<int>
    const distriOut: seq<int>
    var dnIn: int
    var dnOut: int
    const sendCounts: array<int>
    const recvCounts: array<int>

    ghost predicate Valid()
      reads this, sendCounts, recvCounts
    {
      && |distriIn| == |distriOut| && rank + 1 < |distriIn|
      && dnIn == distriIn[rank + 1] - distriIn[rank]
      && dnOut == distriOut[rank + 1] - distriOut[rank]
      && sendCounts[..] == Counts(distriIn[rank], distriIn[rank + 1], distriOut)
      && recvCounts[..] == Counts(distriOut[rank], distriOut[rank + 1], distriIn)
    }

    constructor (distri_in: seq<int>, distri_out: seq<int>, me: nat, ghost n: nat)
      requires IsDistribution(distri_in, n) && IsDistribution(distri_out, n)
      requires |distri_in| == |distri_out| && me + 1 < |distri_in|
      ensures Valid() && rank == me && distriIn == distri_in && distriOut == distri_out
      ensures fresh(sendCounts) && fresh(recvCounts)
      ensures Sum(sendCounts[..]) == dnIn && Sum(recvCounts[..]) == dnOut
    {
      rank, distriIn, distriOut := me, distri_in, distri_out;
      dnIn := distri_in[me + 1] - distri_in[me];
      dnOut := distri_out[me + 1] - distri_out[me];
      var send, recv := FillCounts(distri_in, distri_out, me);
      sendCounts, recvCounts := send, recv;
      Interval(distri_in, n, me);
      Interval(distri_out, n, me);
      CountsTotal(distri_in[me], distri_in[me + 1], distri_out, n);
      CountsTotal(distri_out[me], distri_out[me + 1], distri_in, n);
    }
  }

  // ---------------------------------------------------------------- the collective

  function Concat<T>(bufs: seq<seq<T>>): seq<T> {
    if bufs == [] then [] else Concat(bufs[..|bufs| - 1]) + bufs[|bufs| - 1]
  }

  /** Counts of items: non-negative, and within the buffer. */
  ghost predicate FitsIn(counts: seq<int>, size: nat) {
    (forall i :: 0 <= i < |counts| ==> counts[i] >= 0) && Sum(counts) == size
  }

  lemma {:induction false} SumBounds(counts: seq<int>, k: nat)
    requires forall i :: 0 <= i < |counts| ==> counts[i] >= 0
    requires k <= |counts|
    ensures 0 <= Sum(counts[..k]) <= Sum(counts)
  {
    assert counts == counts[..k] + counts[k..];
    SumSplit(counts[..k], counts[k..]);
    SumNonNegative(counts[..k]);
    SumNonNegative(counts[k..]);
  }

  lemma {:induction false} SumNonNegative(counts: seq<int>)
    requires forall i :: 0 <= i < |counts| ==> counts[i] >= 0
    ensures Sum(counts) >= 0
    decreases |counts|
  {
    if counts != [] { SumNonNegative(counts[..|counts| - 1]); }
  }

  /** The part of a send buffer meant for rank `r`. */
  function Chunk<T>(buf: seq<T>, counts: seq<int>, r: nat): (c: seq<T>)
    requires FitsIn(counts, |buf|) && r < |counts|
    ensures |c| == counts[r]
  {
    SumBounds(counts, r);
    SumBounds(counts, r + 1);
    SumStep(counts, r);
    buf[Sum(counts[..r])..Sum(counts[..r + 1])]
  }

  ghost predicate SendOk<T>(bufs: seq<seq<T>>, counts: seq<seq<int>>) {
    && |counts| == |bufs|
    && forall s :: 0 <= s < |bufs| ==> |counts[s]| == |bufs| && FitsIn(counts[s], |bufs[s]|)
  }

  /** What rank `r` receives from the first `k` ranks, in the order of the ranks. */
  function Received<T>(bufs: seq<seq<T>>, counts: seq<seq<int>>, r: nat, k: nat): seq<T>
    requires SendOk(bufs, counts) && r < |bufs| && k <= |bufs|
  {
    if k == 0 then [] else Received(bufs, counts, r, k - 1) + Chunk(bufs[k - 1], counts[k - 1], r)
  }

  /** The receive counts announced by every rank are the send counts of the others. */
  ghost predicate CountsMatch(send: seq<seq<int>>, recv: seq<seq<int>>) {
    && |send| == |recv|
    && (forall r :: 0 <= r < |recv| ==> |recv[r]| == |send| && |send[r]| == |send|)
    && forall r, s :: 0 <= r < |recv| && 0 <= s < |send| ==> recv[r][s] == send[s][r]
  }

  lemma {:induction false} ReceivedSize<T>(bufs: seq<seq<T>>, send: seq<seq<int>>, recv: seq<seq<int>>, r: nat, k: nat)
    requires SendOk(bufs, send) && CountsMatch(send, recv) && r < |bufs| && k <= |bufs|
    ensures |Received(bufs, send, r, k)| == Sum(recv[r][..k])
    decreases k
  {
    assert recv[r][..0] == [];
    if k > 0 {
      ReceivedSize(bufs, send, recv, r, k - 1);
      SumStep(recv[r], k - 1);
      SumStep(send[k - 1], r);
      assert recv[r][k - 1] == send[k - 1][r];
    }
  }

  /** MPI_Alltoallv on contiguous buffers: every rank receives its chunks in the order of the senders. */
  method Alltoallv<T>(bufs: seq<seq<T>>, send: seq<seq<int>>, recv: seq<seq<int>>) returns (out: seq<seq<T>>)
    requires SendOk(bufs, send) && CountsMatch(send, recv)
    ensures |out| == |bufs|
    ensures forall r :: 0 <= r < |bufs| ==> out[r] == Received(bufs, send, r, |bufs|) && |out[r]| == Sum(recv[r])
  {
    out := [];
    for r := 0 to |bufs|
      invariant |out| == r
      invariant forall q :: 0 <= q < r ==> out[q] == Received(bufs, send, q, |bufs|) && |out[q]| == Sum(recv[q])
    {
      var got := [];
      for s := 0 to |bufs|
        invariant got == Received(bufs, send, r, s)
      {
        got := got + Chunk(bufs[s], send[s], r);
      }
      ReceivedSize(bufs, send, recv, r, |bufs|);
      assert recv[r][..|bufs|] == recv[r];
      out := out + [got];
    }
  }

  // ---------------------------------------------------------------- meaning of an exchange

  /** Entity `x` starts at item `w(x)`: the items of a distributed array may be wider than one per entity. */
  ghost predicate IsLayout(w: int -> int, n: nat) {
    w(0) == 0 && forall x, y {:trigger Ordered(w, x, y)} :: 0 <= x <= y <= n ==> Ordered(w, x, y)
  }

  ghost predicate Ordered(w: int -> int, x: int, y: int) {
    w(x) <= w(y)
  }

  lemma {:induction false} LayoutOrder(w: int -> int, n: nat, x: int, y: int)
    requires IsLayout(w, n) && 0 <= x <= y <= n
    ensures 0 <= w(x) <= w(y) <= w(n)
  {
    assert Ordered(w, 0, x) && Ordered(w, x, y) && Ordered(w, y, n);
  }

  lemma {:induction false} SliceOfSlice<T>(g: seq<T>, p: int, q: int, u: int, v: int)
    requires 0 <= p <= u <= v <= q <= |g|
    ensures g[p..q][u - p..v - p] == g[u..v]
  {
    var l := g[p..q][u - p..v - p];
    forall i | 0 <= i < v - u ensures l[i] == g[u..v][i] { assert l[i] == g[p..q][u - p + i] == g[u + i]; }
    assert |l| == v - u;
  }

  /** Every rank holds the items of its entities, in order. */
  ghost predicate Distributed<T>(bufs: seq<seq<T>>, d: seq<int>, n: nat, w: int -> int, g: seq<T>) {
    && IsDistribution(d, n) && IsLayout(w, n) && |g| == w(n) && |bufs| == |d| - 1
    && forall s: nat {:trigger bufs[s]} :: s < |bufs| ==> SliceOf(bufs[s], g, w(d[s]), w(d[s + 1]))
  }

  ghost predicate SliceOf<T>(buf: seq<T>, g: seq<T>, a: int, b: int) {
    0 <= a <= b <= |g| && buf == g[a..b]
  }

  /** The items that a rank owning [a, b) has in each interval of a distribution. */
  ghost function CutItems(a: int, b: int, d: seq<int>, w: int -> int): (c: seq<int>)
    requires |d| >= 2
    ensures |c| == |d| - 1
  {
    seq(|d| - 1, i requires 0 <= i < |d| - 1 => w(Clamp(d[i + 1], a, b)) - w(Clamp(d[i], a, b)))
  }

  lemma {:induction false} ClampBounds(x: int, lo: int, hi: int)
    requires lo <= hi
    ensures lo <= Clamp(x, lo, hi) <= hi
    ensures x <= lo ==> Clamp(x, lo, hi) == lo
    ensures x >= hi ==> Clamp(x, lo, hi) == hi
    ensures lo <= x <= hi ==> Clamp(x, lo, hi) == x
  {
  }

  lemma {:induction false} ClampMonotone(x: int, y: int, lo: int, hi: int)
    requires lo <= hi && x <= y
    ensures Clamp(x, lo, hi) <= Clamp(y, lo, hi)
  {
  }

  lemma {:induction false} CutItemsPrefix(a: int, b: int, d: seq<int>, n: nat, w: int -> int, k: nat)
    requires IsDistribution(d, n) && 0 <= a <= b <= n && k < |d|
    ensures Sum(CutItems(a, b, d, w)[..k]) == w(Clamp(d[k], a, b)) - w(a)
    decreases k
  {
    if k == 0 {
      ClampBounds(d[0], a, b);
    } else {
      CutItemsPrefix(a, b, d, n, w, k - 1);
      SumStep(CutItems(a, b, d, w), k - 1);
    }
  }

  lemma {:induction false} CutIsOrdered(a: int, b: int, c: int, d: int, n: nat, w: int -> int)
    requires IsLayout(w, n) && 0 <= a <= b <= n && c <= d
    ensures w(Clamp(c, a, b)) <= w(Clamp(d, a, b))
  {
    ClampBounds(c, a, b);
    ClampBounds(d, a, b);
    ClampMonotone(c, d, a, b);
    LayoutOrder(w, n, Clamp(c, a, b), Clamp(d, a, b));
  }

  lemma {:induction false} CutIsCount(a: int, b: int, d: seq<int>, n: nat, w: int -> int, i: nat)
    requires IsDistribution(d, n) && 0 <= a <= b <= n && IsLayout(w, n) && i + 1 < |d|
    ensures CutItems(a, b, d, w)[i] >= 0
  {
    Interval(d, n, i);
    CutIsOrdered(a, b, d[i], d[i + 1], n, w);
  }

  lemma {:induction false} CutItemsFit(a: int, b: int, d: seq<int>, n: nat, w: int -> int)
    requires IsDistribution(d, n) && 0 <= a <= b <= n && IsLayout(w, n)
    ensures w(a) <= w(b) && FitsIn(CutItems(a, b, d, w), w(b) - w(a))
  {
    var c := CutItems(a, b, d, w);
    forall i: nat | i < |c| ensures c[i] >= 0 { CutIsCount(a, b, d, n, w, i); }
    CutItemsPrefix(a, b, d, n, w, |d| - 1);
    assert c[..|d| - 1] == c;
    ClampBounds(n, a, b);
    LayoutOrder(w, n, a, b);
  }

  /** The chunk sent by the owner of [a, b) to interval `r` holds the items of their overlap. */
  lemma {:induction false} ChunkIsOverlap<T>(g: seq<T>, a: int, b: int, d: seq<int>, n: nat, w: int -> int, r: nat)
    requires IsDistribution(d, n) && 0 <= a <= b <= n && IsLayout(w, n) && |g| == w(n) && r + 1 < |d|
    ensures var lo, hi := Clamp(d[r], a, b), Clamp(d[r + 1], a, b);
            && 0 <= w(a) <= w(b) <= |g|
            && FitsIn(CutItems(a, b, d, w), w(b) - w(a))
            && SliceOf(Chunk(g[w(a)..w(b)], CutItems(a, b, d, w), r), g, w(lo), w(hi))
  {
    var lo, hi := Clamp(d[r], a, b), Clamp(d[r + 1], a, b);
    Interval(d, n, r);
    ClampBounds(d[r], a, b);
    ClampBounds(d[r + 1], a, b);
    ClampMonotone(d[r], d[r + 1], a, b);
    CutItemsFit(a, b, d, n, w);
    CutItemsPrefix(a, b, d, n, w, r);
    CutItemsPrefix(a, b, d, n, w, r + 1);
    LayoutOrder(w, n, a, lo);
    LayoutOrder(w, n, lo, hi);
    LayoutOrder(w, n, hi, b);
    ChunkAt(g, w(a), w(b), CutItems(a, b, d, w), r, w(lo), w(hi));
  }

  lemma {:induction false} ChunkAt<T>(g: seq<T>, p: int, q: int, counts: seq<int>, r: nat, u: int, v: int)
    requires 0 <= p <= u <= v <= q <= |g| && r < |counts|
    requires FitsIn(counts, q - p)
    requires Sum(counts[..r]) == u - p && Sum(counts[..r + 1]) == v - p
    ensures Chunk(g[p..q], counts, r) == g[u..v]
  {
    SliceOfSlice(g, p, q, u, v);
  }

  lemma {:induction false} SliceGrows<T>(g: seq<T>, got: seq<T>, chunk: seq<T>, a: int, m: int, lo: int, hi: int, e: int)
    requires SliceOf(got, g, a, m) && SliceOf(chunk, g, lo, hi)
    requires (lo == m && hi == e) || (lo == hi && m == e)
    ensures SliceOf(got + chunk, g, a, e)
  {
  }

  lemma {:induction false} ChunkOfRank<T>(g: seq<T>, bufs: seq<seq<T>>, counts: seq<seq<int>>, din: seq<int>, dout: seq<int>,
                                          n: nat, w: int -> int, r: nat, s: nat)
    requires Distributed(bufs, din, n, w, g)
    requires IsDistribution(dout, n) && |dout| == |din| && r < |bufs| && s < |bufs|
    requires SendOk(bufs, counts) && counts[s] == CutItems(din[s], din[s + 1], dout, w)
    ensures SliceOf(Chunk(bufs[s], counts[s], r), g, w(Clamp(dout[r], din[s], din[s + 1])), w(Clamp(dout[r + 1], din[s], din[s + 1])))
  {
    Interval(din, n, s);
    assert SliceOf(bufs[s], g, w(din[s]), w(din[s + 1]));
    ChunkIsOverlap(g, din[s], din[s + 1], dout, n, w, r);
  }

  /** The chunks received from the first `k` ranks make up the beginning of the slice of rank `r`. */
  lemma {:induction false} ReceivedIsPrefix<T>(g: seq<T>, bufs: seq<seq<T>>, counts: seq<seq<int>>, din: seq<int>, dout: seq<int>,
                                               n: nat, w: int -> int, r: nat, k: nat)
    requires Distributed(bufs, din, n, w, g)
    requires IsDistribution(dout, n) && |dout| == |din| && r < |bufs| && k <= |bufs|
    requires SendOk(bufs, counts)
    requires forall s: nat :: s < |bufs| ==> counts[s] == CutItems(din[s], din[s + 1], dout, w)
    ensures SliceOf(Received(bufs, counts, r, k), g, w(dout[r]), w(Clamp(din[k], dout[r], dout[r + 1])))
    decreases k
  {
    var a, b := dout[r], dout[r + 1];
    Interval(dout, n, r);
    if k == 0 {
      ClampBounds(din[0], a, b);
      LayoutOrder(w, n, a, b);
    } else {
      ReceivedIsPrefix(g, bufs, counts, din, dout, n, w, r, k - 1);
      ChunkOfRank(g, bufs, counts, din, dout, n, w, r, k - 1);
      Interval(din, n, k - 1);
      SliceStep(g, Received(bufs, counts, r, k - 1), Chunk(bufs[k - 1], counts[k - 1], r), w, a, b, din[k - 1], din[k]);
    }
  }

  lemma {:induction false} SliceStep<T>(g: seq<T>, got: seq<T>, chunk: seq<T>, w: int -> int, a: int, b: int, p: int, q: int)
    requires a <= b && p <= q && SliceOf(got, g, w(a), w(Clamp(p, a, b)))
    requires SliceOf(chunk, g, w(Clamp(a, p, q)), w(Clamp(b, p, q)))
    ensures SliceOf(got + chunk, g, w(a), w(Clamp(q, a, b)))
  {
    CutsMeet(p, q, a, b);
    SliceGrows(g, got, chunk, w(a), w(Clamp(p, a, b)), w(Clamp(a, p, q)), w(Clamp(b, p, q)), w(Clamp(q, a, b)));
  }

  lemma {:induction false} CutsMeet(a: int, b: int, c: int, d: int)
    requires a <= b && c <= d
    ensures || (Clamp(c, a, b) == Clamp(a, c, d) && Clamp(d, a, b) == Clamp(b, c, d))
            || (Clamp(c, a, b) == Clamp(d, a, b) && Clamp(a, c, d) == Clamp(b, c, d))
  {
  }

  /** An exchange cut by the overlaps moves the cut points and nothing else. */
  lemma {:induction false} ExchangeMovesCuts<T>(g: seq<T>, bufs: seq<seq<T>>, counts: seq<seq<int>>, out: seq<seq<T>>,
                                                din: seq<int>, dout: seq<int>, n: nat, w: int -> int)
    requires Distributed(bufs, din, n, w, g)
    requires IsDistribution(dout, n) && |dout| == |din|
    requires SendOk(bufs, counts)
    requires forall s: nat :: s < |bufs| ==> counts[s] == CutItems(din[s], din[s + 1], dout, w)
    requires |out| == |bufs| && forall r: nat :: r < |bufs| ==> out[r] == Received(bufs, counts, r, |bufs|)
    ensures Distributed(out, dout, n, w, g)
  {
    forall r: nat | r < |out| ensures SliceOf(out[r], g, w(dout[r]), w(dout[r + 1])) {
      ReceivedIsPrefix(g, bufs, counts, din, dout, n, w, r, |bufs|);
      Interval(dout, n, r);
      ClampBounds(n, dout[r], dout[r + 1]);
    }
  }

  /** The pieces of a distributed array, put together, are the array. */
  lemma {:induction false} DistributedConcat<T>(bufs: seq<seq<T>>, d: seq<int>, n: nat, w: int -> int, g: seq<T>, k: nat)
    requires Distributed(bufs, d, n, w, g) && k <= |bufs|
    ensures 0 <= w(d[k]) <= |g| && Concat(bufs[..k]) == g[..w(d[k])]
    decreases k
  {
    CutPoint(d, n, k);
    LayoutOrder(w, n, d[k], n);
    if k > 0 {
      DistributedConcat(bufs, d, n, w, g, k - 1);
      assert bufs[..k][..k - 1] == bufs[..k - 1];
      assert SliceOf(bufs[k - 1], g, w(d[k - 1]), w(d[k]));
    }
  }

  lemma {:induction false} DistributedWhole<T>(bufs: seq<seq<T>>, d: seq<int>, n: nat, w: int -> int, g: seq<T>)
    requires Distributed(bufs, d, n, w, g)
    ensures Concat(bufs) == g
  {
    DistributedConcat(bufs, d, n, w, g, |bufs|);
    assert bufs[..|bufs|] == bufs && g[..|g|] == g;
  }

  /** Pieces of the right sizes are a distribution of their concatenation. */
  lemma {:induction false} PiecesAreDistributed<T>(bufs: seq<seq<T>>, d: seq<int>, n: nat, w: int -> int)
    requires IsDistribution(d, n) && IsLayout(w, n) && |bufs| == |d| - 1
    requires forall s: nat :: s < |bufs| ==> |bufs[s]| == w(d[s + 1]) - w(d[s])
    ensures Distributed(bufs, d, n, w, Concat(bufs))
  {
    ConcatSize(bufs, d, w, |bufs|);
    assert bufs[..|bufs|] == bufs;
    forall s: nat | s < |bufs| ensures SliceOf(bufs[s], Concat(bufs), w(d[s]), w(d[s + 1])) {
      ConcatAt(bufs, d, w, s, |bufs|);
      Interval(d, n, s);
      LayoutOrder(w, n, d[s], d[s + 1]);
    }
  }

  lemma {:induction false} ConcatSize<T>(bufs: seq<seq<T>>, d: seq<int>, w: int -> int, k: nat)
    requires |bufs| == |d| - 1 && k <= |bufs| && w(d[0]) == 0
    requires forall s: nat :: s < |bufs| ==> |bufs[s]| == w(d[s + 1]) - w(d[s])
    ensures |Concat(bufs[..k])| == w(d[k])
    decreases k
  {
    if k > 0 {
      ConcatSize(bufs, d, w, k - 1);
      assert bufs[..k][..k - 1] == bufs[..k - 1];
    }
  }

  lemma {:induction false} ConcatAt<T>(bufs: seq<seq<T>>, d: seq<int>, w: int -> int, s: nat, k: nat)
    requires |bufs| == |d| - 1 && s < k <= |bufs| && w(d[0]) == 0
    requires forall s: nat :: s < |bufs| ==> |bufs[s]| == w(d[s + 1]) - w(d[s])
    ensures 0 <= w(d[s]) <= w(d[s + 1]) <= |Concat(bufs[..k])|
    ensures Concat(bufs[..k])[w(d[s])..w(d[s + 1])] == bufs[s]
    decreases k
  {
    ConcatSize(bufs, d, w, k);
    ConcatSize(bufs, d, w, k - 1);
    assert bufs[..k][..k - 1] == bufs[..k - 1];
    assert Concat(bufs[..k]) == Concat(bufs[..k - 1]) + bufs[k - 1];
    if s < k - 1 {
      ConcatAt(bufs, d, w, s, k - 1);
      TakeFromFirst(Concat(bufs[..k - 1]), bufs[k - 1], w(d[s]), w(d[s + 1]));
    } else {
      TakeSecond(Concat(bufs[..k - 1]), bufs[k - 1], w(d[s]), w(d[k]));
    }
  }

  lemma {:induction false} TakeFromFirst<T>(a: seq<T>, b: seq<T>, x: int, y: int)
    requires 0 <= x <= y <= |a|
    ensures (a + b)[x..y] == a[x..y]
  {
  }

  lemma {:induction false} TakeSecond<T>(a: seq<T>, b: seq<T>, x: int, y: int)
    requires x == |a| && y == |a| + |b|
    ensures (a + b)[x..y] == b
  {
  }

  // ---------------------------------------------------------------- exchange with constant stride

  /** One exchange object per rank, all built for the same two distributions. */
  ghost predicate Team(ranks: seq<BlockToBlock>, n: nat, din: seq<int>, dout: seq<int>)
    reads ranks
    reads set r | r in ranks :: r.sendCounts
    reads set r | r in ranks :: r.recvCounts
  {
    && IsDistribution(din, n) && IsDistribution(dout, n) && |din| == |dout| && |ranks| == |din| - 1
    && forall r: nat {:trigger Member(ranks[r], r, din, dout)} :: r < |ranks| ==> Member(ranks[r], r, din, dout)
  }

  ghost predicate Member(b: BlockToBlock, r: nat, din: seq<int>, dout: seq<int>)
    reads b, b.sendCounts, b.recvCounts
  {
    b.rank == r && b.distriIn == din && b.distriOut == dout && b.Valid()
  }

  function Scaled(counts: seq<int>, stride: int): seq<int> {
    seq(|counts|, i requires 0 <= i < |counts| => stride * counts[i])
  }

  ghost function ConstantLayout(stride: int): int -> int {
    (x: int) => stride * x
  }

  lemma {:induction false} ConstantIsLayout(stride: nat, n: nat)
    ensures IsLayout(ConstantLayout(stride), n)
  {
    forall x, y | 0 <= x <= y <= n ensures Ordered(ConstantLayout(stride), x, y) {
      assert stride * (y - x) >= 0 && stride * (y - x) == stride * y - stride * x;
    }
  }

  lemma {:induction false} ScaledIsCut(a: int, b: int, d: seq<int>, n: nat, stride: int)
    requires IsDistribution(d, n) && a <= b
    ensures Scaled(Counts(a, b, d), stride) == CutItems(a, b, d, ConstantLayout(stride))
  {
    var l, r := Scaled(Counts(a, b, d), stride), CutItems(a, b, d, ConstantLayout(stride));
    forall i | 0 <= i < |l| ensures l[i] == r[i] {
      Interval(d, n, i);
      ScaledOverlap(a, b, d[i], d[i + 1], stride);
    }
  }

  lemma {:induction false} ScaledOverlap(a: int, b: int, c: int, d: int, stride: int)
    requires a <= b && c <= d
    ensures stride * Overlap(a, b, c, d) == stride * Clamp(d, a, b) - stride * Clamp(c, a, b)
  {
    OverlapCut(a, b, c, d);
    MulSub(stride, Clamp(d, a, b), Clamp(c, a, b));
  }

  /** What rank `r` expects from `s` is what `s` sends to `r`. */
  lemma {:induction false} ExpectedIsSent(din: seq<int>, dout: seq<int>, r: nat, s: nat)
    requires |din| == |dout| && r + 1 < |din| && s + 1 < |din|
    ensures Counts(dout[r], dout[r + 1], din)[s] == Counts(din[s], din[s + 1], dout)[r]
  {
    OverlapSymmetric(dout[r], dout[r + 1], din[s], din[s + 1]);
  }

  lemma {:induction false} CutItemsSend<T>(bufs: seq<seq<T>>, counts: seq<seq<int>>, din: seq<int>, dout: seq<int>, n: nat,
                                           w: int -> int, g: seq<T>)
    requires Distributed(bufs, din, n, w, g)
    requires IsDistribution(dout, n) && |din| == |dout| && |counts| == |bufs|
    requires forall s: nat :: s < |bufs| ==> counts[s] == CutItems(din[s], din[s + 1], dout, w)
    ensures SendOk(bufs, counts)
  {
    forall s | 0 <= s < |bufs| ensures |counts[s]| == |bufs| && FitsIn(counts[s], |bufs[s]|) {
      assert SliceOf(bufs[s], g, w(din[s]), w(din[s + 1]));
      Interval(din, n, s);
      CutItemsFit(din[s], din[s + 1], dout, n, w);
    }
  }

  /** With any layout, the items expected are the items sent. */
  lemma {:induction false} CutsMatch(send: seq<seq<int>>, recv: seq<seq<int>>, din: seq<int>, dout: seq<int>, n: nat, w: int -> int)
    requires IsDistribution(din, n) && IsDistribution(dout, n) && |din| == |dout|
    requires |send| == |recv| == |din| - 1
    requires forall r: nat :: r < |send| ==> send[r] == CutItems(din[r], din[r + 1], dout, w)
    requires forall r: nat :: r < |recv| ==> recv[r] == CutItems(dout[r], dout[r + 1], din, w)
    ensures CountsMatch(send, recv)
  {
    forall r | 0 <= r < |recv| ensures |recv[r]| == |send| && |send[r]| == |send| {
      assert send[r] == CutItems(din[r], din[r + 1], dout, w);
      assert recv[r] == CutItems(dout[r], dout[r + 1], din, w);
    }
    forall r: nat, s: nat | r < |recv| && s < |send| ensures recv[r][s] == send[s][r] {
      assert recv[r] == CutItems(dout[r], dout[r + 1], din, w);
      assert send[s] == CutItems(din[s], din[s + 1], dout, w);
      CutsAgree(din, dout, n, w, r, s);
    }
  }

  lemma {:induction false} CutsAgree(din: seq<int>, dout: seq<int>, n: nat, w: int -> int, r: nat, s: nat)
    requires IsDistribution(din, n) && IsDistribution(dout, n) && |din| == |dout| && r + 1 < |din| && s + 1 < |din|
    ensures CutItems(dout[r], dout[r + 1], din, w)[s] == CutItems(din[s], din[s + 1], dout, w)[r]
  {
    Interval(din, n, s);
    Interval(dout, n, r);
    CutsMeet(din[s], din[s + 1], dout[r], dout[r + 1]);
  }

  /** The items that every rank of one distribution has in every interval of the other. */
  ghost function AllCuts(d: seq<int>, other: seq<int>, w: int -> int): (c: seq<seq<int>>)
    requires |d| == |other| >= 2
    ensures |c| == |d| - 1 && forall r: nat {:trigger c[r]} :: r < |c| ==> c[r] == CutItems(d[r], d[r + 1], other, w)
  {
    seq(|d| - 1, r requires 0 <= r < |d| - 1 => CutItems(d[r], d[r + 1], other, w))
  }

  /** The collective call, with the item counts of all ranks. */
  method MoveItems<T>(data: seq<seq<T>>, send: seq<seq<int>>, recv: seq<seq<int>>, ghost n: nat, ghost din: seq<int>,
                      ghost dout: seq<int>, ghost w: int -> int, ghost g: seq<T>) returns (out: seq<seq<T>>)
    requires Distributed(data, din, n, w, g)
    requires IsDistribution(dout, n) && |din| == |dout|
    requires send == AllCuts(din, dout, w) && recv == AllCuts(dout, din, w)
    ensures Distributed(out, dout, n, w, g)
  {
    CutItemsSend(data, send, din, dout, n, w, g);
    CutsMatch(send, recv, din, dout, n, w);
    out := Alltoallv(data, send, recv);
    ExchangeMovesCuts(g, data, send, out, din, dout, n, w);
  }

  ghost function AllCounts(din: seq<int>, dout: seq<int>): (c: seq<seq<int>>)
    requires |din| == |dout| >= 2
    ensures |c| == |din| - 1 && forall q: nat {:trigger c[q]} :: q < |c| ==> c[q] == Counts(din[q], din[q + 1], dout)
  {
    seq(|din| - 1, q requires 0 <= q < |din| - 1 => Counts(din[q], din[q + 1], dout))
  }

  /** The counts held by all ranks. */
  method ReadCounts(ranks: seq<BlockToBlock>, ghost n: nat, ghost din: seq<int>, ghost dout: seq<int>)
    returns (send: seq<seq<int>>, recv: seq<seq<int>>)
    requires Team(ranks, n, din, dout)
    ensures send == AllCounts(din, dout) && recv == AllCounts(dout, din)
  {
    send, recv := [], [];
    ghost var sends, recvs := AllCounts(din, dout), AllCounts(dout, din);
    for r := 0 to |ranks|
      invariant |send| == |recv| == r
      invariant forall q: nat {:trigger send[q]} :: q < r ==> send[q] == sends[q]
      invariant forall q: nat {:trigger recv[q]} :: q < r ==> recv[q] == recvs[q]
    {
      assert Member(ranks[r], r, din, dout);
      assert sends[r] == ranks[r].sendCounts[..] && recvs[r] == ranks[r].recvCounts[..];
      send, recv := send + [ranks[r].sendCounts[..]], recv + [ranks[r].recvCounts[..]];
    }
  }

  function ScaledAll(counts: seq<seq<int>>, stride: int): (r: seq<seq<int>>)
    ensures |r| == |counts| && forall q: nat :: q < |r| ==> r[q] == Scaled(counts[q], stride)
  {
    seq(|counts|, q requires 0 <= q < |counts| => Scaled(counts[q], stride))
  }

  lemma {:induction false} ScaledAreCuts(d: seq<int>, other: seq<int>, n: nat, stride: int)
    requires IsDistribution(d, n) && IsDistribution(other, n) && |d| == |other|
    ensures ScaledAll(AllCounts(d, other), stride) == AllCuts(d, other, ConstantLayout(stride))
  {
    forall r: nat | r < |d| - 1 ensures ScaledAll(AllCounts(d, other), stride)[r] == AllCuts(d, other, ConstantLayout(stride))[r] {
      Interval(d, n, r);
      ScaledIsCut(d[r], d[r + 1], other, n, stride);
    }
  }

  lemma {:induction false} CountsAreCuts(d: seq<int>, other: seq<int>, n: nat)
    requires IsDistribution(d, n) && IsDistribution(other, n) && |d| == |other|
    ensures AllCounts(d, other) == AllCuts(d, other, Identity())
  {
    forall r: nat | r < |d| - 1 ensures AllCounts(d, other)[r] == AllCuts(d, other, Identity())[r] {
      Interval(d, n, r);
      CountsAreIdentityCuts(d[r], d[r + 1], other, n);
    }
  }

  lemma {:induction false} ConstantPieces<T>(data: seq<seq<T>>, stride: nat, n: nat, din: seq<int>)
    requires IsDistribution(din, n) && |data| == |din| - 1
    requires forall r: nat :: r < |data| ==> |data[r]| == stride * (din[r + 1] - din[r])
    ensures Distributed(data, din, n, ConstantLayout(stride), Concat(data))
  {
    var w := ConstantLayout(stride);
    ConstantIsLayout(stride, n);
    forall s: nat | s < |data| ensures |data[s]| == w(din[s + 1]) - w(din[s]) {
      MulSub(stride, din[s + 1], din[s]);
    }
    PiecesAreDistributed(data, din, n, w);
  }

  /** Every rank scales its counts by the stride, and the items move in one collective call. */
  method ExchangeConstant<T>(ranks: seq<BlockToBlock>, data: seq<seq<T>>, stride: nat, ghost n: nat, ghost din: seq<int>,
                             ghost dout: seq<int>) returns (out: seq<seq<T>>)
    requires Team(ranks, n, din, dout)
    requires |data| == |ranks| && forall r: nat :: r < |data| ==> |data[r]| == stride * (din[r + 1] - din[r])
    ensures Distributed(data, din, n, ConstantLayout(stride), Concat(data))
    ensures Distributed(out, dout, n, ConstantLayout(stride), Concat(data))
  {
    var send, recv := ReadCounts(ranks, n, din, dout);
    send, recv := ScaledAll(send, stride), ScaledAll(recv, stride);
    ghost var w := ConstantLayout(stride);
    ConstantPieces(data, stride, n, din);
    ScaledAreCuts(din, dout, n, stride);
    ScaledAreCuts(dout, din, n, stride);
    out := MoveItems(data, send, recv, n, din, dout, w, Concat(data));
  }

  // ---------------------------------------------------------------- exchange with variable stride

  /** The items of consecutive portions of a stride array. */
  function Portions(stride: seq<int>, counts: seq<int>): (p: seq<int>)
    requires FitsIn(counts, |stride|)
    ensures |p| == |counts|
  {
    seq(|counts|, i requires 0 <= i < |counts| => Sum(Chunk(stride, counts, i)))
  }

  /** Count the items to move towards or from every rank, with a cursor in the stride array. */
  method SumPortions(stride: seq<int>, counts: seq<int>) returns (p: seq<int>)
    requires FitsIn(counts, |stride|)
    ensures p == Portions(stride, counts)
  {
    p := [];
    var idx := 0;
    for i := 0 to |counts|
      invariant |p| == i && idx == Sum(counts[..i])
      invariant forall k :: 0 <= k < i ==> p[k] == Portions(stride, counts)[k]
    {
      SumStep(counts, i);
      SumBounds(counts, i);
      SumBounds(counts, i + 1);
      p := p + [Sum(stride[idx..idx + counts[i]])];
      idx := idx + counts[i];
    }
  }

  ghost function StrideLayout(strides: seq<int>): int -> int {
    (x: int) => if 0 <= x <= |strides| then Sum(strides[..x]) else 0
  }

  ghost predicate NonNegative(s: seq<int>) {
    forall i :: 0 <= i < |s| ==> s[i] >= 0
  }

  lemma {:induction false} StrideIsLayout(strides: seq<int>)
    requires NonNegative(strides)
    ensures IsLayout(StrideLayout(strides), |strides|)
  {
    assert strides[..0] == [];
    forall x, y | 0 <= x <= y <= |strides| ensures Ordered(StrideLayout(strides), x, y) {
      SumBounds(strides[..y], x);
      assert strides[..y][..x] == strides[..x];
    }
  }

  /** The sum of a slice of the stride array is the width of its entities. */
  lemma {:induction false} SliceSum(strides: seq<int>, x: int, y: int)
    requires 0 <= x <= y <= |strides|
    ensures Sum(strides[x..y]) == StrideLayout(strides)(y) - StrideLayout(strides)(x)
  {
    SumSplit(strides[..x], strides[x..y]);
    assert strides[..x] + strides[x..y] == strides[..y];
  }

  ghost function Identity(): int -> int {
    (x: int) => x
  }

  /** Portions cut by entity counts are item counts. */
  lemma {:induction false} PortionsAreCuts(strides: seq<int>, a: int, b: int, d: seq<int>)
    requires NonNegative(strides) && IsDistribution(d, |strides|) && 0 <= a <= b <= |strides|
    ensures FitsIn(Counts(a, b, d), b - a)
    ensures Portions(strides[a..b], Counts(a, b, d)) == CutItems(a, b, d, StrideLayout(strides))
  {
    var n, c := |strides|, Counts(a, b, d);
    CountsAreIdentityCuts(a, b, d, n);
    IdentityIsLayout(n);
    CutItemsFit(a, b, d, n, Identity());
    var p, q := Portions(strides[a..b], c), CutItems(a, b, d, StrideLayout(strides));
    forall i | 0 <= i < |p| ensures p[i] == q[i] {
      PortionAt(strides, a, b, d, i);
    }
  }

  lemma {:induction false} PortionAt(strides: seq<int>, a: int, b: int, d: seq<int>, i: nat)
    requires IsDistribution(d, |strides|) && 0 <= a <= b <= |strides| && i + 1 < |d|
    requires FitsIn(CutItems(a, b, d, Identity()), b - a)
    ensures Sum(Chunk(strides[a..b], CutItems(a, b, d, Identity()), i)) == CutItems(a, b, d, StrideLayout(strides))[i]
  {
    IdentityIsLayout(|strides|);
    ChunkIsOverlap(strides, a, b, d, |strides|, Identity(), i);
    Interval(d, |strides|, i);
    ClampBounds(d[i], a, b);
    ClampBounds(d[i + 1], a, b);
    ClampMonotone(d[i], d[i + 1], a, b);
    SliceSum(strides, Clamp(d[i], a, b), Clamp(d[i + 1], a, b));
  }

  lemma {:induction false} IdentityIsLayout(n: nat)
    ensures IsLayout(Identity(), n)
  {
    forall x, y | 0 <= x <= y <= n ensures Ordered(Identity(), x, y) {}
  }

  lemma {:induction false} CountsAreIdentityCuts(a: int, b: int, d: seq<int>, n: nat)
    requires IsDistribution(d, n) && a <= b
    ensures Counts(a, b, d) == CutItems(a, b, d, Identity())
  {
    forall i | 0 <= i < |d| - 1 ensures Counts(a, b, d)[i] == CutItems(a, b, d, Identity())[i] {
      Interval(d, n, i);
      OverlapCut(a, b, d[i], d[i + 1]);
    }
  }

  lemma {:induction false} HeldPortions(held: seq<seq<int>>, counts: seq<seq<int>>, strides: seq<int>, d: seq<int>, other: seq<int>, r: nat)
    requires NonNegative(strides) && IsDistribution(other, |strides|) && r < |held|
    requires Distributed(held, d, |strides|, Identity(), strides) && |d| == |other|
    requires counts == AllCounts(d, other)
    ensures FitsIn(counts[r], |held[r]|)
    ensures Portions(held[r], counts[r]) == AllCuts(d, other, StrideLayout(strides))[r]
  {
    assert SliceOf(held[r], strides, d[r], d[r + 1]);
    PortionsAreCuts(strides, d[r], d[r + 1], other);
  }

  /** The counts of every rank cover the strides it holds. */
  ghost predicate AllFit(counts: seq<seq<int>>, held: seq<seq<int>>) {
    |counts| == |held| && forall r: nat {:trigger FitsAt(counts, held, r)} :: r < |held| ==> FitsAt(counts, held, r)
  }

  ghost predicate FitsAt(counts: seq<seq<int>>, held: seq<seq<int>>, r: nat)
    requires r < |counts| && r < |held|
  {
    FitsIn(counts[r], |held[r]|)
  }

  lemma {:induction false} HeldFit(held: seq<seq<int>>, counts: seq<seq<int>>, strides: seq<int>, d: seq<int>, other: seq<int>)
    requires NonNegative(strides) && IsDistribution(other, |strides|)
    requires Distributed(held, d, |strides|, Identity(), strides) && |d| == |other|
    requires counts == AllCounts(d, other)
    ensures AllFit(counts, held)
  {
    forall r: nat | r < |held| ensures FitsAt(counts, held, r) { HeldPortions(held, counts, strides, d, other, r); }
  }

  /** The item counts of all ranks, from the portions of the strides each of them holds. */
  method PortionCounts(held: seq<seq<int>>, counts: seq<seq<int>>) returns (items: seq<seq<int>>)
    requires AllFit(counts, held)
    ensures |items| == |held| && forall r: nat {:trigger items[r]} :: r < |held| ==> FitsAt(counts, held, r) && items[r] == Portions(held[r], counts[r])
  {
    items := [];
    for r := 0 to |held|
      invariant |items| == r && forall q: nat {:trigger items[q]} :: q < r ==> FitsAt(counts, held, q) && items[q] == Portions(held[q], counts[q])
    {
      assert FitsAt(counts, held, r);
      var p := SumPortions(held[r], counts[r]);
      items := items + [p];
    }
  }

  /** These item counts are those of the overlaps. */
  lemma {:induction false} PortionsMatch(items: seq<seq<int>>, held: seq<seq<int>>, counts: seq<seq<int>>, strides: seq<int>, d: seq<int>, other: seq<int>)
    requires NonNegative(strides) && IsDistribution(other, |strides|)
    requires Distributed(held, d, |strides|, Identity(), strides) && |d| == |other|
    requires counts == AllCounts(d, other) && AllFit(counts, held)
    requires |items| == |held| && forall r: nat {:trigger items[r]} :: r < |held| ==> FitsAt(counts, held, r) && items[r] == Portions(held[r], counts[r])
    ensures items == AllCuts(d, other, StrideLayout(strides))
  {
    var cuts := AllCuts(d, other, StrideLayout(strides));
    forall r: nat | r < |items| ensures items[r] == cuts[r] { HeldPortions(held, counts, strides, d, other, r); }
  }

  ghost predicate AllNonNegative(strides: seq<seq<int>>) {
    forall r: nat {:trigger strides[r]} :: r < |strides| ==> NonNegative(strides[r])
  }

  lemma {:induction false} ConcatNonNegative(strides: seq<seq<int>>)
    requires AllNonNegative(strides)
    ensures NonNegative(Concat(strides))
    decreases |strides|
  {
    if strides != [] {
      ConcatNonNegative(strides[..|strides| - 1]);
      assert NonNegative(strides[|strides| - 1]);
    }
  }

  lemma {:induction false} StridePieces<T>(data: seq<seq<T>>, strideIn: seq<seq<int>>, strides: seq<int>, din: seq<int>)
    requires NonNegative(strides) && Distributed(strideIn, din, |strides|, Identity(), strides)
    requires |data| == |strideIn| && forall r: nat :: r < |data| ==> |data[r]| == Sum(strideIn[r])
    ensures Distributed(data, din, |strides|, StrideLayout(strides), Concat(data))
  {
    StrideIsLayout(strides);
    forall r: nat | r < |data| ensures |data[r]| == StrideLayout(strides)(din[r + 1]) - StrideLayout(strides)(din[r]) {
      assert SliceOf(strideIn[r], strides, din[r], din[r + 1]);
      SliceSum(strides, din[r], din[r + 1]);
    }
    PiecesAreDistributed(data, din, |strides|, StrideLayout(strides));
  }

  lemma {:induction false} StrideSetup<T>(strideIn: seq<seq<int>>, data: seq<seq<T>>, n: nat, din: seq<int>)
    requires IsDistribution(din, n) && AllNonNegative(strideIn) && |data| == |strideIn| == |din| - 1
    requires forall r: nat :: r < |data| ==> |strideIn[r]| == din[r + 1] - din[r] && |data[r]| == Sum(strideIn[r])
    ensures NonNegative(Concat(strideIn)) && |Concat(strideIn)| == n
    ensures Distributed(strideIn, din, n, Identity(), Concat(strideIn))
    ensures Distributed(data, din, n, StrideLayout(Concat(strideIn)), Concat(data))
  {
    IdentityIsLayout(n);
    PiecesAreDistributed(strideIn, din, n, Identity());
    ConcatNonNegative(strideIn);
    StridePieces(data, strideIn, Concat(strideIn), din);
  }

  /** The strides move first, then the items, counted from the strides each rank now knows. */
  method ExchangeVariable<T>(ranks: seq<BlockToBlock>, strideIn: seq<seq<int>>, data: seq<seq<T>>, ghost n: nat,
                             ghost din: seq<int>, ghost dout: seq<int>)
    returns (strideOut: seq<seq<int>>, out: seq<seq<T>>)
    requires Team(ranks, n, din, dout)
    requires |strideIn| == |data| == |ranks| && AllNonNegative(strideIn)
    requires forall r: nat :: r < |data| ==> |strideIn[r]| == din[r + 1] - din[r] && |data[r]| == Sum(strideIn[r])
    ensures Distributed(strideOut, dout, n, Identity(), Concat(strideIn))
    ensures Distributed(data, din, n, StrideLayout(Concat(strideIn)), Concat(data))
    ensures Distributed(out, dout, n, StrideLayout(Concat(strideIn)), Concat(data))
  {
    StrideSetup(strideIn, data, n, din);
    ghost var strides := Concat(strideIn);
    ghost var w := StrideLayout(strides);
    var send, recv := ReadCounts(ranks, n, din, dout);
    CountsAreCuts(din, dout, n);
    CountsAreCuts(dout, din, n);
    strideOut := MoveItems(strideIn, send, recv, n, din, dout, Identity(), strides);
    HeldFit(strideIn, send, strides, din, dout);
    HeldFit(strideOut, recv, strides, dout, din);
    var sendItems := PortionCounts(strideIn, send);
    var recvItems := PortionCounts(strideOut, recv);
    PortionsMatch(sendItems, strideIn, send, strides, din, dout);
    PortionsMatch(recvItems, strideOut, recv, strides, dout, din);
    out := MoveItems(data, sendItems, recvItems, n, din, dout, w, Concat(data));
  }

  // ---------------------------------------------------------------- what follows

  /** The concatenation over the ranks is unchanged. */
  lemma {:induction false} ExchangeKeepsArray<T>(data: seq<seq<T>>, out: seq<seq<T>>, din: seq<int>, dout: seq<int>, n: nat,
                                                 w: int -> int)
    requires Distributed(data, din, n, w, Concat(data)) && Distributed(out, dout, n, w, Concat(data))
    ensures Concat(out) == Concat(data)
  {
    DistributedWhole(out, dout, n, w, Concat(data));
  }

  /** Two ways of cutting the same array at the same points give the same pieces. */
  lemma {:induction false} SameCutsSamePieces<T>(a: seq<seq<T>>, b: seq<seq<T>>, d: seq<int>, n: nat, w: int -> int, g: seq<T>)
    requires Distributed(a, d, n, w, g) && Distributed(b, d, n, w, g)
    ensures a == b
  {
    forall s: nat | s < |a| ensures a[s] == b[s] {
      assert SliceOf(a[s], g, w(d[s]), w(d[s + 1])) && SliceOf(b[s], g, w(d[s]), w(d[s + 1]));
    }
  }

  /** Going to another distribution and back gives every rank its data again: constant stride. */
  method ThereAndBack<T>(ranks: seq<BlockToBlock>, back: seq<BlockToBlock>, data: seq<seq<T>>, stride: nat, ghost n: nat,
                         ghost din: seq<int>, ghost dout: seq<int>) returns (again: seq<seq<T>>)
    requires Team(ranks, n, din, dout) && Team(back, n, dout, din)
    requires |data| == |ranks| && forall r: nat :: r < |data| ==> |data[r]| == stride * (din[r + 1] - din[r])
    ensures again == data
  {
    var out := ExchangeConstant(ranks, data, stride, n, din, dout);
    ghost var w := ConstantLayout(stride);
    ExchangeKeepsArray(data, out, din, dout, n, w);
    forall r: nat | r < |out| ensures |out[r]| == stride * (dout[r + 1] - dout[r]) {
      assert SliceOf(out[r], Concat(data), w(dout[r]), w(dout[r + 1]));
      MulSub(stride, dout[r + 1], dout[r]);
    }
    again := ExchangeConstant(back, out, stride, n, dout, din);
    SameCutsSamePieces(again, data, din, n, w, Concat(data));
  }

  /** After the way there, what the ranks hold fits the way back. */
  lemma {:induction false} ReadyToReturn<T>(strideOut: seq<seq<int>>, out: seq<seq<T>>, strides: seq<int>, g: seq<T>, dout: seq<int>)
    requires NonNegative(strides) && Distributed(strideOut, dout, |strides|, Identity(), strides)
    requires Distributed(out, dout, |strides|, StrideLayout(strides), g)
    ensures Concat(strideOut) == strides && Concat(out) == g && AllNonNegative(strideOut)
    ensures forall r: nat :: r < |out| ==> |strideOut[r]| == dout[r + 1] - dout[r] && |out[r]| == Sum(strideOut[r])
  {
    DistributedWhole(strideOut, dout, |strides|, Identity(), strides);
    DistributedWhole(out, dout, |strides|, StrideLayout(strides), g);
    forall r: nat | r < |out| ensures |strideOut[r]| == dout[r + 1] - dout[r] && |out[r]| == Sum(strideOut[r]) {
      assert SliceOf(strideOut[r], strides, dout[r], dout[r + 1]);
      assert SliceOf(out[r], g, StrideLayout(strides)(dout[r]), StrideLayout(strides)(dout[r + 1]));
      SliceSum(strides, dout[r], dout[r + 1]);
    }
    forall r: nat | r < |strideOut| ensures NonNegative(strideOut[r]) {
      assert SliceOf(strideOut[r], strides, dout[r], dout[r + 1]);
    }
  }

  /** Going to another distribution and back gives every rank its strides and its data again: variable stride. */
  method ThereAndBackVariable<T>(ranks: seq<BlockToBlock>, back: seq<BlockToBlock>, strideIn: seq<seq<int>>, data: seq<seq<T>>,
                                 ghost n: nat, ghost din: seq<int>, ghost dout: seq<int>)
    returns (strideAgain: seq<seq<int>>, again: seq<seq<T>>)
    requires Team(ranks, n, din, dout) && Team(back, n, dout, din)
    requires |strideIn| == |data| == |ranks| && AllNonNegative(strideIn)
    requires forall r: nat :: r < |data| ==> |strideIn[r]| == din[r + 1] - din[r] && |data[r]| == Sum(strideIn[r])
    ensures strideAgain == strideIn && again == data
  {
    ghost var strides := Concat(strideIn);
    StrideSetup(strideIn, data, n, din);
    var strideOut, out := ExchangeVariable(ranks, strideIn, data, n, din, dout);
    ReadyToReturn(strideOut, out, strides, Concat(data), dout);
    strideAgain, again := ExchangeVariable(back, strideOut, out, n, dout, din);
    SameCutsSamePieces(strideAgain, strideIn, din, n, Identity(), strides);
    SameCutsSamePieces(again, data, din, n, StrideLayout(strides), Concat(data));
  }

  /** When both distributions are equal, the general exchange returns what the copying one returns. */
  lemma {:induction false} SerialAgrees<T>(data: seq<seq<T>>, out: seq<seq<T>>, d: seq<int>, n: nat, w: int -> int)
    requires Distributed(data, d, n, w, Concat(data)) && Distributed(out, d, n, w, Concat(data))
    ensures out == data
  {
    SameCutsSamePieces(out, data, d, n, w, Concat(data));
  }

  // ---------------------------------------------------------------- full and partial distributions

  /** What rank `r` keeps of a full distribution. */
  function Partial(d: seq<int>, r: nat): seq<int>
    requires r + 1 < |d|
  {
    [d[r], d[r + 1], d[|d| - 1]]
  }

  ghost predicate AllTriples(all: seq<seq<int>>) {
    forall r :: 0 <= r < |all| ==> |all[r]| == 3
  }

  /** Cumulated sums of the local sizes gathered from all ranks. */
  function PartialToFull(all: seq<seq<int>>): (d: seq<int>)
    requires AllTriples(all)
    ensures |d| == |all| + 1
  {
    if all == [] then [0]
    else
      var front := PartialToFull(all[..|all| - 1]);
      front + [front[|front| - 1] + all[|all| - 1][1] - all[|all| - 1][0]]
  }

  /** The distribution used by rank `r`, given what every rank passed: all parts, or all full ones. */
  function AutoExpand(all: seq<seq<int>>, r: nat): seq<int>
    requires r < |all| && (|all[r]| == 3 ==> AllTriples(all))
  {
    if |all[r]| == 3 && |all| != 2 then PartialToFull(all)
    else if |all[r]| == 3 && |all| == 2 then all[0]
    else all[r]
  }

  lemma {:induction false} PartialToFullPrefix(d: seq<int>, n: nat, all: seq<seq<int>>, k: nat)
    requires IsDistribution(d, n) && |all| == |d| - 1 && k <= |all| && AllTriples(all)
    requires forall r: nat :: r < |all| ==> all[r] == Partial(d, r)
    ensures AllTriples(all[..k]) && PartialToFull(all[..k]) == d[..k + 1]
    decreases k
  {
    if k == 0 {
      assert d[..1] == [0];
    } else {
      PartialToFullPrefix(d, n, all, k - 1);
      assert all[..k][..k - 1] == all[..k - 1];
      assert all[k - 1] == Partial(d, k - 1);
    }
  }

  /** From the parts of all ranks, every rank recovers the full distribution. */
  lemma {:induction false} ExpandParts(d: seq<int>, n: nat, all: seq<seq<int>>, r: nat)
    requires IsDistribution(d, n) && |all| == |d| - 1 && r < |all|
    requires forall q: nat :: q < |all| ==> all[q] == Partial(d, q)
    ensures AllTriples(all) && AutoExpand(all, r) == d
  {
    PartialToFullPrefix(d, n, all, |all|);
    assert all[..|all|] == all && d[..|d|] == d;
    assert all[0] == Partial(d, 0);
    if |all| == 2 { assert d == [d[0], d[1], d[2]]; }
  }

  /** A full distribution is left alone, also when it has the length of a part. */
  lemma {:induction false} ExpandFull(d: seq<int>, n: nat, all: seq<seq<int>>, r: nat)
    requires IsDistribution(d, n) && |all| == |d| - 1 && r < |all|
    requires forall q: nat :: q < |all| ==> all[q] == d
    ensures (|all[r]| == 3 ==> AllTriples(all)) && AutoExpand(all, r) == d
  {
    assert all[0] == d;
  }
}

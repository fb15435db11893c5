/**
 Recovery of the opposite side of the original joins after partitioning
 (maia/transfer/dist_to_part/recover_jn.py).

 Every partition knows, for its part of a join, the local ids of the entities and their numbers in the
 interface.  All partitions post tuples under the interface numbers, shifted so that different interfaces
 do not overlap, and read back everything posted under their own numbers.
 */
module JoinRecovery {
  import opened Counting

  // ---------------------------------------------------------------- the joins of all partitions

  /**
   The part of a join held by partition `part` of rank `rank`.  Joins come in pairs: the two sides of interface `k`
   are the joins `2 * k` and `2 * k + 1`.  Entity `i` has the local id `pl[i]` and the interface number `gn[i]`.
   */
  datatype PartJoin = PartJoin(rank: nat, part: nat, gc: nat, pl: seq<int>, gn: seq<int>)

  function Opposite(gc: nat): nat {
    if gc % 2 == 0 then gc + 1 else gc - 1
  }

  /** The opposite is the only other join of the interface, and opposing is symmetric. */
  lemma {:induction false} OppositeIsOther(gc: nat, x: nat)
    ensures Opposite(gc) / 2 == gc / 2 && Opposite(gc) != gc && Opposite(Opposite(gc)) == gc
    ensures x == Opposite(gc) <==> x != gc && x / 2 == gc / 2
  {
  }

  /** Number of entities in the first `k` interfaces. */
  function Offset(sizes: seq<nat>, k: nat): nat {
    if k == 0 then 0 else Offset(sizes, k - 1) + if k <= |sizes| then sizes[k - 1] else 0
  }

  lemma {:induction false} OffsetGrows(sizes: seq<nat>, i: nat, j: nat)
    requires i < j <= |sizes|
    ensures Offset(sizes, i) + sizes[i] <= Offset(sizes, j)
    decreases j
  {
    if i + 1 < j { OffsetGrows(sizes, i, j - 1); }
  }

  /** Interface numbers start at 1 and do not exceed the size of the interface. */
  ghost predicate JoinOk(j: PartJoin, sizes: seq<nat>) {
    && |j.pl| == |j.gn| && j.gc / 2 < |sizes|
    && forall i :: 0 <= i < |j.gn| ==> 1 <= j.gn[i] <= sizes[j.gc / 2]
  }

  /** The entities of a partition join: local id and interface number. */
  function Entries(j: PartJoin): (e: seq<(int, int)>)
    ensures |e| == |j.pl|
  {
    seq(|j.pl|, i requires 0 <= i < |j.pl| => (j.pl[i], if i < |j.gn| then j.gn[i] else 0))
  }

  function Shift(gc: nat, sizes: seq<nat>): nat {
    Offset(sizes, gc / 2)
  }

  /** Shifted numbers are equal only within one interface, for the same entity. */
  lemma {:induction false} ShiftSeparates(sizes: seq<nat>, gc1: nat, gn1: int, gc2: nat, gn2: int)
    requires gc1 / 2 < |sizes| && 1 <= gn1 <= sizes[gc1 / 2]
    requires gc2 / 2 < |sizes| && 1 <= gn2 <= sizes[gc2 / 2]
    requires gn1 + Shift(gc1, sizes) == gn2 + Shift(gc2, sizes)
    ensures gc1 / 2 == gc2 / 2 && gn1 == gn2
  {
    if gc1 / 2 < gc2 / 2 { OffsetGrows(sizes, gc1 / 2, gc2 / 2); }
    if gc2 / 2 < gc1 / 2 { OffsetGrows(sizes, gc2 / 2, gc1 / 2); }
  }

  // ---------------------------------------------------------------- the exchange

  /** What a partition posts for one entity. */
  datatype Tuple = Tuple(pl: int, rank: nat, part: nat, gc: nat)

  function TupleOf(j: PartJoin): ((int, int)) -> Tuple {
    (e: (int, int)) => Tuple(e.0, j.rank, j.part, j.gc)
  }

  function UnderNumber(j: PartJoin, sizes: seq<nat>, g: int): ((int, int)) -> bool {
    (e: (int, int)) => e.1 + Shift(j.gc, sizes) == g
  }

  /** What one partition join posts under the shifted number `g`. */
  function PostedBy(j: PartJoin, sizes: seq<nat>, g: int): seq<Tuple> {
    Map(Filter(Entries(j), UnderNumber(j, sizes, g)), TupleOf(j))
  }

  ghost predicate AllOk(joins: seq<PartJoin>, sizes: seq<nat>) {
    forall j :: j in joins ==> JoinOk(j, sizes)
  }

  /** Everything posted under the shifted number `g`. */
  ghost function Posted(joins: seq<PartJoin>, sizes: seq<nat>, g: int): seq<Tuple> {
    if joins == [] then []
    else Posted(joins[..|joins| - 1], sizes, g) + PostedBy(joins[|joins| - 1], sizes, g)
  }

  /** The exchange delivers to everyone, for a number, the list of all tuples posted under it, in some order. */
  ghost predicate Delivers(inbox: int -> seq<Tuple>, joins: seq<PartJoin>, sizes: seq<nat>) {
    forall g {:trigger DeliversAt(inbox, joins, sizes, g)} :: DeliversAt(inbox, joins, sizes, g)
  }

  ghost predicate DeliversAt(inbox: int -> seq<Tuple>, joins: seq<PartJoin>, sizes: seq<nat>, g: int) {
    multiset(inbox(g)) == multiset(Posted(joins, sizes, g))
  }

  /** How often a partition join has the entity `gn` of its interface under the local id `pl`. */
  ghost function EntryCount(j: PartJoin, pl: int, gn: int): nat {
    Count(Entries(j), Is((pl, gn)))
  }

  /** How often a join of the given partition has the entity `gn` of its interface under the local id `pl`. */
  ghost function HolderCount(joins: seq<PartJoin>, t: Tuple, gn: int): nat {
    if joins == [] then 0
    else
      var j := joins[|joins| - 1];
      HolderCount(joins[..|joins| - 1], t, gn)
      + if j.rank == t.rank && j.part == t.part && j.gc == t.gc then EntryCount(j, t.pl, gn) else 0
  }

  lemma {:induction false} PostedByCount(j: PartJoin, sizes: seq<nat>, t: Tuple, g: int)
    ensures Count(PostedBy(j, sizes, g), Is(t))
            == if j.rank == t.rank && j.part == t.part && j.gc == t.gc then EntryCount(j, t.pl, g - Shift(j.gc, sizes)) else 0
  {
    var here := Filter(Entries(j), UnderNumber(j, sizes, g));
    if j.rank == t.rank && j.part == t.part && j.gc == t.gc {
      var same := (e: (int, int)) => e.0 == t.pl;
      CountMap(here, TupleOf(j), Is(t), same);
      CountFilter(Entries(j), UnderNumber(j, sizes, g), same, Is((t.pl, g - Shift(j.gc, sizes))));
    } else {
      forall x | x in Map(here, TupleOf(j)) ensures !Is(t)(x) {}
      CountNone(Map(here, TupleOf(j)), Is(t));
    }
  }

  /** A tuple is posted as often as its sender has the entity. */
  lemma {:induction false} PostedCount(joins: seq<PartJoin>, sizes: seq<nat>, t: Tuple, gn: int)
    ensures Count(Posted(joins, sizes, gn + Shift(t.gc, sizes)), Is(t)) == HolderCount(joins, t, gn)
    decreases |joins|
  {
    if joins != [] {
      var front, j, g := joins[..|joins| - 1], joins[|joins| - 1], gn + Shift(t.gc, sizes);
      PostedCount(front, sizes, t, gn);
      CountConcat(Posted(front, sizes, g), PostedBy(j, sizes, g), Is(t));
      PostedByCount(j, sizes, t, g);
      assert j.gc == t.gc ==> g - Shift(j.gc, sizes) == gn;
    }
  }

  /** All tuples posted under a number in use come from the two sides of its interface. */
  lemma {:induction false} PostedFromInterface(joins: seq<PartJoin>, sizes: seq<nat>, gc: nat, gn: int, t: Tuple)
    requires AllOk(joins, sizes) && gc / 2 < |sizes| && 1 <= gn <= sizes[gc / 2]
    requires t in Posted(joins, sizes, gn + Shift(gc, sizes))
    ensures t.gc / 2 == gc / 2
    ensures exists j :: j in joins && j.rank == t.rank && j.part == t.part && j.gc == t.gc && (t.pl, gn) in Entries(j)
    decreases |joins|
  {
    var g := gn + Shift(gc, sizes);
    var j := joins[|joins| - 1];
    assert j in joins;
    if t in PostedBy(j, sizes, g) {
      var here := Filter(Entries(j), UnderNumber(j, sizes, g));
      var k :| 0 <= k < |here| && TupleOf(j)(here[k]) == t;
      FilterMembers(Entries(j), UnderNumber(j, sizes, g), here[k]);
      var i :| 0 <= i < |Entries(j)| && Entries(j)[i] == here[k];
      ShiftSeparates(sizes, gc, gn, j.gc, j.gn[i]);
    } else {
      PostedFromInterface(joins[..|joins| - 1], sizes, gc, gn, t);
    }
  }

  lemma {:induction false} InboxMember(inbox: int -> seq<Tuple>, joins: seq<PartJoin>, sizes: seq<nat>, g: int, t: Tuple)
    requires Delivers(inbox, joins, sizes)
    ensures t in inbox(g) <==> t in Posted(joins, sizes, g)
  {
    assert DeliversAt(inbox, joins, sizes, g);
    assert t in inbox(g) <==> t in multiset(inbox(g));
    assert t in Posted(joins, sizes, g) <==> t in multiset(Posted(joins, sizes, g));
  }

  // ---------------------------------------------------------------- rows of a recovered join

  /** One entry of a recovered join: the local id, the interface number, and an opposite entity. */
  datatype Row = Row(pl: int, gn: int, oppPl: int, oppRank: nat, oppPart: nat)

  function FromOther(gc: nat): Tuple -> bool {
    (t: Tuple) => t.gc != gc
  }

  /** The candidates that come from the opposite side. */
  function Matches(cands: seq<Tuple>, gc: nat): seq<Tuple> {
    Filter(cands, FromOther(gc))
  }

  function ToRow(pl: int, gn: int): Tuple -> Row {
    (t: Tuple) => Row(pl, gn, t.pl, t.rank, t.part)
  }

  /** All rows of the first `k` entities. */
  ghost function AllRows(me: PartJoin, cands: seq<seq<Tuple>>, k: nat): seq<Row>
    requires k <= |me.pl| == |me.gn| == |cands|
  {
    if k == 0 then []
    else AllRows(me, cands, k - 1) + Map(Matches(cands[k - 1], me.gc), ToRow(me.pl[k - 1], me.gn[k - 1]))
  }

  ghost predicate AllMatched(me: PartJoin, cands: seq<seq<Tuple>>) {
    |cands| == |me.pl| && forall i :: 0 <= i < |cands| ==> Matches(cands[i], me.gc) != []
  }

  ghost function FirstRow(me: PartJoin, cands: seq<seq<Tuple>>, i: nat): Row
    requires |me.pl| == |me.gn| && AllMatched(me, cands) && i < |cands|
  {
    ToRow(me.pl[i], me.gn[i])(Matches(cands[i], me.gc)[0])
  }

  /** The first match of every entity, in the order of the entities. */
  ghost function FirstRows(me: PartJoin, cands: seq<seq<Tuple>>, k: nat): (r: seq<Row>)
    requires |me.pl| == |me.gn| && AllMatched(me, cands) && k <= |cands|
    ensures |r| == k
  {
    if k == 0 then [] else FirstRows(me, cands, k - 1) + [FirstRow(me, cands, k - 1)]
  }

  /** The other matches of the first `k` entities. */
  ghost function ExtraRows(me: PartJoin, cands: seq<seq<Tuple>>, k: nat): seq<Row>
    requires |me.pl| == |me.gn| && AllMatched(me, cands) && k <= |cands|
  {
    if k == 0 then []
    else ExtraRows(me, cands, k - 1) + Map(Matches(cands[k - 1], me.gc)[1..], ToRow(me.pl[k - 1], me.gn[k - 1]))
  }

  /** The recovered join as it is stored: first matches in place, other matches at the end. */
  ghost function Recovered(me: PartJoin, cands: seq<seq<Tuple>>): seq<Row>
    requires |me.pl| == |me.gn| && AllMatched(me, cands)
  {
    FirstRows(me, cands, |cands|) + ExtraRows(me, cands, |cands|)
  }

  lemma {:induction false} FirstAndExtra(me: PartJoin, cands: seq<seq<Tuple>>, k: nat, p: Row -> bool)
    requires |me.pl| == |me.gn| && AllMatched(me, cands) && k <= |cands|
    ensures Count(FirstRows(me, cands, k), p) + Count(ExtraRows(me, cands, k), p) == Count(AllRows(me, cands, k), p)
    decreases k
  {
    if k > 0 {
      FirstAndExtra(me, cands, k - 1, p);
      var ms, f := Matches(cands[k - 1], me.gc), ToRow(me.pl[k - 1], me.gn[k - 1]);
      CountAppend(FirstRows(me, cands, k - 1), f(ms[0]), p);
      CountConcat(ExtraRows(me, cands, k - 1), Map(ms[1..], f), p);
      CountConcat(AllRows(me, cands, k - 1), Map(ms, f), p);
      CountMapHead(ms, f, p);
    }
  }

  lemma {:induction false} CountMapHead(ms: seq<Tuple>, f: Tuple -> Row, p: Row -> bool)
    requires ms != []
    ensures Count(Map(ms, f), p) == (if p(f(ms[0])) then 1 else 0) + Count(Map(ms[1..], f), p)
  {
    assert Map(ms, f) == [f(ms[0])] + Map(ms[1..], f);
    CountConcat([f(ms[0])], Map(ms[1..], f), p);
    assert [f(ms[0])][..0] == [];
  }

  lemma {:induction false} RecoveredCount(me: PartJoin, cands: seq<seq<Tuple>>, p: Row -> bool)
    requires |me.pl| == |me.gn| && AllMatched(me, cands)
    ensures Count(Recovered(me, cands), p) == Count(AllRows(me, cands, |cands|), p)
  {
    FirstAndExtra(me, cands, |cands|, p);
    CountConcat(FirstRows(me, cands, |cands|), ExtraRows(me, cands, |cands|), p);
  }

  // ---------------------------------------------------------------- the two passes

  function Flat(cands: seq<seq<Tuple>>): seq<Tuple> {
    if cands == [] then [] else Flat(cands[..|cands| - 1]) + cands[|cands| - 1]
  }

  lemma {:induction false} FlatAt(cands: seq<seq<Tuple>>, i: nat, k: nat)
    requires i < k <= |cands|
    ensures Flat(cands[..i + 1]) == Flat(cands[..i]) + cands[i]
    ensures |Flat(cands[..i + 1])| <= |Flat(cands[..k])|
    ensures Flat(cands[..k])[|Flat(cands[..i])|..|Flat(cands[..i + 1])|] == cands[i]
    decreases k
  {
    assert cands[..i + 1][..i] == cands[..i];
    if i + 1 < k {
      FlatAt(cands, i, k - 1);
      assert cands[..k][..k - 1] == cands[..k - 1];
      var f, l := Flat(cands[..k - 1]), cands[k - 1];
      assert Flat(cands[..k]) == f + l;
      assert (f + l)[|Flat(cands[..i])|..|Flat(cands[..i + 1])|] == f[|Flat(cands[..i])|..|Flat(cands[..i + 1])|];
    }
  }

  lemma {:induction false} CandidateAt(cands: seq<seq<Tuple>>, i: nat)
    requires i < |cands|
    ensures var r := |Flat(cands[..i])|;
            && r + |cands[i]| == |Flat(cands[..i + 1])| <= |Flat(cands)|
            && Flat(cands)[r..r + |cands[i]|] == cands[i]
  {
    FlatAt(cands, i, |cands|);
    assert cands[..|cands|] == cands;
  }

  /** The tuple posted by entity `i` itself. */
  function Own(me: PartJoin, i: nat): Tuple
    requires i < |me.pl|
  {
    Tuple(me.pl[i], me.rank, me.part, me.gc)
  }

  /** Scan the candidates of one entity: count those of the opposite side, and look for oneself. */
  method ScanCandidates(own: Tuple, data: seq<Tuple>, r: nat, n: nat, ghost cands: seq<Tuple>) returns (matched: nat, myself: bool)
    requires n == |cands| && r + n <= |data| && data[r..r + n] == cands
    ensures matched == |Matches(cands, own.gc)|
    ensures myself <==> own in cands
  {
    matched, myself := 0, false;
    for c := 0 to n
      invariant matched == |Matches(cands[..c], own.gc)|
      invariant myself <==> own in cands[..c]
    {
      assert data[r + c] == data[r..r + n][c];
      assert cands[..c + 1] == cands[..c] + [cands[c]];
      FilterAppend(cands[..c], cands[c], FromOther(own.gc));
      var t := data[r + c];
      if t.rank == own.rank && t.part == own.part && t.gc == own.gc && t.pl == own.pl {
        myself := true;
      }
      if t.gc != own.gc {
        matched := matched + 1;
      }
    }
    assert cands[..n] == cands;
  }

  /** First pass: count the matches of every entity, checking that it has one and that it finds itself. */
  method CountMatches(me: PartJoin, stride: seq<nat>, data: seq<Tuple>, ghost cands: seq<seq<Tuple>>) returns (n: seq<nat>)
    requires |me.pl| == |me.gn| == |stride| && AllMatched(me, cands)
    requires data == Flat(cands) && forall i :: 0 <= i < |stride| ==> stride[i] == |cands[i]|
    requires forall i :: 0 <= i < |cands| ==> Own(me, i) in cands[i]
    ensures |n| == |me.pl| && forall i :: 0 <= i < |n| ==> n[i] == |Matches(cands[i], me.gc)|
  {
    n := [];
    var r := 0;
    for i := 0 to |me.pl|
      invariant |n| == i && r == |Flat(cands[..i])|
      invariant forall k :: 0 <= k < i ==> n[k] == |Matches(cands[k], me.gc)|
    {
      CandidateAt(cands, i);
      var matched, myself := ScanCandidates(Own(me, i), data, r, stride[i], cands[i]);
      r := r + stride[i];
      n := n + [matched];
      assert matched >= 1;
      assert myself;
    }
  }

  function Total(n: seq<nat>): nat {
    if n == [] then 0 else Total(n[..|n| - 1]) + n[|n| - 1]
  }

  /** The counted matches give the size of the recovered join. */
  lemma {:induction false} TotalIsSize(me: PartJoin, cands: seq<seq<Tuple>>, n: seq<nat>, k: nat)
    requires |me.pl| == |me.gn| && AllMatched(me, cands) && |n| == |cands| && k <= |n|
    requires forall i :: 0 <= i < |n| ==> n[i] == |Matches(cands[i], me.gc)|
    ensures Total(n[..k]) == k + |ExtraRows(me, cands, k)|
    decreases k
  {
    if k > 0 {
      TotalIsSize(me, cands, n, k - 1);
      assert n[..k][..k - 1] == n[..k - 1];
    }
  }

  /** The buffers of a recovered join. */
  datatype Buffers = Buffers(pl: array<int>, gn: array<int>, oppPl: array<int>, opp: array<(nat, nat)>)

  ghost predicate Holds(b: Buffers, k: nat, row: Row)
    reads b.pl, b.gn, b.oppPl, b.opp
  {
    && k < b.pl.Length && k < b.gn.Length && k < b.oppPl.Length && k < b.opp.Length
    && b.pl[k] == row.pl && b.gn[k] == row.gn && b.oppPl[k] == row.oppPl && b.opp[k] == (row.oppRank, row.oppPart)
  }

  ghost predicate SizedFor(b: Buffers, size: nat)
    reads b.pl, b.gn, b.oppPl, b.opp
  {
    b.pl.Length == size && b.gn.Length == size && b.oppPl.Length == size && b.opp.Length == size
  }

  /** The first `k` entities are unchanged, and the rows written so far are those of the recovered join. */
  ghost predicate Filled(b: Buffers, me: PartJoin, first: seq<Row>, extra: seq<Row>)
    requires |me.pl| == |me.gn|
    reads b.pl, b.gn, b.oppPl, b.opp
  {
    && |me.pl| <= b.pl.Length && |me.pl| <= b.gn.Length && |first| <= |me.pl|
    && (forall k: nat {:trigger b.pl[k]} :: k < |me.pl| ==> b.pl[k] == me.pl[k] && b.gn[k] == me.gn[k])
    && (forall k: nat {:trigger first[k]} :: k < |first| ==> Holds(b, k, first[k]))
    && (forall k: nat {:trigger extra[k]} :: k < |extra| ==> Holds(b, |me.pl| + k, extra[k]))
  }

  ghost predicate Apart(b: Buffers) {
    b.pl != b.gn && b.pl != b.oppPl && b.gn != b.oppPl
  }

  /** Register the first match of an entity in place. */
  method PutFirst(b: Buffers, me: PartJoin, i: nat, t: Tuple, ghost first: seq<Row>, ghost extra: seq<Row>)
    requires |me.pl| == |me.gn| && i < |me.pl| && |first| == i && Apart(b)
    requires SizedFor(b, b.pl.Length) && |me.pl| + |extra| <= b.pl.Length && Filled(b, me, first, extra)
    modifies b.oppPl, b.opp
    ensures Filled(b, me, first + [ToRow(me.pl[i], me.gn[i])(t)], extra)
  {
    b.opp[i] := (t.rank, t.part);
    b.oppPl[i] := t.pl;
    ghost var row := ToRow(me.pl[i], me.gn[i])(t);
    forall k: nat | k < |me.pl| ensures b.pl[k] == me.pl[k] && b.gn[k] == me.gn[k] { assert old(b.pl[k]) == me.pl[k]; }
    forall k: nat | k < i + 1 ensures Holds(b, k, (first + [row])[k]) {
      if k < i { assert old(Holds(b, k, first[k])); } else { assert b.pl[k] == me.pl[k]; }
    }
    forall k: nat | k < |extra| ensures Holds(b, |me.pl| + k, extra[k]) { assert old(Holds(b, |me.pl| + k, extra[k])); }
  }

  /** Register another match of an entity at the write cursor. */
  method PutExtra(b: Buffers, me: PartJoin, i: nat, w: nat, t: Tuple, ghost first: seq<Row>, ghost extra: seq<Row>)
    requires |me.pl| == |me.gn| && i < |me.pl| && w == |me.pl| + |extra| && Apart(b)
    requires SizedFor(b, b.pl.Length) && w < b.pl.Length && Filled(b, me, first, extra)
    modifies b.pl, b.gn, b.oppPl, b.opp
    ensures Filled(b, me, first, extra + [ToRow(me.pl[i], me.gn[i])(t)])
  {
    assert b.pl[i] == me.pl[i] && b.gn[i] == me.gn[i];
    b.pl[w] := b.pl[i];
    b.gn[w] := b.gn[i];
    b.oppPl[w] := t.pl;
    b.opp[w] := (t.rank, t.part);
    ghost var row := ToRow(me.pl[i], me.gn[i])(t);
    forall k: nat | k < |me.pl| ensures b.pl[k] == me.pl[k] && b.gn[k] == me.gn[k] { assert old(b.pl[k]) == me.pl[k]; }
    forall k: nat | k < |first| ensures Holds(b, k, first[k]) { assert old(Holds(b, k, first[k])); }
    forall k: nat | k < |extra| + 1 ensures Holds(b, |me.pl| + k, (extra + [row])[k]) {
      if k < |extra| { assert old(Holds(b, |me.pl| + k, extra[k])); }
    }
  }

  ghost function FirstWith(first: seq<Row>, ms: seq<Tuple>, f: Tuple -> Row): seq<Row> {
    if ms == [] then first else first + [f(ms[0])]
  }

  ghost function ExtraWith(extra: seq<Row>, ms: seq<Tuple>, f: Tuple -> Row): (r: seq<Row>)
    ensures |r| == |extra| + if ms == [] then 0 else |ms| - 1
  {
    if ms == [] then extra else extra + Map(ms[1..], f)
  }

  lemma {:induction false} RegisterStep(first: seq<Row>, extra: seq<Row>, ms: seq<Tuple>, t: Tuple, f: Tuple -> Row)
    ensures ms == [] ==> FirstWith(first, ms + [t], f) == FirstWith(first, ms, f) + [f(t)]
                         && ExtraWith(extra, ms + [t], f) == ExtraWith(extra, ms, f)
    ensures ms != [] ==> FirstWith(first, ms + [t], f) == FirstWith(first, ms, f)
                         && ExtraWith(extra, ms + [t], f) == ExtraWith(extra, ms, f) + [f(t)]
  {
    if ms != [] { assert Map((ms + [t])[1..], f) == Map(ms[1..], f) + [f(t)]; }
  }

  /** Register the matches of entity `i`: the first one in place, the others from the write cursor on. */
  method FillEntity(b: Buffers, me: PartJoin, i: nat, data: seq<Tuple>, r: nat, n: nat, start: nat,
                    ghost cands: seq<Tuple>, ghost first: seq<Row>, ghost extra: seq<Row>) returns (w: nat)
    requires |me.pl| == |me.gn| && i < |me.pl| && |first| == i && start == |me.pl| + |extra| && Apart(b)
    requires n == |cands| && r + n <= |data| && data[r..r + n] == cands
    requires Matches(cands, me.gc) != []
    requires SizedFor(b, b.pl.Length) && start + |Matches(cands, me.gc)| - 1 <= b.pl.Length
    requires Filled(b, me, first, extra)
    modifies b.pl, b.gn, b.oppPl, b.opp
    ensures w == start + |Matches(cands, me.gc)| - 1
    ensures var ms, f := Matches(cands, me.gc), ToRow(me.pl[i], me.gn[i]);
            Filled(b, me, FirstWith(first, ms, f), ExtraWith(extra, ms, f))
  {
    w := start;
    var firstMatch := true;
    ghost var f := ToRow(me.pl[i], me.gn[i]);
    ghost var ms: seq<Tuple> := [];
    for c := 0 to n
      invariant ms == Matches(cands[..c], me.gc)
      invariant firstMatch <==> ms == []
      invariant w == |me.pl| + |ExtraWith(extra, ms, f)|
      invariant Filled(b, me, FirstWith(first, ms, f), ExtraWith(extra, ms, f))
    {
      assert data[r + c] == data[r..r + n][c];
      assert cands[..c + 1] == cands[..c] + [cands[c]];
      FilterAppend(cands[..c], cands[c], FromOther(me.gc));
      FilterPrefix(cands, c + 1, FromOther(me.gc));
      var t := data[r + c];
      if t.gc != me.gc {
        RegisterStep(first, extra, ms, t, f);
        if firstMatch {
          PutFirst(b, me, i, t, FirstWith(first, ms, f), ExtraWith(extra, ms, f));
          firstMatch := false;
        } else {
          PutExtra(b, me, i, w, t, FirstWith(first, ms, f), ExtraWith(extra, ms, f));
          w := w + 1;
        }
        ms := ms + [t];
      }
    }
    assert cands[..n] == cands;
  }

  lemma {:induction false} FilterPrefix<T>(s: seq<T>, k: nat, p: T -> bool)
    requires k <= |s|
    ensures |Filter(s[..k], p)| <= |Filter(s, p)|
    decreases |s|
  {
    if k < |s| {
      FilterPrefix(s[..|s| - 1], k, p);
      assert s[..|s| - 1][..k] == s[..k];
    } else {
      assert s[..k] == s;
    }
  }

  /** The rows held by the buffers. */
  ghost predicate HoldsAll(b: Buffers, rows: seq<Row>)
    reads b.pl, b.gn, b.oppPl, b.opp
  {
    SizedFor(b, |rows|) && forall k: nat {:trigger rows[k]} :: k < |rows| ==> Holds(b, k, rows[k])
  }

  /** A longer array that repeats a given one. */
  method Resize(s: seq<int>, size: nat) returns (a: array<int>)
    requires |s| <= size
    ensures fresh(a) && a.Length == size
    ensures forall k :: 0 <= k < |s| ==> a[k] == s[k]
  {
    a := new int[size];
    var from := 0;
    for k := 0 to size
      invariant 0 <= from <= |s| && (k <= |s| ==> from == k)
      invariant forall j :: 0 <= j < k && j < |s| ==> a[j] == s[j]
    {
      if from == |s| { from := 0; }
      a[k] := if |s| == 0 then 0 else s[from];
      from := if |s| == 0 then 0 else from + 1;
    }
  }

  /** Resize the point list and the numbers, and allocate the opposite arrays. */
  method Grow(me: PartJoin, size: nat) returns (b: Buffers)
    requires |me.pl| == |me.gn| <= size
    ensures fresh(b.pl) && fresh(b.gn) && fresh(b.oppPl) && fresh(b.opp)
    ensures Apart(b) && SizedFor(b, size) && Filled(b, me, [], [])
  {
    var pl := Resize(me.pl, size);
    var gn := Resize(me.gn, size);
    var oppPl := new int[size];
    var opp := new (nat, nat)[size](k => (0, 0));
    b := Buffers(pl, gn, oppPl, opp);
  }

  lemma {:induction false} RowsStep(me: PartJoin, cands: seq<seq<Tuple>>, i: nat)
    requires |me.pl| == |me.gn| && AllMatched(me, cands) && i < |cands|
    ensures var ms, f := Matches(cands[i], me.gc), ToRow(me.pl[i], me.gn[i]);
            && FirstRows(me, cands, i + 1) == FirstWith(FirstRows(me, cands, i), ms, f)
            && ExtraRows(me, cands, i + 1) == ExtraWith(ExtraRows(me, cands, i), ms, f)
  {
  }

  /** Second pass: grow the arrays and register every match. */
  method FillMatches(me: PartJoin, stride: seq<nat>, data: seq<Tuple>, size: nat, ghost cands: seq<seq<Tuple>>) returns (b: Buffers)
    requires |me.pl| == |me.gn| == |stride| && AllMatched(me, cands)
    requires data == Flat(cands) && forall i :: 0 <= i < |stride| ==> stride[i] == |cands[i]|
    requires size == |Recovered(me, cands)|
    ensures HoldsAll(b, Recovered(me, cands))
  {
    RecoveredSize(me, cands);
    b := Grow(me, size);
    var w, r := |me.pl|, 0;
    for i := 0 to |me.pl|
      invariant r == |Flat(cands[..i])| && w == |me.pl| + |ExtraRows(me, cands, i)|
      invariant Filled(b, me, FirstRows(me, cands, i), ExtraRows(me, cands, i))
    {
      CandidateAt(cands, i);
      RoomForExtra(me, cands, i);
      RowsStep(me, cands, i);
      w := FillEntity(b, me, i, data, r, stride[i], w, cands[i], FirstRows(me, cands, i), ExtraRows(me, cands, i));
      r := r + stride[i];
    }
    assert w == size;
    RowsAreHeld(b, me, FirstRows(me, cands, |me.pl|), ExtraRows(me, cands, |me.pl|));
  }

  lemma {:induction false} RowsAreHeld(b: Buffers, me: PartJoin, first: seq<Row>, extra: seq<Row>)
    requires |me.pl| == |me.gn| == |first| && SizedFor(b, |first| + |extra|)
    requires Filled(b, me, first, extra)
    ensures HoldsAll(b, first + extra)
  {
    forall k: nat | k < |first + extra| ensures Holds(b, k, (first + extra)[k]) {
      if k < |first| { assert Holds(b, k, first[k]); } else { assert Holds(b, |first| + (k - |first|), extra[k - |first|]); }
    }
  }

  lemma {:induction false} RecoveredSize(me: PartJoin, cands: seq<seq<Tuple>>)
    requires |me.pl| == |me.gn| && AllMatched(me, cands)
    ensures |Recovered(me, cands)| == |me.pl| + |ExtraRows(me, cands, |cands|)|
  {
  }

  lemma {:induction false} RoomForExtra(me: PartJoin, cands: seq<seq<Tuple>>, i: nat)
    requires |me.pl| == |me.gn| && AllMatched(me, cands) && i < |cands|
    ensures |ExtraRows(me, cands, i)| + |Matches(cands[i], me.gc)| - 1 == |ExtraRows(me, cands, i + 1)| <= |ExtraRows(me, cands, |cands|)|
  {
    ExtraGrows(me, cands, i + 1, |cands|);
  }

  lemma {:induction false} ExtraGrows(me: PartJoin, cands: seq<seq<Tuple>>, i: nat, k: nat)
    requires |me.pl| == |me.gn| && AllMatched(me, cands) && i <= k <= |cands|
    ensures |ExtraRows(me, cands, i)| <= |ExtraRows(me, cands, k)|
    decreases k
  {
    if i < k { ExtraGrows(me, cands, i, k - 1); }
  }

  /** A recovered join: its point list, its interface numbers, the donor point list and the opposite partitions. */
  datatype FullJoin = FullJoin(pl: seq<int>, gn: seq<int>, pld: seq<int>, donor: seq<(nat, nat)>)

  function Rows(j: FullJoin): (r: seq<Row>)
    requires |j.pl| == |j.gn| == |j.pld| == |j.donor|
    ensures |r| == |j.pl|
  {
    seq(|j.pl|, k requires 0 <= k < |j.pl| => Row(j.pl[k], j.gn[k], j.pld[k], j.donor[k].0, j.donor[k].1))
  }

  ghost predicate Even(j: FullJoin) {
    |j.pl| == |j.gn| == |j.pld| == |j.donor|
  }

  /** Recover one join: count, check, grow, fill. */
  method ExpandJoin(me: PartJoin, stride: seq<nat>, data: seq<Tuple>, ghost cands: seq<seq<Tuple>>) returns (j: FullJoin)
    requires |me.pl| == |me.gn| == |stride| && AllMatched(me, cands)
    requires data == Flat(cands) && forall i :: 0 <= i < |stride| ==> stride[i] == |cands[i]|
    requires forall i :: 0 <= i < |cands| ==> Own(me, i) in cands[i]
    ensures Even(j) && Rows(j) == Recovered(me, cands)
  {
    var n := CountMatches(me, stride, data, cands);
    TotalIsSize(me, cands, n, |n|);
    assert n[..|n|] == n;
    RecoveredSize(me, cands);
    var b := FillMatches(me, stride, data, Total(n), cands);
    j := FullJoin(b.pl[..], b.gn[..], b.oppPl[..], b.opp[..]);
    ghost var rows := Recovered(me, cands);
    forall k: nat | k < |rows| ensures Rows(j)[k] == rows[k] { assert Holds(b, k, rows[k]); }
  }

  // ---------------------------------------------------------------- all joins together

  /** What the exchange hands to each entity of a join. */
  ghost function CandidatesOf(j: PartJoin, sizes: seq<nat>, inbox: int -> seq<Tuple>): (c: seq<seq<Tuple>>)
    ensures |c| == |j.gn| && forall i :: 0 <= i < |c| ==> c[i] == inbox(j.gn[i] + Shift(j.gc, sizes))
  {
    seq(|j.gn|, i requires 0 <= i < |j.gn| => inbox(j.gn[i] + Shift(j.gc, sizes)))
  }

  /** Some partition holds entity `gn` on the given side. */
  ghost predicate HeldBy(joins: seq<PartJoin>, gc: nat, gn: int) {
    exists b :: b in joins && b.gc == gc && gn in b.gn
  }

  /** Every entity of every partition join is held by a partition on the opposite side. */
  ghost predicate Covered(joins: seq<PartJoin>) {
    forall j, i: nat {:trigger CoveredAt(joins, j, i)} :: j in joins && i < |j.gn| ==> CoveredAt(joins, j, i)
  }

  ghost predicate CoveredAt(joins: seq<PartJoin>, j: PartJoin, i: nat)
    requires i < |j.gn|
  {
    HeldBy(joins, Opposite(j.gc), j.gn[i])
  }

  lemma {:induction false} PostsOwn(j: PartJoin, sizes: seq<nat>, i: nat)
    requires i < |j.gn| == |j.pl|
    ensures Own(j, i) in PostedBy(j, sizes, j.gn[i] + Shift(j.gc, sizes))
  {
    var p := UnderNumber(j, sizes, j.gn[i] + Shift(j.gc, sizes));
    var here := Filter(Entries(j), p);
    FilterMembers(Entries(j), p, Entries(j)[i]);
    var k :| 0 <= k < |here| && here[k] == (j.pl[i], j.gn[i]);
    assert Map(here, TupleOf(j))[k] == Own(j, i);
  }

  lemma {:induction false} HolderPosts(joins: seq<PartJoin>, sizes: seq<nat>, j: PartJoin, i: nat)
    requires AllOk(joins, sizes) && j in joins && i < |j.gn|
    ensures i < |j.pl| && Own(j, i) in Posted(joins, sizes, j.gn[i] + Shift(j.gc, sizes))
    decreases |joins|
  {
    assert JoinOk(j, sizes);
    if j == joins[|joins| - 1] { PostsOwn(j, sizes, i); } else { HolderPosts(joins[..|joins| - 1], sizes, j, i); }
  }

  lemma {:induction false} HolderDelivered(joins: seq<PartJoin>, sizes: seq<nat>, inbox: int -> seq<Tuple>, j: PartJoin, i: nat)
    requires AllOk(joins, sizes) && Delivers(inbox, joins, sizes) && j in joins && i < |j.gn|
    ensures Own(j, i) in inbox(j.gn[i] + Shift(j.gc, sizes))
  {
    HolderPosts(joins, sizes, j, i);
    InboxMember(inbox, joins, sizes, j.gn[i] + Shift(j.gc, sizes), Own(j, i));
  }

  lemma {:induction false} OppositeHolder(joins: seq<PartJoin>, j: PartJoin, i: nat) returns (b: PartJoin, k: nat)
    requires Covered(joins) && j in joins && i < |j.gn|
    ensures b in joins && b.gc == Opposite(j.gc) && k < |b.gn| && b.gn[k] == j.gn[i]
  {
    assert CoveredAt(joins, j, i);
    b :| b in joins && b.gc == Opposite(j.gc) && j.gn[i] in b.gn;
    k :| 0 <= k < |b.gn| && b.gn[k] == j.gn[i];
  }

  /** Every entity finds a match among its candidates. */
  lemma {:induction false} CandidatesSuffice(joins: seq<PartJoin>, sizes: seq<nat>, inbox: int -> seq<Tuple>, j: PartJoin, i: nat)
    requires AllOk(joins, sizes) && Delivers(inbox, joins, sizes) && Covered(joins)
    requires j in joins && i < |j.gn|
    ensures Matches(inbox(j.gn[i] + Shift(j.gc, sizes)), j.gc) != []
  {
    var b, k := OppositeHolder(joins, j, i);
    OppositeIsOther(j.gc, b.gc);
    HolderDelivered(joins, sizes, inbox, b, k);
    FilterMembers(inbox(j.gn[i] + Shift(j.gc, sizes)), FromOther(j.gc), Own(b, k));
  }

  /** The recovered rows of a join of the tree. */
  ghost function RecoveredRows(joins: seq<PartJoin>, sizes: seq<nat>, inbox: int -> seq<Tuple>, j: PartJoin): seq<Row>
    requires AllOk(joins, sizes) && Delivers(inbox, joins, sizes) && Covered(joins) && j in joins
  {
    AreMatched(joins, sizes, inbox, j);
    Recovered(j, CandidatesOf(j, sizes, inbox))
  }

  lemma {:induction false} AreMatched(joins: seq<PartJoin>, sizes: seq<nat>, inbox: int -> seq<Tuple>, j: PartJoin)
    requires AllOk(joins, sizes) && Delivers(inbox, joins, sizes) && Covered(joins) && j in joins
    ensures AllMatched(j, CandidatesOf(j, sizes, inbox))
    ensures forall i :: 0 <= i < |j.gn| ==> Own(j, i) in CandidatesOf(j, sizes, inbox)[i]
  {
    forall i | 0 <= i < |j.gn|
      ensures Matches(CandidatesOf(j, sizes, inbox)[i], j.gc) != [] && Own(j, i) in CandidatesOf(j, sizes, inbox)[i]
    {
      CandidatesSuffice(joins, sizes, inbox, j, i);
      HolderDelivered(joins, sizes, inbox, j, i);
    }
  }

  /** The exchange seen by one join: how many tuples each entity receives, and the tuples. */
  method Receive(j: PartJoin, sizes: seq<nat>, inbox: int -> seq<Tuple>) returns (stride: seq<nat>, data: seq<Tuple>)
    ensures data == Flat(CandidatesOf(j, sizes, inbox))
    ensures |stride| == |j.gn| && forall i :: 0 <= i < |stride| ==> stride[i] == |CandidatesOf(j, sizes, inbox)[i]|
  {
    stride, data := [], [];
    ghost var cands := CandidatesOf(j, sizes, inbox);
    for i := 0 to |j.gn|
      invariant data == Flat(cands[..i])
      invariant |stride| == i && forall k :: 0 <= k < i ==> stride[k] == |cands[k]|
    {
      assert cands[..i + 1][..i] == cands[..i];
      var got := inbox(j.gn[i] + Shift(j.gc, sizes));
      stride, data := stride + [|got|], data + got;
    }
    assert cands[..|j.gn|] == cands;
  }

  /** Recover every join of every partition. */
  method GetPointListDonors(joins: seq<PartJoin>, sizes: seq<nat>, inbox: int -> seq<Tuple>) returns (full: seq<FullJoin>)
    requires AllOk(joins, sizes) && Delivers(inbox, joins, sizes) && Covered(joins)
    ensures |full| == |joins|
    ensures forall k :: 0 <= k < |full| ==> Even(full[k]) && Rows(full[k]) == RecoveredRows(joins, sizes, inbox, joins[k])
  {
    full := [];
    for k := 0 to |joins|
      invariant |full| == k
      invariant forall i :: 0 <= i < k ==> Even(full[i]) && Rows(full[i]) == RecoveredRows(joins, sizes, inbox, joins[i])
    {
      var j := joins[k];
      AreMatched(joins, sizes, inbox, j);
      var stride, data := Receive(j, sizes, inbox);
      var f := ExpandJoin(j, stride, data, CandidatesOf(j, sizes, inbox));
      full := full + [f];
    }
  }

  // ---------------------------------------------------------------- what is recovered

  ghost function OppositeTuple(gc: nat, row: Row): Tuple {
    Tuple(row.oppPl, row.oppRank, row.oppPart, Opposite(gc))
  }

  /** The candidates that give the row. */
  ghost function GivesRow(gc: nat, row: Row): Tuple -> bool {
    (t: Tuple) => t.gc != gc && t.pl == row.oppPl && t.rank == row.oppRank && t.part == row.oppPart
  }

  lemma {:induction false} DeliveredCount(joins: seq<PartJoin>, sizes: seq<nat>, inbox: int -> seq<Tuple>, g: int, p: Tuple -> bool)
    requires Delivers(inbox, joins, sizes)
    ensures Count(inbox(g), p) == Count(Posted(joins, sizes, g), p)
  {
    assert DeliversAt(inbox, joins, sizes, g);
    CountReordered(inbox(g), Posted(joins, sizes, g), p);
  }

  lemma {:induction false} PostedIsOpposite(joins: seq<PartJoin>, sizes: seq<nat>, gc: nat, row: Row, x: Tuple)
    requires AllOk(joins, sizes) && gc / 2 < |sizes| && 1 <= row.gn <= sizes[gc / 2]
    requires x in Posted(joins, sizes, row.gn + Shift(gc, sizes))
    ensures GivesRow(gc, row)(x) <==> Is(OppositeTuple(gc, row))(x)
  {
    PostedFromInterface(joins, sizes, gc, row.gn, x);
    OppositeIsOther(gc, x.gc);
  }

  lemma {:induction false} PostedGives(joins: seq<PartJoin>, sizes: seq<nat>, gc: nat, row: Row)
    requires AllOk(joins, sizes) && gc / 2 < |sizes| && 1 <= row.gn <= sizes[gc / 2]
    ensures Count(Posted(joins, sizes, row.gn + Shift(gc, sizes)), GivesRow(gc, row))
            == Count(Posted(joins, sizes, row.gn + Shift(gc, sizes)), Is(OppositeTuple(gc, row)))
  {
    var posted, t := Posted(joins, sizes, row.gn + Shift(gc, sizes)), OppositeTuple(gc, row);
    forall x | x in posted ensures GivesRow(gc, row)(x) <==> Is(t)(x) { PostedIsOpposite(joins, sizes, gc, row, x); }
    CountCongruent(posted, GivesRow(gc, row), Is(t));
  }

  lemma {:induction false} GivenCount(joins: seq<PartJoin>, sizes: seq<nat>, inbox: int -> seq<Tuple>, gc: nat, row: Row)
    requires AllOk(joins, sizes) && Delivers(inbox, joins, sizes)
    requires gc / 2 < |sizes| && 1 <= row.gn <= sizes[gc / 2]
    ensures Count(inbox(row.gn + Shift(gc, sizes)), GivesRow(gc, row)) == HolderCount(joins, OppositeTuple(gc, row), row.gn)
  {
    var g, t := row.gn + Shift(gc, sizes), OppositeTuple(gc, row);
    DeliveredCount(joins, sizes, inbox, g, GivesRow(gc, row));
    PostedGives(joins, sizes, gc, row);
    OppositeIsOther(gc, gc);
    PostedCount(joins, sizes, t, row.gn);
  }

  lemma {:induction false} MulStep(c: nat, b: bool, h: nat)
    ensures (c + if b then 1 else 0) * h == c * h + if b then h else 0
  {
  }

  /** The number of times entity `i` gives the row. */
  ghost function EntityCount(j: PartJoin, cands: seq<seq<Tuple>>, row: Row, i: nat): nat
    requires i < |j.pl| == |j.gn| == |cands|
  {
    Count(Map(Matches(cands[i], j.gc), ToRow(j.pl[i], j.gn[i])), Is(row))
  }

  lemma {:induction false} RowCountPrefix(j: PartJoin, cands: seq<seq<Tuple>>, row: Row, h: nat, k: nat)
    requires k <= |j.pl| == |j.gn| == |cands|
    requires forall i: nat {:trigger EntityCount(j, cands, row, i)} :: i < |j.pl| ==>
               EntityCount(j, cands, row, i) == if (j.pl[i], j.gn[i]) == (row.pl, row.gn) then h else 0
    ensures Count(AllRows(j, cands, k), Is(row)) == Count(Entries(j)[..k], Is((row.pl, row.gn))) * h
    decreases k
  {
    if k > 0 {
      var i := k - 1;
      RowCountPrefix(j, cands, row, h, i);
      RowsOfEntity(j, cands, row, i);
      EntryCountStep(j, row, i);
      MulStep(Count(Entries(j)[..i], Is((row.pl, row.gn))), (j.pl[i], j.gn[i]) == (row.pl, row.gn), h);
      assert EntityCount(j, cands, row, i) == if (j.pl[i], j.gn[i]) == (row.pl, row.gn) then h else 0;
    }
  }

  lemma {:induction false} RowsOfEntity(j: PartJoin, cands: seq<seq<Tuple>>, row: Row, i: nat)
    requires i < |j.pl| == |j.gn| == |cands|
    ensures Count(AllRows(j, cands, i + 1), Is(row)) == Count(AllRows(j, cands, i), Is(row)) + EntityCount(j, cands, row, i)
  {
    CountConcat(AllRows(j, cands, i), Map(Matches(cands[i], j.gc), ToRow(j.pl[i], j.gn[i])), Is(row));
  }

  lemma {:induction false} EntryCountStep(j: PartJoin, row: Row, i: nat)
    requires i < |j.pl| == |j.gn|
    ensures Count(Entries(j)[..i + 1], Is((row.pl, row.gn)))
            == Count(Entries(j)[..i], Is((row.pl, row.gn))) + if (j.pl[i], j.gn[i]) == (row.pl, row.gn) then 1 else 0
  {
    assert Entries(j)[..i + 1] == Entries(j)[..i] + [Entries(j)[i]];
    CountAppend(Entries(j)[..i], Entries(j)[i], Is((row.pl, row.gn)));
  }

  lemma {:induction false} EntityRowCount(joins: seq<PartJoin>, sizes: seq<nat>, inbox: int -> seq<Tuple>, j: PartJoin, row: Row, i: nat)
    requires AllOk(joins, sizes) && Delivers(inbox, joins, sizes) && j in joins && i < |j.pl|
    ensures EntityCount(j, CandidatesOf(j, sizes, inbox), row, i)
            == if (j.pl[i], j.gn[i]) == (row.pl, row.gn) then HolderCount(joins, OppositeTuple(j.gc, row), row.gn) else 0
  {
    RowsOfCandidates(CandidatesOf(j, sizes, inbox)[i], j.gc, j.pl[i], j.gn[i], row);
    if (j.pl[i], j.gn[i]) == (row.pl, row.gn) {
      GivenCount(joins, sizes, inbox, j.gc, row);
    }
  }

  lemma {:induction false} RowsOfCandidates(got: seq<Tuple>, gc: nat, pl: int, gn: int, row: Row)
    ensures Count(Map(Matches(got, gc), ToRow(pl, gn)), Is(row))
            == if (pl, gn) == (row.pl, row.gn) then Count(got, GivesRow(gc, row)) else 0
  {
    var ms, f := Matches(got, gc), ToRow(pl, gn);
    if (pl, gn) == (row.pl, row.gn) {
      var same := (t: Tuple) => t.pl == row.oppPl && t.rank == row.oppRank && t.part == row.oppPart;
      CountMap(ms, f, Is(row), same);
      CountFilter(got, FromOther(gc), same, GivesRow(gc, row));
    } else {
      forall x | x in Map(ms, f) ensures !Is(row)(x) {}
      CountNone(Map(ms, f), Is(row));
    }
  }

  /**
   The recovered join is the relation between local and opposite entities that share an interface number,
   with the multiplicity of each: every pair of occurrences gives exactly one row.
   */
  lemma {:induction false} RecoveredIsRelation(joins: seq<PartJoin>, sizes: seq<nat>, inbox: int -> seq<Tuple>, j: PartJoin, row: Row)
    requires AllOk(joins, sizes) && Delivers(inbox, joins, sizes) && Covered(joins) && j in joins
    ensures multiset(RecoveredRows(joins, sizes, inbox, j))[row]
            == EntryCount(j, row.pl, row.gn) * HolderCount(joins, OppositeTuple(j.gc, row), row.gn)
  {
    var cands := CandidatesOf(j, sizes, inbox);
    AreMatched(joins, sizes, inbox, j);
    CountIsMultiplicity(Recovered(j, cands), row);
    RecoveredCount(j, cands, Is(row));
    forall i: nat | i < |j.pl|
      ensures EntityCount(j, cands, row, i)
              == if (j.pl[i], j.gn[i]) == (row.pl, row.gn) then HolderCount(joins, OppositeTuple(j.gc, row), row.gn) else 0
    {
      EntityRowCount(joins, sizes, inbox, j, row, i);
    }
    RowCountPrefix(j, cands, row, HolderCount(joins, OppositeTuple(j.gc, row), row.gn), |j.pl|);
    assert Entries(j)[..|j.pl|] == Entries(j);
  }

  /** The entities of the join come first, in their order; the rest repeats some of them. */
  lemma {:induction false} EntitiesStayInPlace(me: PartJoin, cands: seq<seq<Tuple>>, k: nat)
    requires |me.pl| == |me.gn| && AllMatched(me, cands) && k < |Recovered(me, cands)|
    ensures |me.pl| <= |Recovered(me, cands)|
    ensures k < |me.pl| ==> Recovered(me, cands)[k].pl == me.pl[k] && Recovered(me, cands)[k].gn == me.gn[k]
    ensures exists i: nat :: i < |me.pl| && Recovered(me, cands)[k].pl == me.pl[i] && Recovered(me, cands)[k].gn == me.gn[i]
  {
    if k < |cands| { FirstInPlace(me, cands, |cands|, k); } else { ExtraRepeats(me, cands, |cands|, k - |cands|); }
  }

  lemma {:induction false} FirstInPlace(me: PartJoin, cands: seq<seq<Tuple>>, n: nat, k: nat)
    requires |me.pl| == |me.gn| && AllMatched(me, cands) && k < n <= |cands|
    ensures FirstRows(me, cands, n)[k].pl == me.pl[k] && FirstRows(me, cands, n)[k].gn == me.gn[k]
    decreases n
  {
    if k < n - 1 { FirstInPlace(me, cands, n - 1, k); }
  }

  lemma {:induction false} ExtraRepeats(me: PartJoin, cands: seq<seq<Tuple>>, n: nat, k: nat)
    requires |me.pl| == |me.gn| && AllMatched(me, cands) && n <= |cands| && k < |ExtraRows(me, cands, n)|
    ensures exists i: nat :: i < n && ExtraRows(me, cands, n)[k].pl == me.pl[i] && ExtraRows(me, cands, n)[k].gn == me.gn[i]
    decreases n
  {
    var front := ExtraRows(me, cands, n - 1);
    if k < |front| { ExtraRepeats(me, cands, n - 1, k); } else { assert ExtraRows(me, cands, n)[k].pl == me.pl[n - 1]; }
  }
}

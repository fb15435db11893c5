/**
 Splitting of the recovered joins, one sub-join per opposite partition
 (split_original_joins in maia/factory/partitioning/post_split.py).

 The two halves of a sub-join are built by different partitions.  They are proved to be mirror images.
 */
module JoinSplit {
  import opened Basics
  import opened Counting
  import opened JoinRecovery
  import Strings

  /** One entry of a sub-join: point list, donor point list, interface number. */
  datatype Triple = Triple(pl: int, pld: int, gn: int)

  function Swap(t: Triple): Triple {
    Triple(t.pld, t.pl, t.gn)
  }

  function Faces(opp: (nat, nat)): Row -> bool {
    (r: Row) => (r.oppRank, r.oppPart) == opp
  }

  function Kept(r: Row): Triple {
    Triple(r.pl, r.oppPl, r.gn)
  }

  /** The entries of a recovered join that face the given partition. */
  function Facing(rows: seq<Row>, opp: (nat, nat)): seq<Triple> {
    Map(Filter(rows, Faces(opp)), Kept)
  }

  /** The id by which entries are sorted: the one of the reference side. */
  function Key(t: Triple, reference: bool): int {
    if reference then t.pl else t.pld
  }

  ghost predicate SortedByKey(s: seq<Triple>, reference: bool) {
    forall i, j :: 0 <= i < j < |s| ==> Key(s[i], reference) <= Key(s[j], reference)
  }

  /** A possible result of splitting: the facing entries, sorted by the id of the reference side, ties in any order. */
  ghost predicate IsSubJoin(out: seq<Triple>, rows: seq<Row>, opp: (nat, nat), reference: bool) {
    multiset(out) == multiset(Facing(rows, opp)) && SortedByKey(out, reference)
  }

  // ---------------------------------------------------------------- the reference side

  /** A join of the initial tree: the path of its zone and its name. */
  datatype Side = Side(zone: string, name: string)

  function PathOf(s: Side): string {
    s.zone + "/" + s.name
  }

  /** The side whose path comes first is the reference; each partition finds out on its own. */
  predicate IsReference(cur: Side, opp: Side) {
    Strings.Less(PathOf(cur), PathOf(opp))
  }

  lemma {:induction false} LastSlash(s: Side)
    requires '/' !in s.name
    ensures PathOf(s)[|s.zone|] == '/' && forall k :: |s.zone| < k < |PathOf(s)| ==> PathOf(s)[k] != '/'
    ensures s.zone == PathOf(s)[..|s.zone|] && s.name == PathOf(s)[|s.zone| + 1..]
  {
    forall k | |s.zone| < k < |PathOf(s)| ensures PathOf(s)[k] != '/' { assert PathOf(s)[k] == s.name[k - |s.zone| - 1]; }
  }

  /** Names have no slash, so different joins have different paths. */
  lemma {:induction false} PathsDiffer(s: Side, t: Side)
    requires '/' !in s.name && '/' !in t.name && PathOf(s) == PathOf(t)
    ensures s == t
  {
    LastSlash(s);
    LastSlash(t);
    assert |s.zone| == |t.zone|;
  }

  /** Exactly one of the two sides takes itself for the reference. */
  lemma {:induction false} OneReference(s: Side, t: Side)
    requires '/' !in s.name && '/' !in t.name && s != t
    ensures IsReference(s, t) <==> !IsReference(t, s)
  {
    if PathOf(s) == PathOf(t) { PathsDiffer(s, t); }
    Strings.LessIsTotal(PathOf(s), PathOf(t));
  }

  // ---------------------------------------------------------------- sorting

  function Range(n: nat): (r: seq<nat>)
    ensures |r| == n && forall i :: 0 <= i < n ==> r[i] == i
  {
    seq(n, i => i)
  }

  ghost predicate SortsKeys(idx: seq<nat>, keys: seq<int>) {
    && (forall i :: 0 <= i < |idx| ==> idx[i] < |keys|)
    && forall i, j :: 0 <= i < j < |idx| ==> keys[idx[i]] <= keys[idx[j]]
  }

  method FirstNotBelow(idx: seq<nat>, keys: seq<int>, key: int) returns (pos: nat)
    requires SortsKeys(idx, keys)
    ensures pos <= |idx|
    ensures forall i :: 0 <= i < pos ==> keys[idx[i]] < key
    ensures pos < |idx| ==> key <= keys[idx[pos]]
  {
    pos := 0;
    while pos < |idx| && keys[idx[pos]] < key
      invariant 0 <= pos <= |idx|
      invariant forall i :: 0 <= i < pos ==> keys[idx[i]] < key
    {
      pos := pos + 1;
    }
  }

  /** Indices that sort the keys; the order of equal keys is not promised. */
  method ArgSort(keys: seq<int>) returns (idx: seq<nat>)
    ensures multiset(idx) == multiset(Range(|keys|)) && SortsKeys(idx, keys)
  {
    idx := [];
    for k := 0 to |keys|
      invariant SortsFirst(idx, keys, k)
    {
      var pos := FirstNotBelow(idx, keys, keys[k]);
      InsertIndex(idx, keys, k, pos);
      idx := idx[..pos] + [k] + idx[pos..];
    }
  }

  /** The first `k` indices, in the order of their keys. */
  ghost predicate SortsFirst(idx: seq<nat>, keys: seq<int>, k: nat) {
    multiset(idx) == multiset(Range(k)) && |idx| == k && SortsKeys(idx, keys)
  }

  lemma {:induction false} InsertIndex(idx: seq<nat>, keys: seq<int>, k: nat, pos: nat)
    requires k < |keys| && pos <= |idx| == k && SortsKeys(idx, keys)
    requires multiset(idx) == multiset(Range(k))
    requires forall i :: 0 <= i < pos ==> keys[idx[i]] < keys[k]
    requires pos < k ==> keys[k] <= keys[idx[pos]]
    ensures var r := idx[..pos] + [k] + idx[pos..];
            SortsFirst(r, keys, k + 1)
  {
    InsertSorted(idx, keys, k, pos);
    InsertAdds(idx, k, pos);
    assert Range(k + 1) == Range(k) + [k];
  }

  lemma {:induction false} InsertSorted(idx: seq<nat>, keys: seq<int>, k: nat, pos: nat)
    requires k < |keys| && pos <= |idx| && SortsKeys(idx, keys)
    requires forall i :: 0 <= i < pos ==> keys[idx[i]] < keys[k]
    requires pos < |idx| ==> keys[k] <= keys[idx[pos]]
    ensures SortsKeys(idx[..pos] + [k] + idx[pos..], keys)
  {
    var r := idx[..pos] + [k] + idx[pos..];
    assert forall i :: 0 <= i < |r| ==> r[i] == if i < pos then idx[i] else if i == pos then k else idx[i - 1];
    forall i, j | 0 <= i < j < |r| ensures keys[r[i]] <= keys[r[j]] {
      if i == pos && j > pos + 1 { assert keys[idx[pos]] <= keys[idx[j - 1]]; }
    }
  }

  function Gather<T>(s: seq<T>, idx: seq<nat>): (r: seq<T>)
    requires forall i :: 0 <= i < |idx| ==> idx[i] < |s|
    ensures |r| == |idx| && forall i :: 0 <= i < |r| ==> r[i] == s[idx[i]]
  {
    seq(|idx|, i requires 0 <= i < |idx| => s[idx[i]])
  }

  /** Reading a sequence through a permutation of its indices reorders it. */
  lemma {:induction false} GatherReorders<T(!new)>(s: seq<T>, idx: seq<nat>)
    requires multiset(idx) == multiset(Range(|s|))
    requires forall i :: 0 <= i < |idx| ==> idx[i] < |s|
    ensures multiset(Gather(s, idx)) == multiset(s)
  {
    if s == [] {
      assert |multiset(idx)| == 0;
      assert Gather(s, idx) == s;
    } else {
      var f := (i: nat) => if i < |s| then s[i] else s[0];
      MapReordered(idx, Range(|s|), f);
      assert Map(idx, f) == Gather(s, idx);
      assert Map(Range(|s|), f) == s;
    }
  }

  // ---------------------------------------------------------------- opposite partitions

  predicate PartLess(a: (nat, nat), b: (nat, nat)) {
    a.0 < b.0 || (a.0 == b.0 && a.1 < b.1)
  }

  ghost predicate StrictlySorted(ps: seq<(nat, nat)>) {
    forall i, j :: 0 <= i < j < |ps| ==> PartLess(ps[i], ps[j])
  }

  lemma {:induction false} InsertPart(ps: seq<(nat, nat)>, d: (nat, nat), pos: nat)
    requires StrictlySorted(ps) && pos <= |ps|
    requires forall i :: 0 <= i < pos ==> PartLess(ps[i], d)
    requires pos < |ps| ==> !PartLess(ps[pos], d) && ps[pos] != d
    ensures StrictlySorted(ps[..pos] + [d] + ps[pos..])
    ensures forall p :: p in ps[..pos] + [d] + ps[pos..] <==> p in ps || p == d
  {
    var r := ps[..pos] + [d] + ps[pos..];
    assert forall i :: 0 <= i < |r| ==> r[i] == if i < pos then ps[i] else if i == pos then d else ps[i - 1];
    forall i, j | 0 <= i < j < |r| ensures PartLess(r[i], r[j]) {
      if i == pos && j > pos + 1 { assert PartLess(ps[pos], ps[j - 1]); }
    }
    assert ps == ps[..pos] + ps[pos..];
  }

  /** The sorted distinct elements of a list of partitions. */
  method UniqueParts(donors: seq<(nat, nat)>) returns (ps: seq<(nat, nat)>)
    ensures StrictlySorted(ps)
    ensures forall p :: p in ps <==> p in donors
  {
    ps := [];
    for k := 0 to |donors|
      invariant StrictlySorted(ps)
      invariant forall p :: p in ps <==> p in donors[..k]
    {
      var d, pos := donors[k], 0;
      while pos < |ps| && PartLess(ps[pos], d)
        invariant 0 <= pos <= |ps|
        invariant forall i :: 0 <= i < pos ==> PartLess(ps[i], d)
      {
        pos := pos + 1;
      }
      assert donors[..k + 1] == donors[..k] + [d];
      if pos == |ps| || ps[pos] != d {
        InsertPart(ps, d, pos);
        ps := ps[..pos] + [d] + ps[pos..];
      }
    }
    assert donors[..|donors|] == donors;
  }

  // ---------------------------------------------------------------- splitting

  /** A sub-join towards one opposite partition. */
  datatype SubJoin = SubJoin(opp: (nat, nat), pl: seq<int>, pld: seq<int>, gn: seq<int>)

  function SubEntries(s: SubJoin): seq<Triple>
    requires |s.pl| == |s.pld| == |s.gn|
  {
    seq(|s.pl|, i requires 0 <= i < |s.pl| => Triple(s.pl[i], s.pld[i], s.gn[i]))
  }

  ghost predicate NonDecreasing(s: seq<int>) {
    forall i, j :: 0 <= i < j < |s| ==> s[i] <= s[j]
  }

  /** The ids of the side whose path comes first in the dictionary are sorted. */
  ghost predicate InPathOrder(s: SubJoin, cur: Side, donor: Side) {
    && (Strings.Precedes(cur.zone + "/" + cur.name, donor.zone + "/" + donor.name) ==> NonDecreasing(s.pl))
    && (Strings.Precedes(donor.zone + "/" + donor.name, cur.zone + "/" + cur.name) ==> NonDecreasing(s.pld))
  }

  lemma {:induction false} KeysFollowPaths(s: SubJoin, cur: Side, donor: Side)
    requires |s.pl| == |s.pld| == |s.gn| && SortedByKey(SubEntries(s), IsReference(cur, donor))
    ensures InPathOrder(s, cur, donor)
  {
    var e, p, q := SubEntries(s), cur.zone + "/" + cur.name, donor.zone + "/" + donor.name;
    Strings.LessIsPrecedes(p, q);
    Strings.LessIsPrecedes(q, p);
    Strings.LessIsTotal(p, q);
    forall i, j | 0 <= i < j < |e| ensures if Strings.Precedes(p, q) then s.pl[i] <= s.pl[j] else s.pld[i] <= s.pld[j] {
      assert Key(e[i], IsReference(cur, donor)) <= Key(e[j], IsReference(cur, donor));
    }
  }

  /** Extract the entries that face one partition, and sort them by the id of the reference side. */
  method ExtractSubJoin(j: FullJoin, opp: (nat, nat), cur: Side, donor: Side) returns (s: SubJoin)
    requires Even(j)
    ensures s.opp == opp && |s.pl| == |s.pld| == |s.gn|
    ensures IsSubJoin(SubEntries(s), Rows(j), opp, IsReference(cur, donor)) && InPathOrder(s, cur, donor)
  {
    var pl, pld, gn := [], [], [];
    ghost var out: seq<Triple> := [];
    for k := 0 to |j.pl|
      invariant |pl| == |pld| == |gn| == |out|
      invariant out == Facing(Rows(j)[..k], opp)
      invariant forall i :: 0 <= i < |out| ==> out[i] == Triple(pl[i], pld[i], gn[i])
    {
      ghost var row := Rows(j)[k];
      FacingStep(Rows(j), opp, k);
      if j.donor[k] == opp {
        pl, pld, gn := pl + [j.pl[k]], pld + [j.pld[k]], gn + [j.gn[k]];
        out := out + [Kept(row)];
      }
    }
    assert Rows(j)[..|j.pl|] == Rows(j);
    var curPath, oppPath := cur.zone + "/" + cur.name, donor.zone + "/" + donor.name;
    var keys := if Strings.Less(curPath, oppPath) then pl else pld;
    var idx := ArgSort(keys);
    s := SubJoin(opp, Gather(pl, idx), Gather(pld, idx), Gather(gn, idx));
    GatherReorders(out, idx);
    assert SubEntries(s) == Gather(out, idx);
    KeysFollowPaths(s, cur, donor);
  }

  lemma {:induction false} FacingStep(rows: seq<Row>, opp: (nat, nat), k: nat)
    requires k < |rows|
    ensures Facing(rows[..k + 1], opp)
            == Facing(rows[..k], opp) + if (rows[k].oppRank, rows[k].oppPart) == opp then [Kept(rows[k])] else []
  {
    assert rows[..k + 1] == rows[..k] + [rows[k]];
    FilterAppend(rows[..k], rows[k], Faces(opp));
  }

  /** One sub-join per opposite partition, in the order of the partitions. */
  method SplitJoin(j: FullJoin, cur: Side, donor: Side) returns (subs: seq<SubJoin>)
    requires Even(j)
    ensures forall i, k :: 0 <= i < k < |subs| ==> PartLess(subs[i].opp, subs[k].opp)
    ensures forall p :: p in j.donor <==> exists i :: 0 <= i < |subs| && subs[i].opp == p
    ensures forall i :: 0 <= i < |subs| ==>
              |subs[i].pl| == |subs[i].pld| == |subs[i].gn| && IsSubJoin(SubEntries(subs[i]), Rows(j), subs[i].opp, IsReference(cur, donor))
  {
    var ps := UniqueParts(j.donor);
    subs := [];
    for i := 0 to |ps|
      invariant |subs| == i
      invariant forall k :: 0 <= k < i ==> subs[k].opp == ps[k]
      invariant forall k :: 0 <= k < i ==>
                  |subs[k].pl| == |subs[k].pld| == |subs[k].gn| && IsSubJoin(SubEntries(subs[k]), Rows(j), subs[k].opp, IsReference(cur, donor))
    {
      var s := ExtractSubJoin(j, ps[i], cur, donor);
      subs := subs + [s];
    }
    forall p ensures p in j.donor <==> exists i :: 0 <= i < |subs| && subs[i].opp == p {
      assert p in j.donor <==> p in ps;
      if p in ps { var i :| 0 <= i < |ps| && ps[i] == p; assert subs[i].opp == p; }
    }
  }

  // ---------------------------------------------------------------- the two halves mirror each other

  /** A partition has one part of a join at most. */
  ghost predicate DistinctHolders(joins: seq<PartJoin>) {
    forall i, j :: 0 <= i < j < |joins| ==>
      !(joins[i].rank == joins[j].rank && joins[i].part == joins[j].part && joins[i].gc == joins[j].gc)
  }

  lemma {:induction false} NoHolder(joins: seq<PartJoin>, t: Tuple, gn: int)
    requires forall j :: j in joins ==> !(j.rank == t.rank && j.part == t.part && j.gc == t.gc)
    ensures HolderCount(joins, t, gn) == 0
    decreases |joins|
  {
    if joins != [] {
      assert joins[|joins| - 1] in joins;
      NoHolder(joins[..|joins| - 1], t, gn);
    }
  }

  /** The holder of a tuple is unique, so its occurrences are those of that holder. */
  lemma {:induction false} HolderIsUnique(joins: seq<PartJoin>, b: PartJoin, pl: int, gn: int)
    requires DistinctHolders(joins) && b in joins
    ensures HolderCount(joins, Tuple(pl, b.rank, b.part, b.gc), gn) == EntryCount(b, pl, gn)
    decreases |joins|
  {
    var last, front := joins[|joins| - 1], joins[..|joins| - 1];
    if last == b {
      forall j | j in front ensures !(j.rank == b.rank && j.part == b.part && j.gc == b.gc) {
        var i :| 0 <= i < |front| && front[i] == j;
        assert joins[i] == j;
      }
      NoHolder(front, Tuple(pl, b.rank, b.part, b.gc), gn);
    } else {
      var i :| 0 <= i < |joins| && joins[i] == b;
      assert front[i] == b;
      HolderIsUnique(front, b, pl, gn);
    }
  }

  function PartOf(j: PartJoin): (nat, nat) {
    (j.rank, j.part)
  }

  /** How often an entry faces a partition. */
  lemma {:induction false} FacingCount(rows: seq<Row>, opp: (nat, nat), t: Triple)
    ensures multiset(Facing(rows, opp))[t] == multiset(rows)[Row(t.pl, t.gn, t.pld, opp.0, opp.1)]
  {
    var row := Row(t.pl, t.gn, t.pld, opp.0, opp.1);
    CountIsMultiplicity(Facing(rows, opp), t);
    CountIsMultiplicity(rows, row);
    var same := (r: Row) => Kept(r) == t;
    CountMap(Filter(rows, Faces(opp)), Kept, Is(t), same);
    CountFilter(rows, Faces(opp), same, Is(row));
  }

  ghost predicate Setting(joins: seq<PartJoin>, sizes: seq<nat>, inbox: int -> seq<Tuple>) {
    AllOk(joins, sizes) && Delivers(inbox, joins, sizes) && Covered(joins) && DistinctHolders(joins)
  }

  /** The number of pairs of occurrences that give an entry. */
  ghost function PairCount(a: PartJoin, b: PartJoin, t: Triple): nat {
    EntryCount(a, t.pl, t.gn) * EntryCount(b, t.pld, t.gn)
  }

  lemma {:induction false} Commutes(x: nat, y: nat)
    ensures x * y == y * x
  {
  }

  lemma {:induction false} PairCountSwaps(a: PartJoin, b: PartJoin, t: Triple)
    ensures PairCount(a, b, t) == PairCount(b, a, Swap(t))
  {
    Commutes(EntryCount(a, t.pl, t.gn), EntryCount(b, t.pld, t.gn));
  }

  /** An entry between two partitions occurs as often as both have its entity. */
  lemma {:induction false} FacingIsProduct(joins: seq<PartJoin>, sizes: seq<nat>, inbox: int -> seq<Tuple>, a: PartJoin, b: PartJoin, t: Triple)
    requires Setting(joins, sizes, inbox) && a in joins && b in joins && b.gc == Opposite(a.gc)
    ensures multiset(Facing(RecoveredRows(joins, sizes, inbox, a), PartOf(b)))[t]
            == PairCount(a, b, t)
  {
    var rows := RecoveredRows(joins, sizes, inbox, a);
    FacingCount(rows, PartOf(b), t);
    RecoveredIsRelation(joins, sizes, inbox, a, Row(t.pl, t.gn, t.pld, b.rank, b.part));
    HolderIsUnique(joins, b, t.pld, t.gn);
  }

  lemma {:induction false} SwappedCount(s: seq<Triple>, t: Triple)
    ensures multiset(Map(s, Swap))[t] == multiset(s)[Swap(t)]
  {
    CountIsMultiplicity(Map(s, Swap), t);
    CountIsMultiplicity(s, Swap(t));
    CountMap(s, Swap, Is(t), Is(Swap(t)));
  }

  /** The two sides find the same pairs, each pair seen from the other side. */
  lemma {:induction false} HalvesHaveSamePairs(joins: seq<PartJoin>, sizes: seq<nat>, inbox: int -> seq<Tuple>, a: PartJoin, b: PartJoin)
    requires Setting(joins, sizes, inbox) && a in joins && b in joins && b.gc == Opposite(a.gc)
    ensures multiset(Map(Facing(RecoveredRows(joins, sizes, inbox, b), PartOf(a)), Swap))
            == multiset(Facing(RecoveredRows(joins, sizes, inbox, a), PartOf(b)))
  {
    var fa := Facing(RecoveredRows(joins, sizes, inbox, a), PartOf(b));
    var fb := Facing(RecoveredRows(joins, sizes, inbox, b), PartOf(a));
    forall t ensures multiset(Map(fb, Swap))[t] == multiset(fa)[t] {
      PairIsSeenTwice(joins, sizes, inbox, a, b, t);
      SwappedCount(fb, t);
    }
  }

  lemma {:induction false} PairIsSeenTwice(joins: seq<PartJoin>, sizes: seq<nat>, inbox: int -> seq<Tuple>, a: PartJoin, b: PartJoin, t: Triple)
    requires Setting(joins, sizes, inbox) && a in joins && b in joins && b.gc == Opposite(a.gc)
    ensures multiset(Facing(RecoveredRows(joins, sizes, inbox, b), PartOf(a)))[Swap(t)]
            == multiset(Facing(RecoveredRows(joins, sizes, inbox, a), PartOf(b)))[t]
  {
    OppositeIsOther(a.gc, b.gc);
    FacingIsProduct(joins, sizes, inbox, a, b, t);
    FacingIsProduct(joins, sizes, inbox, b, a, Swap(t));
    PairCountSwaps(a, b, t);
  }

  /** No two different entries share the id by which they are sorted. */
  ghost predicate KeysSeparate(s: seq<Triple>, reference: bool) {
    forall i, j :: 0 <= i < |s| && 0 <= j < |s| && Key(s[i], reference) == Key(s[j], reference) ==> s[i] == s[j]
  }

  lemma {:induction false} SameElements(s: seq<Triple>, t: seq<Triple>, x: Triple)
    requires multiset(s) == multiset(t)
    ensures x in s <==> x in t
  {
    assert x in s <==> x in multiset(s);
    assert x in t <==> x in multiset(t);
  }

  lemma {:induction false} SeparationReordered(s: seq<Triple>, t: seq<Triple>, reference: bool)
    requires multiset(s) == multiset(t) && KeysSeparate(s, reference)
    ensures KeysSeparate(t, reference)
  {
    forall i, j | 0 <= i < |t| && 0 <= j < |t| && Key(t[i], reference) == Key(t[j], reference) ensures t[i] == t[j] {
      SameElements(s, t, t[i]);
      SameElements(s, t, t[j]);
      var k :| 0 <= k < |s| && s[k] == t[i];
      var l :| 0 <= l < |s| && s[l] == t[j];
    }
  }

  /** When keys separate, the last element is determined. */
  lemma {:induction false} LastIsUnique(s: seq<Triple>, t: seq<Triple>, reference: bool)
    requires multiset(s) == multiset(t) && |s| == |t| > 0 && SortedByKey(s, reference) && SortedByKey(t, reference)
    requires KeysSeparate(s, reference)
    ensures s[|s| - 1] == t[|t| - 1]
  {
    var n := |s| - 1;
    SameElements(s, t, s[n]);
    SameElements(s, t, t[n]);
    var i :| 0 <= i < |t| && t[i] == s[n];
    var j :| 0 <= j < |s| && s[j] == t[n];
    assert Key(t[i], reference) <= Key(t[n], reference) && Key(s[j], reference) <= Key(s[n], reference);
  }

  lemma {:induction false} FrontKeepsOrder(s: seq<Triple>, reference: bool, n: nat)
    requires n <= |s| && SortedByKey(s, reference)
    ensures SortedByKey(s[..n], reference)
    ensures KeysSeparate(s, reference) ==> KeysSeparate(s[..n], reference)
  {
  }

  lemma {:induction false} DropLast(s: seq<Triple>, t: seq<Triple>)
    requires multiset(s) == multiset(t) && |s| == |t| > 0 && s[|s| - 1] == t[|t| - 1]
    ensures multiset(s[..|s| - 1]) == multiset(t[..|s| - 1])
  {
    var n := |s| - 1;
    MultisetWithout(s, n);
    MultisetWithout(t, n);
    assert s[..n] + s[n + 1..] == s[..n] && t[..n] + t[n + 1..] == t[..n];
  }

  /** When keys separate, there is only one sorted order. */
  lemma {:induction false} SortIsUnique(s: seq<Triple>, t: seq<Triple>, reference: bool)
    requires multiset(s) == multiset(t) && |s| == |t| && SortedByKey(s, reference) && SortedByKey(t, reference)
    requires KeysSeparate(s, reference)
    ensures s == t
    decreases |s|
  {
    if s != [] {
      var n := |s| - 1;
      LastIsUnique(s, t, reference);
      DropLast(s, t);
      FrontKeepsOrder(s, reference, n);
      FrontKeepsOrder(t, reference, n);
      SortIsUnique(s[..n], t[..n], reference);
      assert s == s[..n] + [s[n]] && t == t[..n] + [t[n]];
    }
  }

  lemma {:induction false} SwapSorted(s: seq<Triple>, reference: bool)
    requires SortedByKey(s, !reference)
    ensures SortedByKey(Map(s, Swap), reference)
  {
  }

  /** The halves are mirror images: same order, point lists exchanged, same interface numbers. */
  ghost predicate Mirror(outA: seq<Triple>, outB: seq<Triple>) {
    outA == Map(outB, Swap)
  }

  /** Halves that are sorted by the same ids mirror each other, provided no two entries share such an id. */
  lemma {:induction false} SortedHalvesMirror(joins: seq<PartJoin>, sizes: seq<nat>, inbox: int -> seq<Tuple>, a: PartJoin, b: PartJoin,
                                              reference: bool, outA: seq<Triple>, outB: seq<Triple>)
    requires Setting(joins, sizes, inbox) && a in joins && b in joins && b.gc == Opposite(a.gc)
    requires IsSubJoin(outA, RecoveredRows(joins, sizes, inbox, a), PartOf(b), reference)
    requires IsSubJoin(outB, RecoveredRows(joins, sizes, inbox, b), PartOf(a), !reference)
    requires KeysSeparate(Facing(RecoveredRows(joins, sizes, inbox, a), PartOf(b)), reference)
    ensures Mirror(outA, outB)
  {
    var fa := Facing(RecoveredRows(joins, sizes, inbox, a), PartOf(b));
    var fb := Facing(RecoveredRows(joins, sizes, inbox, b), PartOf(a));
    HalvesHaveSamePairs(joins, sizes, inbox, a, b);
    MapReordered(outB, fb, Swap);
    SwapSorted(outB, reference);
    SeparationReordered(fa, outA, reference);
    assert |outA| == |multiset(outA)| == |multiset(Map(outB, Swap))| == |Map(outB, Swap)|;
    SortIsUnique(outA, Map(outB, Swap), reference);
  }

  // ---------------------------------------------------------------- which joins separate their entries

  /** Both partitions have the entity of the entry, each under its id. */
  ghost predicate Shared(a: PartJoin, b: PartJoin, t: Triple) {
    (t.pl, t.gn) in JoinRecovery.Entries(a) && (t.pld, t.gn) in JoinRecovery.Entries(b)
  }

  /** No two different entries shared by the partitions have the same id on the reference side. */
  ghost predicate Unambiguous(a: PartJoin, b: PartJoin, reference: bool) {
    forall t, u {:trigger Shared(a, b, t), Shared(a, b, u)} ::
      Shared(a, b, t) && Shared(a, b, u) && Key(t, reference) == Key(u, reference) ==> t == u
  }

  lemma {:induction false} SharedIsCounted(a: PartJoin, b: PartJoin, t: Triple)
    ensures Shared(a, b, t) <==> PairCount(a, b, t) > 0
  {
    ProductIsPositive(EntryCount(a, t.pl, t.gn), EntryCount(b, t.pld, t.gn));
    EntryIsCounted(a, t.pl, t.gn);
    EntryIsCounted(b, t.pld, t.gn);
  }

  lemma {:induction false} EntryIsCounted(j: PartJoin, pl: int, gn: int)
    ensures (pl, gn) in JoinRecovery.Entries(j) <==> EntryCount(j, pl, gn) > 0
  {
    var e := JoinRecovery.Entries(j);
    if (pl, gn) in e { var i :| 0 <= i < |e| && e[i] == (pl, gn); CountSome(e, Is((pl, gn)), i); }
    if EntryCount(j, pl, gn) > 0 { var i := CountWitness(e, Is((pl, gn))); }
  }

  /** The entries of a sub-join are those shared by the two partitions. */
  lemma {:induction false} FacingIsShared(joins: seq<PartJoin>, sizes: seq<nat>, inbox: int -> seq<Tuple>, a: PartJoin, b: PartJoin, t: Triple)
    requires Setting(joins, sizes, inbox) && a in joins && b in joins && b.gc == Opposite(a.gc)
    ensures t in Facing(RecoveredRows(joins, sizes, inbox, a), PartOf(b)) <==> Shared(a, b, t)
  {
    var fa := Facing(RecoveredRows(joins, sizes, inbox, a), PartOf(b));
    FacingIsProduct(joins, sizes, inbox, a, b, t);
    SharedIsCounted(a, b, t);
    assert t in fa <==> t in multiset(fa);
  }

  lemma {:induction false} SeparateIsUnambiguous(joins: seq<PartJoin>, sizes: seq<nat>, inbox: int -> seq<Tuple>, a: PartJoin, b: PartJoin,
                                                 reference: bool)
    requires Setting(joins, sizes, inbox) && a in joins && b in joins && b.gc == Opposite(a.gc)
    ensures KeysSeparate(Facing(RecoveredRows(joins, sizes, inbox, a), PartOf(b)), reference) <==> Unambiguous(a, b, reference)
  {
    var fa := Facing(RecoveredRows(joins, sizes, inbox, a), PartOf(b));
    if KeysSeparate(fa, reference) {
      forall t, u | Shared(a, b, t) && Shared(a, b, u) && Key(t, reference) == Key(u, reference) ensures t == u {
        FacingIsShared(joins, sizes, inbox, a, b, t);
        FacingIsShared(joins, sizes, inbox, a, b, u);
        var i :| 0 <= i < |fa| && fa[i] == t;
        var j :| 0 <= j < |fa| && fa[j] == u;
      }
    }
    if Unambiguous(a, b, reference) {
      forall i, j | 0 <= i < |fa| && 0 <= j < |fa| && Key(fa[i], reference) == Key(fa[j], reference) ensures fa[i] == fa[j] {
        FacingIsShared(joins, sizes, inbox, a, b, fa[i]);
        FacingIsShared(joins, sizes, inbox, a, b, fa[j]);
      }
    }
  }

  /** Local ids and interface numbers do not repeat within the join of a partition. */
  ghost predicate Unrepeating(j: PartJoin) {
    NoRepeat(j.pl) && NoRepeat(j.gn)
  }

  /** Ids and numbers that do not repeat are enough, whichever side is the reference. */
  lemma {:induction false} UnrepeatingSeparates(a: PartJoin, b: PartJoin, reference: bool)
    requires Unrepeating(a) && Unrepeating(b) && |a.pl| == |a.gn| && |b.pl| == |b.gn|
    ensures Unambiguous(a, b, reference)
  {
    forall t, u | Shared(a, b, t) && Shared(a, b, u) && Key(t, reference) == Key(u, reference) ensures t == u {
      var i := EntryPosition(a, t.pl, t.gn);
      var k := EntryPosition(b, t.pld, t.gn);
      var i' := EntryPosition(a, u.pl, u.gn);
      var k' := EntryPosition(b, u.pld, u.gn);
      if reference { assert i == i'; assert k == k'; } else { assert k == k'; assert i == i'; }
    }
  }

  lemma {:induction false} EntryPosition(j: PartJoin, pl: int, gn: int) returns (i: nat)
    requires |j.pl| == |j.gn| && (pl, gn) in JoinRecovery.Entries(j)
    ensures i < |j.pl| && j.pl[i] == pl && j.gn[i] == gn
  {
    i :| 0 <= i < |j.pl| && JoinRecovery.Entries(j)[i] == (pl, gn);
  }

  /**
   Two partitions that face each other across an interface end up with mirror images, although each finds the reference side
   and sorts on its own, when the entries they share have different ids on the reference side.
   */
  lemma {:induction false} HalvesMirror(joins: seq<PartJoin>, sizes: seq<nat>, inbox: int -> seq<Tuple>, a: PartJoin, b: PartJoin,
                                        sideA: Side, sideB: Side, outA: seq<Triple>, outB: seq<Triple>)
    requires Setting(joins, sizes, inbox) && a in joins && b in joins && b.gc == Opposite(a.gc)
    requires '/' !in sideA.name && '/' !in sideB.name && sideA != sideB
    requires IsSubJoin(outA, RecoveredRows(joins, sizes, inbox, a), PartOf(b), IsReference(sideA, sideB))
    requires IsSubJoin(outB, RecoveredRows(joins, sizes, inbox, b), PartOf(a), IsReference(sideB, sideA))
    requires Unambiguous(a, b, IsReference(sideA, sideB))
    ensures Mirror(outA, outB)
  {
    OneReference(sideA, sideB);
    SeparateIsUnambiguous(joins, sizes, inbox, a, b, IsReference(sideA, sideB));
    SortedHalvesMirror(joins, sizes, inbox, a, b, IsReference(sideA, sideB), outA, outB);
  }

  // ---------------------------------------------------------------- exactly when the halves mirror each other

  ghost function InsertTriple(t: Triple, s: seq<Triple>, reference: bool): (r: seq<Triple>)
    requires SortedByKey(s, reference)
    ensures multiset(r) == multiset(s) + multiset{t} && SortedByKey(r, reference)
    decreases |s|
  {
    if s == [] then [t]
    else
      var n := |s| - 1;
      assert s == s[..n] + [s[n]];
      if Key(s[n], reference) <= Key(t, reference) then s + [t]
      else
        var front := InsertTriple(t, s[..n], reference);
        InsertedBelow(t, s, front, reference);
        front + [s[n]]
  }

  lemma {:induction false} InsertedBelow(t: Triple, s: seq<Triple>, front: seq<Triple>, reference: bool)
    requires s != [] && SortedByKey(s, reference) && SortedByKey(front, reference)
    requires multiset(front) == multiset(s[..|s| - 1]) + multiset{t} && Key(t, reference) < Key(s[|s| - 1], reference)
    ensures SortedByKey(front + [s[|s| - 1]], reference)
  {
    var n := |s| - 1;
    forall i | 0 <= i < |front| ensures Key(front[i], reference) <= Key(s[n], reference) {
      assert front[i] in multiset(front);
      if front[i] != t {
        assert front[i] in s[..n];
        var k :| 0 <= k < n && s[k] == front[i];
      }
    }
  }

  ghost function SortTriples(s: seq<Triple>, reference: bool): (r: seq<Triple>)
    ensures multiset(r) == multiset(s) && SortedByKey(r, reference)
    decreases |s|
  {
    if s == [] then []
    else
      assert s == s[..|s| - 1] + [s[|s| - 1]];
      InsertTriple(s[|s| - 1], SortTriples(s[..|s| - 1], reference), reference)
  }

  /** Whatever the order of ties, the halves built by two partitions mirror each other. */
  ghost predicate AlwaysMirror(rowsA: seq<Row>, rowsB: seq<Row>, partA: (nat, nat), partB: (nat, nat), reference: bool) {
    forall outA, outB :: IsSubJoin(outA, rowsA, partB, reference) && IsSubJoin(outB, rowsB, partA, !reference) ==> Mirror(outA, outB)
  }

  lemma {:induction false} SwapTwice(s: seq<Triple>)
    ensures Map(Map(s, Swap), Swap) == s
  {
  }

  lemma {:induction false} ExchangeTwo(s: seq<Triple>, p: nat, q: nat, reference: bool)
    requires p < |s| && q < |s| && SortedByKey(s, reference) && Key(s[p], reference) == Key(s[q], reference)
    ensures var r := s[p := s[q]][q := s[p]];
            multiset(r) == multiset(s) && SortedByKey(r, reference)
  {
    var r := s[p := s[q]][q := s[p]];
    forall i | 0 <= i < |r| ensures Key(r[i], reference) == Key(s[i], reference) {}
  }

  /** Any sorted listing of the pairs is a possible half, seen from the other side. */
  lemma {:induction false} SwappedIsSubJoin(fa: seq<Triple>, rowsB: seq<Row>, partA: (nat, nat), reference: bool, s: seq<Triple>)
    requires multiset(Map(Facing(rowsB, partA), Swap)) == multiset(fa) == multiset(s) && SortedByKey(s, reference)
    ensures IsSubJoin(Map(s, Swap), rowsB, partA, !reference)
  {
    var fb := Facing(rowsB, partA);
    MapReordered(Map(fb, Swap), s, Swap);
    SwapTwice(fb);
    SwapSorted(s, !reference);
  }

  /** Two different entries with the same reference id can be listed in different orders by the two partitions. */
  lemma {:induction false} TieBreaksMirror(rowsA: seq<Row>, rowsB: seq<Row>, partA: (nat, nat), partB: (nat, nat), reference: bool,
                                           t: Triple, u: Triple)
    requires multiset(Map(Facing(rowsB, partA), Swap)) == multiset(Facing(rowsA, partB))
    requires t in Facing(rowsA, partB) && u in Facing(rowsA, partB)
    requires t != u && Key(t, reference) == Key(u, reference)
    ensures !AlwaysMirror(rowsA, rowsB, partA, partB, reference)
  {
    var fa := Facing(rowsA, partB);
    var s := SortTriples(fa, reference);
    SameElements(fa, s, t);
    SameElements(fa, s, u);
    var p :| 0 <= p < |s| && s[p] == t;
    var q :| 0 <= q < |s| && s[q] == u;
    ExchangeTwo(s, p, q, reference);
    var r := s[p := s[q]][q := s[p]];
    SwappedIsSubJoin(fa, rowsB, partA, reference, r);
    assert r[p] == u;
    Refuted(rowsA, rowsB, partA, partB, reference, s, r, p);
  }

  lemma {:induction false} Refuted(rowsA: seq<Row>, rowsB: seq<Row>, partA: (nat, nat), partB: (nat, nat), reference: bool,
                                   s: seq<Triple>, r: seq<Triple>, p: nat)
    requires IsSubJoin(s, rowsA, partB, reference) && IsSubJoin(Map(r, Swap), rowsB, partA, !reference)
    requires p < |s| == |r| && s[p] != r[p]
    ensures !AlwaysMirror(rowsA, rowsB, partA, partB, reference)
  {
    assert Map(Map(r, Swap), Swap)[p] == r[p];
    assert !Mirror(s, Map(r, Swap));
  }

  /** The halves always mirror each other if and only if shared entries with the same id on the reference side are equal. */
  lemma {:induction false} MirrorExactlyWhenSeparate(joins: seq<PartJoin>, sizes: seq<nat>, inbox: int -> seq<Tuple>, a: PartJoin, b: PartJoin,
                                                     reference: bool)
    requires Setting(joins, sizes, inbox) && a in joins && b in joins && b.gc == Opposite(a.gc)
    ensures AlwaysMirror(RecoveredRows(joins, sizes, inbox, a), RecoveredRows(joins, sizes, inbox, b), PartOf(a), PartOf(b), reference)
            <==> Unambiguous(a, b, reference)
  {
    var rowsA, rowsB := RecoveredRows(joins, sizes, inbox, a), RecoveredRows(joins, sizes, inbox, b);
    SeparateIsUnambiguous(joins, sizes, inbox, a, b, reference);
    if Unambiguous(a, b, reference) {
      forall outA, outB | IsSubJoin(outA, rowsA, PartOf(b), reference) && IsSubJoin(outB, rowsB, PartOf(a), !reference)
        ensures Mirror(outA, outB)
      {
        SortedHalvesMirror(joins, sizes, inbox, a, b, reference, outA, outB);
      }
    } else {
      var t, u :| Shared(a, b, t) && Shared(a, b, u) && Key(t, reference) == Key(u, reference) && t != u;
      FacingIsShared(joins, sizes, inbox, a, b, t);
      FacingIsShared(joins, sizes, inbox, a, b, u);
      HalvesHaveSamePairs(joins, sizes, inbox, a, b);
      TieBreaksMirror(rowsA, rowsB, PartOf(a), PartOf(b), reference, t, u);
    }
  }

  /** An interface number repeated within one partition breaks the mirror, even when local ids do not repeat. */
  lemma {:induction false} RepeatedNumberBreaksMirror()
    returns (joins: seq<PartJoin>, sizes: seq<nat>, inbox: int -> seq<Tuple>, a: PartJoin, b: PartJoin)
    ensures Setting(joins, sizes, inbox) && a in joins && b in joins && b.gc == Opposite(a.gc)
    ensures NoRepeat(a.pl) && NoRepeat(b.pl) && NoRepeat(b.gn)
    ensures !AlwaysMirror(RecoveredRows(joins, sizes, inbox, a), RecoveredRows(joins, sizes, inbox, b), PartOf(a), PartOf(b), false)
  {
    joins, sizes, inbox, a, b := RepeatedNumber();
    RepeatedIsAmbiguous(a, b);
    MirrorExactlyWhenSeparate(joins, sizes, inbox, a, b, false);
  }

  lemma {:induction false} RepeatedIsAmbiguous(a: PartJoin, b: PartJoin)
    requires a == PartJoin(0, 0, 0, [10, 11], [1, 1]) && b == PartJoin(1, 0, 1, [20], [1])
    ensures !Unambiguous(a, b, false)
  {
    var t, u := Triple(10, 20, 1), Triple(11, 20, 1);
    assert JoinRecovery.Entries(a)[0] == (10, 1) && JoinRecovery.Entries(a)[1] == (11, 1) && JoinRecovery.Entries(b)[0] == (20, 1);
    assert Shared(a, b, t) && Shared(a, b, u);
  }

  lemma {:induction false} RepeatedNumber()
    returns (joins: seq<PartJoin>, sizes: seq<nat>, inbox: int -> seq<Tuple>, a: PartJoin, b: PartJoin)
    ensures a == PartJoin(0, 0, 0, [10, 11], [1, 1]) && b == PartJoin(1, 0, 1, [20], [1])
    ensures Setting(joins, sizes, inbox) && a in joins && b in joins
  {
    a, b := PartJoin(0, 0, 0, [10, 11], [1, 1]), PartJoin(1, 0, 1, [20], [1]);
    joins, sizes := [a, b], [1];
    inbox := PostingOrder(joins, sizes);
    assert b in joins && a in joins && 1 in b.gn && 1 in a.gn;
    forall j, i: nat | j in joins && i < |j.gn| ensures CoveredAt(joins, j, i) {}
  }

  /** An exchange that delivers tuples in the order in which they were posted. */
  lemma {:induction false} PostingOrder(joins: seq<PartJoin>, sizes: seq<nat>) returns (inbox: int -> seq<Tuple>)
    ensures Delivers(inbox, joins, sizes)
  {
    inbox := (g: int) => Posted(joins, sizes, g);
    forall g ensures DeliversAt(inbox, joins, sizes, g) {}
  }
}

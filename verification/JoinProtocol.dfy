/**
 The join protocol as a whole (post_partitioning in maia/factory/partitioning/post_split.py): the opposite entities are
 recovered, the joins are split per opposite partition, and the sub-joins learn the names of their opposites.
 */
module JoinProtocol {
  import opened Basics
  import opened Conventions
  import opened Counting
  import opened DonorNames
  import opened JoinRecovery
  import opened JoinSplit
  import opened Strings

  /** Whether a join takes its own side for the reference. */
  predicate OwnIsReference(sides: seq<Side>, j: PartJoin) {
    IsReference(SideOf(sides, j.gc), SideOf(sides, Opposite(j.gc)))
  }

  /** The sub-joins of join `a`: one per opposite partition, each with the entries that face it, sorted. */
  ghost predicate SplitOk(joins: seq<PartJoin>, sizes: seq<nat>, inbox: int -> seq<Tuple>, sides: seq<Side>, opps: seq<(nat, nat)>,
                          subs: seq<SubJoin>, a: nat)
    requires Setting(joins, sizes, inbox) && a < |joins|
  {
    && |subs| == |opps|
    && forall k: nat {:trigger SubOk(joins, sizes, inbox, sides, opps[k], subs[k], a)} ::
         k < |subs| ==> SubOk(joins, sizes, inbox, sides, opps[k], subs[k], a)
  }

  ghost predicate SubOk(joins: seq<PartJoin>, sizes: seq<nat>, inbox: int -> seq<Tuple>, sides: seq<Side>, opp: (nat, nat), s: SubJoin, a: nat)
    requires Setting(joins, sizes, inbox) && a < |joins|
  {
    && s.opp == opp && |s.pl| == |s.pld| == |s.gn|
    && IsSubJoin(SubEntries(s), RecoveredRows(joins, sizes, inbox, joins[a]), opp, OwnIsReference(sides, joins[a]))
  }

  ghost predicate AllSplit(joins: seq<PartJoin>, sizes: seq<nat>, inbox: int -> seq<Tuple>, sides: seq<Side>, opps: seq<seq<(nat, nat)>>,
                           subs: seq<seq<SubJoin>>, n: nat)
    requires Setting(joins, sizes, inbox) && n <= |joins|
  {
    && |subs| == |opps| == n
    && forall a: nat {:trigger SplitOk(joins, sizes, inbox, sides, opps[a], subs[a], a)} :: a < n ==> SplitOk(joins, sizes, inbox, sides, opps[a], subs[a], a)
  }

  /** The opposite partitions of sub-joins. */
  function Opps(subs: seq<SubJoin>): (r: seq<(nat, nat)>)
    ensures |r| == |subs| && forall i :: 0 <= i < |r| ==> r[i] == subs[i].opp
  {
    seq(|subs|, i requires 0 <= i < |subs| => subs[i].opp)
  }

  /** The opposite partitions of join `a` are those it faces, in order. */
  ghost predicate OppsOk(joins: seq<PartJoin>, sizes: seq<nat>, inbox: int -> seq<Tuple>, opps: seq<(nat, nat)>, a: nat)
    requires Setting(joins, sizes, inbox) && a < |joins|
  {
    StrictlySorted(opps) && forall p {:trigger OppOk(joins, sizes, inbox, opps, a, p)} :: OppOk(joins, sizes, inbox, opps, a, p)
  }

  ghost predicate OppOk(joins: seq<PartJoin>, sizes: seq<nat>, inbox: int -> seq<Tuple>, opps: seq<(nat, nat)>, a: nat, p: (nat, nat))
    requires Setting(joins, sizes, inbox) && a < |joins|
  {
    p in opps <==> Facing(RecoveredRows(joins, sizes, inbox, joins[a]), p) != []
  }

  /** Split one recovered join. */
  method SplitOne(joins: seq<PartJoin>, ghost sizes: seq<nat>, ghost inbox: int -> seq<Tuple>, sides: seq<Side>, full: FullJoin, a: nat)
    returns (subs: seq<SubJoin>)
    requires Setting(joins, sizes, inbox) && a < |joins|
    requires Even(full) && Rows(full) == RecoveredRows(joins, sizes, inbox, joins[a])
    ensures OppsOk(joins, sizes, inbox, Opps(subs), a) && SplitOk(joins, sizes, inbox, sides, Opps(subs), subs, a)
  {
    subs := SplitJoin(full, SideOf(sides, joins[a].gc), SideOf(sides, Opposite(joins[a].gc)));
    forall p ensures OppOk(joins, sizes, inbox, Opps(subs), a, p) {
      FacedIsDonor(full, p);
      if i :| 0 <= i < |subs| && subs[i].opp == p { assert Opps(subs)[i] == p; }
    }
  }

  ghost predicate AllOpps(joins: seq<PartJoin>, sizes: seq<nat>, inbox: int -> seq<Tuple>, opps: seq<seq<(nat, nat)>>, n: nat)
    requires Setting(joins, sizes, inbox) && n <= |joins|
  {
    |opps| == n && forall a: nat {:trigger OppsOk(joins, sizes, inbox, opps[a], a)} :: a < n ==> OppsOk(joins, sizes, inbox, opps[a], a)
  }

  lemma {:induction false} OneMoreSplit(joins: seq<PartJoin>, sizes: seq<nat>, inbox: int -> seq<Tuple>, sides: seq<Side>, opps: seq<seq<(nat, nat)>>,
                                        subs: seq<seq<SubJoin>>, n: nat, opp: seq<(nat, nat)>, sub: seq<SubJoin>)
    requires Setting(joins, sizes, inbox) && n < |joins|
    requires AllSplit(joins, sizes, inbox, sides, opps, subs, n) && SplitOk(joins, sizes, inbox, sides, opp, sub, n)
    ensures AllSplit(joins, sizes, inbox, sides, opps + [opp], subs + [sub], n + 1)
  {
    var o, s := opps + [opp], subs + [sub];
    assert o[n] == opp && s[n] == sub;
    forall a: nat | a < n + 1 ensures SplitOk(joins, sizes, inbox, sides, o[a], s[a], a) {
      if a < n {
        assert o[a] == opps[a] && s[a] == subs[a];
        assert SplitOk(joins, sizes, inbox, sides, opps[a], subs[a], a);
      }
    }
  }

  lemma {:induction false} OneMoreOpps(joins: seq<PartJoin>, sizes: seq<nat>, inbox: int -> seq<Tuple>, opps: seq<seq<(nat, nat)>>, n: nat,
                                       opp: seq<(nat, nat)>)
    requires Setting(joins, sizes, inbox) && n < |joins|
    requires AllOpps(joins, sizes, inbox, opps, n) && OppsOk(joins, sizes, inbox, opp, n)
    ensures AllOpps(joins, sizes, inbox, opps + [opp], n + 1)
  {
    var o := opps + [opp];
    assert o[n] == opp;
    forall a: nat | a < n + 1 ensures OppsOk(joins, sizes, inbox, o[a], a) {
      if a < n {
        assert o[a] == opps[a];
        assert OppsOk(joins, sizes, inbox, opps[a], a);
      }
    }
  }

  /** Recover and split all joins. */
  method RecoverAndSplit(joins: seq<PartJoin>, sizes: seq<nat>, inbox: int -> seq<Tuple>, sides: seq<Side>)
    returns (opps: seq<seq<(nat, nat)>>, subs: seq<seq<SubJoin>>)
    requires Setting(joins, sizes, inbox)
    ensures AllSplit(joins, sizes, inbox, sides, opps, subs, |joins|) && AllOpps(joins, sizes, inbox, opps, |joins|)
  {
    var full := GetPointListDonors(joins, sizes, inbox);
    opps, subs := [], [];
    for a := 0 to |joins|
      invariant AllSplit(joins, sizes, inbox, sides, opps, subs, a) && AllOpps(joins, sizes, inbox, opps, a)
    {
      var s := SplitOne(joins, sizes, inbox, sides, full[a], a);
      OneMoreSplit(joins, sizes, inbox, sides, opps, subs, a, Opps(s), s);
      OneMoreOpps(joins, sizes, inbox, opps, a, Opps(s));
      opps, subs := opps + [Opps(s)], subs + [s];
    }
  }

  /** The sub-joins on one rank. */
  method BuildRank(sides: seq<Side>, joins: seq<PartJoin>, opps: seq<seq<(nat, nat)>>, r: nat) returns (gcs: seq<Gc>)
    requires |joins| == |opps|
    ensures gcs == SplitGcs(sides, joins, opps, r, |joins|)
  {
    gcs := [];
    for n := 0 to |joins|
      invariant gcs == SplitGcs(sides, joins, opps, r, n)
    {
      if joins[n].rank == r { gcs := gcs + SubGcs(sides, joins[n], opps[n]); }
    }
  }

  method BuildTree(sides: seq<Side>, joins: seq<PartJoin>, opps: seq<seq<(nat, nat)>>, size: nat) returns (tree: seq<seq<Gc>>)
    requires |joins| == |opps|
    ensures tree == SplitTree(sides, joins, opps, size)
  {
    tree := [];
    for r := 0 to size
      invariant |tree| == r && forall q: nat :: q < r ==> tree[q] == SplitGcs(sides, joins, opps, q, |joins|)
    {
      var gcs := BuildRank(sides, joins, opps, r);
      tree := tree + [gcs];
    }
  }

  // ---------------------------------------------------------------- what the tree says

  /** How many sub-joins the first `n` joins have on rank `r`. */
  ghost function Earlier(joins: seq<PartJoin>, opps: seq<seq<(nat, nat)>>, r: nat, n: nat): nat
    requires n <= |joins| == |opps|
  {
    if n == 0 then 0 else Earlier(joins, opps, r, n - 1) + if joins[n - 1].rank == r then |opps[n - 1]| else 0
  }

  lemma {:induction false} EarlierIsSize(sides: seq<Side>, joins: seq<PartJoin>, opps: seq<seq<(nat, nat)>>, r: nat, n: nat)
    requires n <= |joins| == |opps|
    ensures |SplitGcs(sides, joins, opps, r, n)| == Earlier(joins, opps, r, n)
    decreases n
  {
    if n > 0 { EarlierIsSize(sides, joins, opps, r, n - 1); }
  }

  /** The place of sub-join `k` of join `a` among those of its rank. */
  ghost function Place(joins: seq<PartJoin>, opps: seq<seq<(nat, nat)>>, a: nat, k: nat): nat
    requires |joins| == |opps| && a < |joins|
  {
    Earlier(joins, opps, joins[a].rank, a) + k
  }

  lemma {:induction false} HasPlace(sides: seq<Side>, joins: seq<PartJoin>, opps: seq<seq<(nat, nat)>>, size: nat, a: nat, k: nat)
    requires |joins| == |opps| && a < |joins| && k < |opps[a]| && joins[a].rank < size
    ensures Place(joins, opps, a, k) < |SplitTree(sides, joins, opps, size)[joins[a].rank]|
    ensures SplitTree(sides, joins, opps, size)[joins[a].rank][Place(joins, opps, a, k)] == SubGc(sides, joins[a], opps[a], k)
  {
    EarlierIsSize(sides, joins, opps, joins[a].rank, a);
    var i := SplitHas(sides, joins, opps, |joins|, a, k);
  }

  /** Partitions that come before `p`: on a smaller rank, or with a smaller number on the same rank. */
  function Before(p: (nat, nat)): ((nat, nat)) -> bool {
    (q: (nat, nat)) => q.0 < p.0 || (q.0 == p.0 && q.1 < p.1)
  }

  lemma {:induction false} RankAmong(ps: seq<(nat, nat)>, k: nat, n: nat)
    requires StrictlySorted(ps) && k < |ps| && n <= |ps|
    ensures Count(ps[..n], Before(ps[k])) == if n < k then n else k
    decreases n
  {
    if n > 0 {
      RankAmong(ps, k, n - 1);
      assert ps[..n][..n - 1] == ps[..n - 1];
      if n - 1 < k { assert PartLess(ps[n - 1], ps[k]); }
      if n - 1 > k { assert PartLess(ps[k], ps[n - 1]); }
    }
  }

  /**
   The sub-join of the given join towards partition `p`.  It is named after the join, with the number of faced partitions that
   come before `p`; it lies in the partition of the join, and points to partition `p` of the opposite zone.
   */
  ghost predicate Spelled(g: Gc, own: Side, other: Side, j: PartJoin, faced: seq<(nat, nat)>, p: (nat, nat)) {
    && SplitPrefix(g.name) == Some(own.name)
    && IsNumber(AfterLastDot(g.name)) && NumberOf(AfterLastDot(g.name)) == Count(faced, Before(p))
    && PartPrefix(g.zone) == Some(own.zone) && PartSuffix(g.zone) == Some(PartOf(j))
    && PartPrefix(g.opp) == Some(other.zone) && PartSuffix(g.opp) == Some(p)
    && g.donor == other.name
  }

  lemma {:induction false} SubGcIsSpelled(sides: seq<Side>, j: PartJoin, opps: seq<(nat, nat)>, k: nat)
    requires StrictlySorted(opps) && k < |opps|
    ensures Spelled(SubGc(sides, j, opps, k), SideOf(sides, j.gc), SideOf(sides, Opposite(j.gc)), j, opps, opps[k])
  {
    var own, other := SideOf(sides, j.gc), SideOf(sides, Opposite(j.gc));
    SplitRoundTrip(own.name, k);
    SplitNumber(own.name, k);
    PartRoundTrip(own.zone, j.rank, j.part);
    PartRoundTrip(other.zone, opps[k].0, opps[k].1);
    RankAmong(opps, k, |opps|);
    assert opps[..|opps|] == opps;
  }

  /** Sub-join `k` of join `a` is in the tree. */
  ghost predicate InTree(tree: seq<seq<Gc>>, sides: seq<Side>, joins: seq<PartJoin>, opps: seq<seq<(nat, nat)>>, a: nat, k: nat)
    requires |joins| == |opps| && a < |joins| && k < |opps[a]|
  {
    var j := joins[a];
    && j.gc < |sides| && Opposite(j.gc) < |sides|
    && j.rank < |tree| && Place(joins, opps, a, k) < |tree[j.rank]|
    && Spelled(tree[j.rank][Place(joins, opps, a, k)], sides[j.gc], sides[Opposite(j.gc)], j, opps[a], opps[a][k])
  }

  /** Entry `i` of rank `r` is a sub-join of some join. */
  ghost predicate Comes(joins: seq<PartJoin>, opps: seq<seq<(nat, nat)>>, r: nat, i: nat)
    requires |joins| == |opps|
  {
    exists a: nat, k: nat {:trigger Place(joins, opps, a, k)} :: a < |joins| && k < |opps[a]| && joins[a].rank == r && Place(joins, opps, a, k) == i
  }

  /** Two joins of one zone never have the same name. */
  ghost predicate OneName(tree: seq<seq<Gc>>) {
    forall r: nat, i: nat, s: nat, m: nat {:trigger tree[r][i], tree[s][m]} ::
      r < |tree| && i < |tree[r]| && s < |tree| && m < |tree[s]| && tree[r][i].zone == tree[s][m].zone && tree[r][i].name == tree[s][m].name
      ==> r == s && i == m
  }

  /** The zone and the donor name that a join gives lead to join `m` of rank `s`. */
  ghost predicate Leads(tree: seq<seq<Gc>>, donors: seq<seq<string>>, r: nat, i: nat, s: nat, m: nat) {
    && r < |tree| && i < |tree[r]| && r < |donors| && i < |donors[r]| && s < |tree| && m < |tree[s]|
    && tree[s][m].zone == tree[r][i].opp && tree[s][m].name == donors[r][i]
  }

  /** They lead to exactly one join, which leads back. */
  ghost predicate LeadsToOne(tree: seq<seq<Gc>>, donors: seq<seq<string>>, r: nat, i: nat) {
    exists s: nat, m: nat {:trigger Leads(tree, donors, r, i, s, m)} ::
      && Leads(tree, donors, r, i, s, m) && Leads(tree, donors, s, m, r, i)
      && forall s': nat, m': nat {:trigger Leads(tree, donors, r, i, s', m')} :: Leads(tree, donors, r, i, s', m') ==> s' == s && m' == m
  }

  lemma {:induction false} SubGcNamesDiffer(joins: seq<PartJoin>, sizes: seq<nat>, inbox: int -> seq<Tuple>, opps: seq<seq<(nat, nat)>>,
                                            sides: seq<Side>, size: nat, a: nat, k: nat, b: nat, l: nat)
    requires SplitSetting(joins, sizes, inbox, opps, sides, size)
    requires a < |joins| && k < |opps[a]| && b < |joins| && l < |opps[b]|
    requires SubGc(sides, joins[a], opps[a], k).zone == SubGc(sides, joins[b], opps[b], l).zone
    requires SubGc(sides, joins[a], opps[a], k).name == SubGc(sides, joins[b], opps[b], l).name
    ensures a == b && k == l
  {
    var x, y := joins[a], joins[b];
    assert JoinOk(x, sizes) && JoinOk(y, sizes);
    PartNamesDiffer(sides[x.gc].zone, x.rank, x.part, sides[y.gc].zone, y.rank, y.part);
    SplitNamesDiffer(sides[x.gc].name, k, sides[y.gc].name, l);
    assert sides[x.gc] == sides[y.gc];
    assert x.gc == y.gc;
  }

  /** The tree has one entry for each sub-join, spelled as it should be, and no other, and names tell the joins of a zone apart. */
  lemma {:induction false} TreeIsSpelled(joins: seq<PartJoin>, sizes: seq<nat>, inbox: int -> seq<Tuple>, opps: seq<seq<(nat, nat)>>,
                                         sides: seq<Side>, size: nat, a: nat, k: nat)
    requires SplitSetting(joins, sizes, inbox, opps, sides, size) && a < |joins| && k < |opps[a]|
    ensures InTree(SplitTree(sides, joins, opps, size), sides, joins, opps, a, k)
  {
    assert JoinOk(joins[a], sizes) && OppsAt(joins, sizes, inbox, opps, a);
    HasPlace(sides, joins, opps, size, a, k);
    SubGcIsSpelled(sides, joins[a], opps[a], k);
  }

  lemma {:induction false} NothingElse(joins: seq<PartJoin>, opps: seq<seq<(nat, nat)>>, sides: seq<Side>, size: nat, r: nat, i: nat)
    requires |joins| == |opps| && r < size && i < |SplitTree(sides, joins, opps, size)[r]|
    ensures Comes(joins, opps, r, i)
  {
    var a, k := SplitMember(sides, joins, opps, r, |joins|, i);
    EarlierIsSize(sides, joins, opps, r, a);
    assert Place(joins, opps, a, k) == i;
  }

  lemma {:induction false} NamesTellApart(joins: seq<PartJoin>, sizes: seq<nat>, inbox: int -> seq<Tuple>, opps: seq<seq<(nat, nat)>>,
                                          sides: seq<Side>, size: nat)
    requires SplitSetting(joins, sizes, inbox, opps, sides, size)
    ensures OneName(SplitTree(sides, joins, opps, size))
  {
    var t: seq<seq<Gc>> := SplitTree(sides, joins, opps, size);
    forall r: nat, i: nat, s: nat, m: nat |
      r < |t| && i < |t[r]| && s < |t| && m < |t[s]| && t[r][i].zone == t[s][m].zone && t[r][i].name == t[s][m].name
      ensures r == s && i == m
    {
      var a, k := SplitMember(sides, joins, opps, r, |joins|, i);
      var b, l := SplitMember(sides, joins, opps, s, |joins|, m);
      SubGcNamesDiffer(joins, sizes, inbox, opps, sides, size, a, k, b, l);
    }
  }

  lemma {:induction false} DonorIsUnique(tree: seq<seq<Gc>>, donors: seq<seq<string>>, r: nat, i: nat)
    requires Placed(tree) && Paired(tree) && Named(tree, donors) && OneName(tree) && r < |tree| && i < |tree[r]| && IsInitial(tree[r][i])
    ensures LeadsToOne(tree, donors, r, i)
  {
    var s, m := NamingIsInvolution(tree, donors, r, i);
    assert Leads(tree, donors, r, i, s, m) && Leads(tree, donors, s, m, r, i);
    forall s': nat, m': nat | Leads(tree, donors, r, i, s', m') ensures s' == s && m' == m {
      assert tree[s'][m'].zone == tree[s][m].zone && tree[s'][m'].name == tree[s][m].name;
    }
  }

  /** The donor name of sub-join `k` of join `a` is the name of sub-join `l` of join `b`. */
  ghost predicate Names(tree: seq<seq<Gc>>, joins: seq<PartJoin>, opps: seq<seq<(nat, nat)>>, donors: seq<seq<string>>, a: nat, k: nat, b: nat, l: nat)
    requires |joins| == |opps| && a < |joins| && b < |joins|
  {
    && joins[a].rank < |donors| && Place(joins, opps, a, k) < |donors[joins[a].rank]|
    && joins[b].rank < |tree| && Place(joins, opps, b, l) < |tree[joins[b].rank]|
    && donors[joins[a].rank][Place(joins, opps, a, k)] == tree[joins[b].rank][Place(joins, opps, b, l)].name
  }

  /** Both sub-joins belong to the two sides of one interface, and to the two partitions that face each other. */
  ghost predicate FaceEachOther(joins: seq<PartJoin>, opps: seq<seq<(nat, nat)>>, a: nat, k: nat, b: nat, l: nat)
    requires |joins| == |opps| && a < |joins| && k < |opps[a]|
  {
    && b < |joins| && l < |opps[b]| && joins[b].gc == Opposite(joins[a].gc)
    && opps[a][k] == PartOf(joins[b]) && opps[b][l] == PartOf(joins[a])
  }

  /** Sub-joins that are opposites of each other name each other. */
  lemma {:induction false} OppositesNameEachOther(joins: seq<PartJoin>, sizes: seq<nat>, inbox: int -> seq<Tuple>, opps: seq<seq<(nat, nat)>>,
                                                  sides: seq<Side>, size: nat, donors: seq<seq<string>>, a: nat, k: nat) returns (b: nat, l: nat)
    requires SplitSetting(joins, sizes, inbox, opps, sides, size) && a < |joins| && k < |opps[a]|
    requires Named(SplitTree(sides, joins, opps, size), donors)
    ensures FaceEachOther(joins, opps, a, k, b, l)
    ensures Names(SplitTree(sides, joins, opps, size), joins, opps, donors, a, k, b, l)
    ensures Names(SplitTree(sides, joins, opps, size), joins, opps, donors, b, l, a, k)
  {
    b, l := SubGcFacesBack(joins, sizes, inbox, opps, sides, size, a, k);
    OppositeIsNamed(joins, sizes, opps, sides, size, donors, a, k, b, l);
    OppositeIsNamed(joins, sizes, opps, sides, size, donors, b, l, a, k);
  }

  lemma {:induction false} OppositeIsNamed(joins: seq<PartJoin>, sizes: seq<nat>, opps: seq<seq<(nat, nat)>>, sides: seq<Side>, size: nat,
                                           donors: seq<seq<string>>, a: nat, k: nat, b: nat, l: nat)
    requires |joins| == |opps| && a < |joins| && k < |opps[a]| && b < |joins| && l < |opps[b]|
    requires DistinctSides(sides, 2 * |sizes|) && JoinOk(joins[a], sizes) && joins[a].rank < size && joins[b].rank < size
    requires opps[a][k] == PartOf(joins[b]) && Named(SplitTree(sides, joins, opps, size), donors)
    requires Opposes(SubGc(sides, joins[b], opps[b], l), SubGc(sides, joins[a], opps[a], k))
    requires Opposes(SubGc(sides, joins[a], opps[a], k), SubGc(sides, joins[b], opps[b], l))
    ensures Names(SplitTree(sides, joins, opps, size), joins, opps, donors, a, k, b, l)
  {
    var t: seq<seq<Gc>> := SplitTree(sides, joins, opps, size);
    HasPlace(sides, joins, opps, size, a, k);
    HasPlace(sides, joins, opps, size, b, l);
    SubGcAddressed(sides, joins[a], opps[a], k);
    PairIsNamed(t, donors, joins[a].rank, Place(joins, opps, a, k), joins[b].rank, Place(joins, opps, b, l));
  }

  lemma {:induction false} SubGcAddressed(sides: seq<Side>, j: PartJoin, opps: seq<(nat, nat)>, k: nat)
    requires k < |opps| && j.gc < |sides| && DistinctSides(sides, |sides|)
    ensures OppRank(SubGc(sides, j, opps, k)) == Some(opps[k].0)
  {
    SubGcPlaced(sides, j, opps, k);
  }

  lemma {:induction false} PairIsNamed(t: seq<seq<Gc>>, donors: seq<seq<string>>, r: nat, i: nat, s: nat, m: nat)
    requires Named(t, donors) && r < |t| && i < |t[r]| && s < |t| && m < |t[s]|
    requires OppRank(t[r][i]) == Some(s) && Opposes(t[s][m], t[r][i]) && Opposes(t[r][i], t[s][m])
    ensures r < |donors| && i < |donors[r]| && donors[r][i] == t[s][m].name
  {
    assert PairedAt(t, r, i, m);
    assert NamedAt(t, r, i, donors[r][i]);
  }

  /** Sub-joins that are opposites of each other are mirror images, when the entries they share have different reference ids. */
  lemma {:induction false} OppositesMirror(joins: seq<PartJoin>, sizes: seq<nat>, inbox: int -> seq<Tuple>, opps: seq<seq<(nat, nat)>>,
                                           sides: seq<Side>, subs: seq<seq<SubJoin>>, a: nat, k: nat, b: nat, l: nat)
    requires Setting(joins, sizes, inbox) && DistinctSides(sides, 2 * |sizes|) && AllSplit(joins, sizes, inbox, sides, opps, subs, |joins|)
    requires a < |joins| && k < |opps[a]| && FaceEachOther(joins, opps, a, k, b, l)
    requires Unambiguous(joins[a], joins[b], OwnIsReference(sides, joins[a]))
    ensures k < |subs[a]| && l < |subs[b]| && SubOk(joins, sizes, inbox, sides, opps[a][k], subs[a][k], a) && SubOk(joins, sizes, inbox, sides, opps[b][l], subs[b][l], b)
    ensures Mirror(SubEntries(subs[a][k]), SubEntries(subs[b][l]))
  {
    var x, y := joins[a], joins[b];
    assert SplitOk(joins, sizes, inbox, sides, opps[a], subs[a], a) && SplitOk(joins, sizes, inbox, sides, opps[b], subs[b], b);
    assert SubOk(joins, sizes, inbox, sides, opps[a][k], subs[a][k], a) && SubOk(joins, sizes, inbox, sides, opps[b][l], subs[b][l], b);
    assert JoinOk(x, sizes) && JoinOk(y, sizes);
    OppositeIsOther(x.gc, y.gc);
    assert sides[x.gc] != sides[y.gc];
    HalvesMirror(joins, sizes, inbox, x, y, sides[x.gc], sides[y.gc], SubEntries(subs[a][k]), SubEntries(subs[b][l]));
  }

  /** What the protocol achieves for one sub-join. */
  ghost predicate Partnered(joins: seq<PartJoin>, opps: seq<seq<(nat, nat)>>, sides: seq<Side>, subs: seq<seq<SubJoin>>,
                            tree: seq<seq<Gc>>, donors: seq<seq<string>>, a: nat, k: nat)
    requires |joins| == |opps| == |subs| && a < |joins| && k < |opps[a]|
  {
    exists b: nat, l: nat :: PartneredBy(joins, opps, sides, subs, tree, donors, a, k, b, l)
  }

  ghost predicate PartneredBy(joins: seq<PartJoin>, opps: seq<seq<(nat, nat)>>, sides: seq<Side>, subs: seq<seq<SubJoin>>,
                              tree: seq<seq<Gc>>, donors: seq<seq<string>>, a: nat, k: nat, b: nat, l: nat)
    requires |joins| == |opps| == |subs| && a < |joins| && k < |opps[a]|
  {
    && FaceEachOther(joins, opps, a, k, b, l)
    && Names(tree, joins, opps, donors, a, k, b, l) && Names(tree, joins, opps, donors, b, l, a, k)
    && (Unambiguous(joins[a], joins[b], OwnIsReference(sides, joins[a])) ==> AreMirror(subs, a, k, b, l))
  }

  ghost predicate AreMirror(subs: seq<seq<SubJoin>>, a: nat, k: nat, b: nat, l: nat) {
    && a < |subs| && k < |subs[a]| && |subs[a][k].pl| == |subs[a][k].pld| == |subs[a][k].gn|
    && b < |subs| && l < |subs[b]| && |subs[b][l].pl| == |subs[b][l].pld| == |subs[b][l].gn|
    && Mirror(SubEntries(subs[a][k]), SubEntries(subs[b][l]))
  }

  /** The sub-joins of all joins are sorted by the ids of the side whose path comes first. */
  ghost predicate AllInPathOrder(joins: seq<PartJoin>, sides: seq<Side>, subs: seq<seq<SubJoin>>) {
    forall a: nat, k: nat {:trigger subs[a][k]} :: a < |joins| && a < |subs| && k < |subs[a]| ==>
      InPathOrder(subs[a][k], SideOf(sides, joins[a].gc), SideOf(sides, Opposite(joins[a].gc)))
  }

  lemma {:induction false} SplitFollowsPaths(joins: seq<PartJoin>, sizes: seq<nat>, inbox: int -> seq<Tuple>, sides: seq<Side>,
                                             opps: seq<seq<(nat, nat)>>, subs: seq<seq<SubJoin>>)
    requires Setting(joins, sizes, inbox) && AllSplit(joins, sizes, inbox, sides, opps, subs, |joins|)
    ensures AllInPathOrder(joins, sides, subs)
  {
    forall a: nat, k: nat | a < |joins| && k < |subs[a]|
      ensures InPathOrder(subs[a][k], SideOf(sides, joins[a].gc), SideOf(sides, Opposite(joins[a].gc)))
    {
      assert SplitOk(joins, sizes, inbox, sides, opps[a], subs[a], a);
      assert SubOk(joins, sizes, inbox, sides, opps[a][k], subs[a][k], a);
      KeysFollowPaths(subs[a][k], SideOf(sides, joins[a].gc), SideOf(sides, Opposite(joins[a].gc)));
    }
  }

  /** What the tree and the donor names promise. */
  ghost predicate TreeOk(tree: seq<seq<Gc>>, donors: seq<seq<string>>, sides: seq<Side>, joins: seq<PartJoin>, opps: seq<seq<(nat, nat)>>, size: nat)
    requires |joins| == |opps|
  {
    && |tree| == size && OneName(tree)
    && (forall a: nat, k: nat {:trigger opps[a][k]} :: a < |joins| && k < |opps[a]| ==> InTree(tree, sides, joins, opps, a, k))
    && forall r: nat, i: nat {:trigger tree[r][i]} :: r < size && i < |tree[r]| ==> Comes(joins, opps, r, i) && LeadsToOne(tree, donors, r, i)
  }

  lemma {:induction false} TreeIsOk(joins: seq<PartJoin>, sizes: seq<nat>, inbox: int -> seq<Tuple>, opps: seq<seq<(nat, nat)>>, sides: seq<Side>,
                                    size: nat, donors: seq<seq<string>>)
    requires SplitSetting(joins, sizes, inbox, opps, sides, size) && Named(SplitTree(sides, joins, opps, size), donors)
    ensures TreeOk(SplitTree(sides, joins, opps, size), donors, sides, joins, opps, size)
  {
    var t: seq<seq<Gc>> := SplitTree(sides, joins, opps, size);
    NamesTellApart(joins, sizes, inbox, opps, sides, size);
    SplitIsPaired(joins, sizes, inbox, opps, sides, size);
    forall a: nat, k: nat | a < |joins| && k < |opps[a]| ensures InTree(t, sides, joins, opps, a, k) {
      TreeIsSpelled(joins, sizes, inbox, opps, sides, size, a, k);
    }
    forall r: nat, i: nat | r < size && i < |t[r]| ensures Comes(joins, opps, r, i) && LeadsToOne(t, donors, r, i) {
      NothingElse(joins, opps, sides, size, r, i);
      EntryIsInitial(joins, sizes, opps, sides, size, r, i);
      DonorIsUnique(t, donors, r, i);
    }
  }

  lemma {:induction false} EntryIsInitial(joins: seq<PartJoin>, sizes: seq<nat>, opps: seq<seq<(nat, nat)>>, sides: seq<Side>, size: nat, r: nat, i: nat)
    requires |joins| == |opps| && AllOk(joins, sizes) && DistinctSides(sides, 2 * |sizes|)
    requires r < size && i < |SplitTree(sides, joins, opps, size)[r]|
    ensures IsInitial(SplitTree(sides, joins, opps, size)[r][i])
  {
    var a, k := SplitMember(sides, joins, opps, r, |joins|, i);
    assert JoinOk(joins[a], sizes);
    SubGcPlaced(sides, joins[a], opps[a], k);
  }

  /**
   The whole protocol, on all ranks.  The tree that comes out has one sub-join for each pair of partitions that face each other,
   named after the join and numbered in the order of the faced partitions; no two joins of a zone share a name, so that the donor
   name of a join leads to exactly one join, and back.  Every sub-join and its partner face each other's partition, carry each
   other's name, and are mirror images whenever shared entries have different ids on the side whose path comes first, which both
   partitions find without communication.
   */
  method RunProtocol(joins: seq<PartJoin>, sizes: seq<nat>, inbox: int -> seq<Tuple>, sides: seq<Side>, size: nat)
    returns (opps: seq<seq<(nat, nat)>>, subs: seq<seq<SubJoin>>, tree: seq<seq<Gc>>, donors: seq<seq<string>>)
    requires Setting(joins, sizes, inbox) && DistinctSides(sides, 2 * |sizes|)
    requires forall a :: 0 <= a < |joins| ==> joins[a].rank < size
    ensures AllOpps(joins, sizes, inbox, opps, |joins|) && TreeOk(tree, donors, sides, joins, opps, size)
    ensures AllSplit(joins, sizes, inbox, sides, opps, subs, |joins|) && AllInPathOrder(joins, sides, subs)
    ensures forall a: nat, k: nat {:trigger opps[a][k]} :: a < |joins| && k < |opps[a]| ==> Partnered(joins, opps, sides, subs, tree, donors, a, k)
  {
    opps, subs := RecoverAndSplit(joins, sizes, inbox, sides);
    SettingHolds(joins, sizes, inbox, opps, sides, size);
    SplitIsPaired(joins, sizes, inbox, opps, sides, size);
    SplitFollowsPaths(joins, sizes, inbox, sides, opps, subs);
    tree := BuildTree(sides, joins, opps, size);
    donors := UpdateDonorNames(tree);
    TreeIsOk(joins, sizes, inbox, opps, sides, size, donors);
    forall a: nat, k: nat | a < |joins| && k < |opps[a]| ensures Partnered(joins, opps, sides, subs, tree, donors, a, k) {
      HasPartner(joins, sizes, inbox, opps, sides, size, subs, donors, a, k);
    }
  }

  lemma {:induction false} SettingHolds(joins: seq<PartJoin>, sizes: seq<nat>, inbox: int -> seq<Tuple>, opps: seq<seq<(nat, nat)>>, sides: seq<Side>, size: nat)
    requires Setting(joins, sizes, inbox) && DistinctSides(sides, 2 * |sizes|) && AllOpps(joins, sizes, inbox, opps, |joins|)
    requires forall a :: 0 <= a < |joins| ==> joins[a].rank < size
    ensures SplitSetting(joins, sizes, inbox, opps, sides, size)
  {
    forall a: nat | a < |joins| ensures OppsAt(joins, sizes, inbox, opps, a) {
      assert OppsOk(joins, sizes, inbox, opps[a], a);
      forall p ensures p in opps[a] <==> Facing(RecoveredRows(joins, sizes, inbox, joins[a]), p) != [] {
        assert OppOk(joins, sizes, inbox, opps[a], a, p);
      }
    }
  }

  lemma {:induction false} HasPartner(joins: seq<PartJoin>, sizes: seq<nat>, inbox: int -> seq<Tuple>, opps: seq<seq<(nat, nat)>>, sides: seq<Side>,
                                      size: nat, subs: seq<seq<SubJoin>>, donors: seq<seq<string>>, a: nat, k: nat)
    requires SplitSetting(joins, sizes, inbox, opps, sides, size) && a < |joins| && k < |opps[a]|
    requires Named(SplitTree(sides, joins, opps, size), donors) && AllSplit(joins, sizes, inbox, sides, opps, subs, |joins|)
    ensures Partnered(joins, opps, sides, subs, SplitTree(sides, joins, opps, size), donors, a, k)
  {
    var b, l := OppositesNameEachOther(joins, sizes, inbox, opps, sides, size, donors, a, k);
    if Unambiguous(joins[a], joins[b], OwnIsReference(sides, joins[a])) {
      OppositesMirror(joins, sizes, inbox, opps, sides, subs, a, k, b, l);
    }
    assert PartneredBy(joins, opps, sides, subs, SplitTree(sides, joins, opps, size), donors, a, k, b, l);
  }
}

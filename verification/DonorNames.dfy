/**
 The handshake by which split joins learn the name of their opposite
 (update_gc_donor_name in maia/factory/partitioning/post_split.py).
 */
module DonorNames {
  import opened Basics
  import opened Counting
  import opened Conventions
  import opened JoinRecovery
  import opened JoinSplit

  /** A join of a partition, split from an initial one or between partitions of one zone: its name, the paths of both zones, and the original name of its opposite. */
  datatype Gc = Gc(name: string, zone: string, opp: string, donor: string)

  /** What a join announces to the rank of its opposite zone. */
  datatype Message = Message(name: string, zone: string, opp: string)

  function ToMessage(g: Gc): Message {
    Message(g.name, g.zone, g.opp)
  }

  /** The rank that holds the opposite zone. */
  function OppRank(g: Gc): Option<nat> {
    var suffix := PartSuffix(g.opp);
    if suffix.None? then None else Some(suffix.value.0)
  }

  /** The join comes from a join of the initial tree. */
  predicate IsInitial(g: Gc) {
    !IsIntraGc(g.name)
  }

  function SentTo(r: nat): Gc -> bool {
    (g: Gc) => IsInitial(g) && OppRank(g) == Some(r)
  }

  /** What a rank sends to rank `r`. */
  function Sends(gcs: seq<Gc>, r: nat): seq<Message> {
    Map(Filter(gcs, SentTo(r)), ToMessage)
  }

  /** Every opposite zone is on a rank. */
  ghost predicate Addressed(gcs: seq<Gc>, size: nat) {
    forall i :: 0 <= i < |gcs| && IsInitial(gcs[i]) ==> OppRank(gcs[i]).Some? && OppRank(gcs[i]).value < size
  }

  /** Fill one list of messages per rank. */
  method BuildSends(gcs: seq<Gc>, size: nat) returns (send: seq<seq<Message>>)
    requires Addressed(gcs, size)
    ensures |send| == size && forall r: nat :: r < size ==> send[r] == Sends(gcs, r)
  {
    send := seq(size, r => []);
    for i := 0 to |gcs|
      invariant |send| == size && forall r: nat :: r < size ==> send[r] == Sends(gcs[..i], r)
    {
      var g := gcs[i];
      forall r: nat | r < size ensures Sends(gcs[..i + 1], r) == Sends(gcs[..i], r) + if SentTo(r)(g) then [ToMessage(g)] else [] {
        SendsStep(gcs, i, r);
      }
      if !IsIntraGc(g.name) {
        var to := OppRank(g).value;
        send := send[to := send[to] + [ToMessage(g)]];
      }
    }
    assert gcs[..|gcs|] == gcs;
  }

  lemma {:induction false} SendsStep(gcs: seq<Gc>, i: nat, r: nat)
    requires i < |gcs|
    ensures Sends(gcs[..i + 1], r) == Sends(gcs[..i], r) + if SentTo(r)(gcs[i]) then [ToMessage(gcs[i])] else []
  {
    assert gcs[..i + 1] == gcs[..i] + [gcs[i]];
    FilterAppend(gcs[..i], gcs[i], SentTo(r));
    if SentTo(r)(gcs[i]) { assert Map(Filter(gcs[..i], SentTo(r)) + [gcs[i]], ToMessage) == Sends(gcs[..i], r) + [ToMessage(gcs[i])]; }
  }

  /** A message from the opposite zone of `g`, about a join that was split from the opposite of `g`. */
  function Answers(g: Gc): Message -> bool {
    (m: Message) => m.zone == g.opp && m.opp == g.zone && SplitPrefix(m.name) == Some(g.donor)
  }

  /** The joins that may be the opposite of `g`, among the messages of the opposite rank. */
  function Candidates(g: Gc, received: seq<Message>): seq<Message> {
    Filter(received, Answers(g))
  }

  /** The join `h` is an opposite of `g`. */
  predicate Opposes(h: Gc, g: Gc) {
    IsInitial(h) && h.zone == g.opp && h.opp == g.zone && SplitPrefix(h.name) == Some(g.donor)
  }

  function OpposesIt(g: Gc): Gc -> bool {
    (h: Gc) => Opposes(h, g)
  }

  // ---------------------------------------------------------------- the joins of all ranks

  /** Zones are where their names say. */
  ghost predicate Placed(ranks: seq<seq<Gc>>) {
    forall r, i :: 0 <= r < |ranks| && 0 <= i < |ranks[r]| ==> PlacedAt(ranks, r, i)
  }

  ghost predicate PlacedAt(ranks: seq<seq<Gc>>, r: nat, i: nat)
    requires r < |ranks| && i < |ranks[r]|
  {
    var g := ranks[r][i];
    && PartSuffix(g.zone).Some? && PartSuffix(g.zone).value.0 == r
    && PartSuffix(g.opp).Some? && PartSuffix(g.opp).value.0 < |ranks|
  }

  /** Join `k` of the rank where the join looks for it is its opposite, and the other way round. */
  ghost predicate PairedAt(ranks: seq<seq<Gc>>, r: nat, i: nat, k: nat)
    requires r < |ranks| && i < |ranks[r]|
  {
    var g := ranks[r][i];
    && OppRank(g).Some? && OppRank(g).value < |ranks| && k < |ranks[OppRank(g).value]|
    && Opposes(ranks[OppRank(g).value][k], g) && Opposes(g, ranks[OppRank(g).value][k])
  }

  /** Every join that comes from the initial tree has an opposite. */
  ghost predicate Paired(ranks: seq<seq<Gc>>) {
    forall r: nat, i: nat {:trigger HasPair(ranks, r, i)} :: r < |ranks| && i < |ranks[r]| && IsInitial(ranks[r][i]) ==> HasPair(ranks, r, i)
  }

  ghost predicate HasPair(ranks: seq<seq<Gc>>, r: nat, i: nat)
    requires r < |ranks| && i < |ranks[r]|
  {
    exists k: nat :: PairedAt(ranks, r, i, k)
  }

  /** A zone has one join at most towards a zone, split from a given join. */
  ghost predicate Unrepeated(gcs: seq<Gc>) {
    forall i, j :: 0 <= i < j < |gcs| && IsInitial(gcs[i]) && IsInitial(gcs[j]) ==>
      !(gcs[i].zone == gcs[j].zone && gcs[i].opp == gcs[j].opp && SplitPrefix(gcs[i].name) == SplitPrefix(gcs[j].name))
  }

  ghost predicate AllUnrepeated(ranks: seq<seq<Gc>>) {
    forall r :: 0 <= r < |ranks| ==> Unrepeated(ranks[r])
  }

  /** The handshake finds exactly one candidate: the opposite join. */
  lemma {:induction false} ExactlyOneCandidate(ranks: seq<seq<Gc>>, r: nat, i: nat, k: nat)
    requires Placed(ranks) && AllUnrepeated(ranks) && r < |ranks| && i < |ranks[r]|
    requires PairedAt(ranks, r, i, k)
    ensures var s := OppRank(ranks[r][i]).value;
            Candidates(ranks[r][i], Sends(ranks[s], r)) == [ToMessage(ranks[s][k])]
  {
    var g := ranks[r][i];
    var s := OppRank(g).value;
    var gcs, h := ranks[s], ranks[s][k];
    forall x | x in Filter(gcs, SentTo(r)) ensures Answers(g)(ToMessage(x)) <==> OpposesIt(g)(x) { FilterMembers(gcs, SentTo(r), x); }
    FilterMap(Filter(gcs, SentTo(r)), ToMessage, Answers(g), OpposesIt(g));
    assert PlacedAt(ranks, r, i);
    forall x | x in gcs ensures OpposesIt(g)(x) <==> SentTo(r)(x) && OpposesIt(g)(x) {}
    FilterFilter(gcs, SentTo(r), OpposesIt(g), OpposesIt(g));
    assert Unrepeated(gcs);
    forall j | 0 <= j < |gcs| && j != k ensures !OpposesIt(g)(gcs[j]) {}
    FilterSingle(gcs, OpposesIt(g), k);
  }

  // ---------------------------------------------------------------- the handshake

  lemma {:induction false} CandidatesStep(g: Gc, received: seq<Message>, k: nat)
    requires k < |received|
    ensures Candidates(g, received[..k + 1])
            == Candidates(g, received[..k]) + if Answers(g)(received[k]) then [received[k]] else []
  {
    assert received[..k + 1] == received[..k] + [received[k]];
    FilterAppend(received[..k], received[k], Answers(g));
  }

  /** Select the opposite among the received messages; nothing when there is not exactly one candidate. */
  method PickDonor(g: Gc, received: seq<Message>) returns (donor: Option<string>)
    ensures donor == if |Candidates(g, received)| == 1 then Some(Candidates(g, received)[0].name) else None
  {
    var names := [];
    for k := 0 to |received|
      invariant |names| == |Candidates(g, received[..k])|
      invariant forall i :: 0 <= i < |names| ==> names[i] == Candidates(g, received[..k])[i].name
    {
      CandidatesStep(g, received, k);
      var m := received[k];
      if m.zone == g.opp && m.opp == g.zone && SplitPrefix(m.name) == Some(g.donor) { names := names + [m.name]; }
    }
    assert received[..|received|] == received;
    donor := if |names| == 1 then Some(names[0]) else None;
  }

  /**
   Every join that comes from the initial tree has the name of its opposite as donor name, whichever way the opposite is picked;
   the other ones have the name of the join in the other direction.
   */
  ghost predicate Named(ranks: seq<seq<Gc>>, donors: seq<seq<string>>) {
    && |donors| == |ranks| && (forall r :: 0 <= r < |ranks| ==> |donors[r]| == |ranks[r]|)
    && forall r: nat, i: nat {:trigger donors[r][i]} :: r < |ranks| && i < |ranks[r]| ==> NamedAt(ranks, r, i, donors[r][i])
  }

  ghost predicate NamedAt(ranks: seq<seq<Gc>>, r: nat, i: nat, donor: string)
    requires r < |ranks| && i < |ranks[r]|
  {
    && (forall k: nat {:trigger PairedAt(ranks, r, i, k)} :: PairedAt(ranks, r, i, k) ==>
          donor == ranks[OppRank(ranks[r][i]).value][k].name)
    && (!IsInitial(ranks[r][i]) ==> IntraDonor(ranks[r][i]) == Some(donor))
  }

  /** The name of the join from the opposite partition to this one; fails on zones that have no partition suffix. */
  function IntraDonor(g: Gc): Option<string> {
    var opp, cur := PartSuffix(g.opp), PartSuffix(g.zone);
    if opp.None? || cur.None? then None else Some(NameIntraGc(opp.value.0, opp.value.1, cur.value.0, cur.value.1))
  }

  /** Joins between two partitions of a zone, named after them, name each other. */
  lemma {:induction false} IntraNamesOppose(g: Gc, h: Gc, a: (nat, nat), b: (nat, nat))
    requires PartSuffix(g.zone) == Some(a) && PartSuffix(g.opp) == Some(b) && g.name == NameIntraGc(a.0, a.1, b.0, b.1)
    requires h.zone == g.opp && h.opp == g.zone && h.name == NameIntraGc(b.0, b.1, a.0, a.1)
    ensures IntraDonor(g) == Some(h.name) && IntraDonor(h) == Some(g.name) && !IsInitial(g) && !IsInitial(h)
  {
    IntraNameIsIntra(a.0, a.1, b.0, b.1);
    IntraNameIsIntra(b.0, b.1, a.0, a.1);
  }

  lemma {:induction false} PickIsNamed(ranks: seq<seq<Gc>>, r: nat, i: nat) returns (name: string)
    requires Placed(ranks) && Paired(ranks) && AllUnrepeated(ranks) && r < |ranks| && i < |ranks[r]| && IsInitial(ranks[r][i])
    ensures OppRank(ranks[r][i]).Some? && OppRank(ranks[r][i]).value < |ranks|
    ensures var cands := Candidates(ranks[r][i], Sends(ranks[OppRank(ranks[r][i]).value], r));
            |cands| == 1 && cands[0].name == name
    ensures NamedAt(ranks, r, i, name)
  {
    assert HasPair(ranks, r, i);
    var k: nat :| PairedAt(ranks, r, i, k);
    ExactlyOneCandidate(ranks, r, i, k);
    name := ranks[OppRank(ranks[r][i]).value][k].name;
    forall l: nat | PairedAt(ranks, r, i, l) ensures name == ranks[OppRank(ranks[r][i]).value][l].name {
      ExactlyOneCandidate(ranks, r, i, l);
    }
  }

  /** One join, after the exchange. */
  method NameOne(ranks: seq<seq<Gc>>, r: nat, i: nat, recv: seq<seq<Message>>) returns (donor: string)
    requires Placed(ranks) && Paired(ranks) && AllUnrepeated(ranks) && r < |ranks| && i < |ranks[r]|
    requires |recv| == |ranks| && forall s: nat :: s < |ranks| ==> recv[s] == Sends(ranks[s], r)
    ensures NamedAt(ranks, r, i, donor)
  {
    var g := ranks[r][i];
    var found: Option<string>;
    if IsIntraGc(g.name) {
      assert PlacedAt(ranks, r, i);
      found := IntraDonor(g);
    } else {
      ghost var name := PickIsNamed(ranks, r, i);
      found := PickDonor(g, recv[OppRank(g).value]);
      assert found == Some(name);
    }
    donor := found.value;
  }

  /** One rank, after the exchange. */
  method NameRank(ranks: seq<seq<Gc>>, r: nat, recv: seq<seq<Message>>) returns (donors: seq<string>)
    requires Placed(ranks) && Paired(ranks) && AllUnrepeated(ranks) && r < |ranks|
    requires |recv| == |ranks| && forall s: nat :: s < |ranks| ==> recv[s] == Sends(ranks[s], r)
    ensures |donors| == |ranks[r]| && forall i: nat {:trigger NamedAt(ranks, r, i, donors[i])} ::
              i < |donors| ==> NamedAt(ranks, r, i, donors[i])
  {
    donors := [];
    for i := 0 to |ranks[r]|
      invariant |donors| == i && forall k: nat {:trigger NamedAt(ranks, r, k, donors[k])} :: k < i ==> NamedAt(ranks, r, k, donors[k])
    {
      var donor := NameOne(ranks, r, i, recv);
      donors := donors + [donor];
    }
  }

  lemma {:induction false} AllAddressed(ranks: seq<seq<Gc>>, r: nat)
    requires Placed(ranks) && r < |ranks|
    ensures Addressed(ranks[r], |ranks|)
  {
    forall i | 0 <= i < |ranks[r]| && IsInitial(ranks[r][i]) ensures OppRank(ranks[r][i]).Some? && OppRank(ranks[r][i]).value < |ranks| {
      assert PlacedAt(ranks, r, i);
    }
  }

  /** What every rank sends to every rank. */
  method SendAll(ranks: seq<seq<Gc>>) returns (sent: seq<seq<seq<Message>>>)
    requires Placed(ranks)
    ensures |sent| == |ranks|
    ensures forall q: nat :: q < |ranks| ==> |sent[q]| == |ranks| && forall r: nat :: r < |ranks| ==> sent[q][r] == Sends(ranks[q], r)
  {
    var size := |ranks|;
    sent := [];
    for s := 0 to size
      invariant |sent| == s
      invariant forall q: nat :: q < s ==> |sent[q]| == size && forall r: nat :: r < size ==> sent[q][r] == Sends(ranks[q], r)
    {
      AllAddressed(ranks, s);
      var send := BuildSends(ranks[s], size);
      sent := sent + [send];
    }
  }

  /** All ranks: each sends, all exchange, each picks. */
  method UpdateDonorNames(ranks: seq<seq<Gc>>) returns (donors: seq<seq<string>>)
    requires Placed(ranks) && Paired(ranks) && AllUnrepeated(ranks)
    ensures Named(ranks, donors)
  {
    var size := |ranks|;
    var sent := SendAll(ranks);
    donors := [];
    for r := 0 to size
      invariant |donors| == r && forall q: nat :: q < r ==> |donors[q]| == |ranks[q]|
      invariant forall q: nat, i: nat {:trigger donors[q][i]} :: q < r && i < |donors[q]| ==> NamedAt(ranks, q, i, donors[q][i])
    {
      var recv := seq(size, s requires 0 <= s < size => sent[s][r]);
      var here := NameRank(ranks, r, recv);
      donors := donors + [here];
    }
  }

  /** Following the donor name twice leads back, and both joins join the same two zones. */
  lemma {:induction false} NamingIsInvolution(ranks: seq<seq<Gc>>, donors: seq<seq<string>>, r: nat, i: nat) returns (s: nat, k: nat)
    requires Placed(ranks) && Paired(ranks) && Named(ranks, donors) && r < |ranks| && i < |ranks[r]| && IsInitial(ranks[r][i])
    ensures s < |ranks| && k < |ranks[s]|
    ensures donors[r][i] == ranks[s][k].name && donors[s][k] == ranks[r][i].name
    ensures ranks[s][k].zone == ranks[r][i].opp && ranks[s][k].opp == ranks[r][i].zone
  {
    assert HasPair(ranks, r, i);
    k :| PairedAt(ranks, r, i, k);
    s := OppRank(ranks[r][i]).value;
    assert PlacedAt(ranks, r, i);
    assert PairedAt(ranks, s, k, i);
    assert NamedAt(ranks, r, i, donors[r][i]) && NamedAt(ranks, s, k, donors[s][k]);
  }

  // ---------------------------------------------------------------- the joins that come out of the split

  function SideOf(sides: seq<Side>, gc: nat): Side {
    if gc < |sides| then sides[gc] else Side("", "")
  }

  /** The names of joins are unique within a zone, have no slash, and are not those of joins between partitions. */
  ghost predicate DistinctSides(sides: seq<Side>, count: nat) {
    && |sides| == count && NoRepeat(sides)
    && forall i :: 0 <= i < |sides| ==> '/' !in sides[i].name && !IsIntraGc(sides[i].name)
  }

  /** Sub-join `k` of a join. */
  function SubGc(sides: seq<Side>, j: PartJoin, opps: seq<(nat, nat)>, k: nat): Gc
    requires k < |opps|
  {
    var own, other := SideOf(sides, j.gc), SideOf(sides, Opposite(j.gc));
    Gc(AddSplitSuffix(own.name, k), AddPartSuffix(own.zone, j.rank, j.part), AddPartSuffix(other.zone, opps[k].0, opps[k].1), other.name)
  }

  function SubGcs(sides: seq<Side>, j: PartJoin, opps: seq<(nat, nat)>): (r: seq<Gc>)
    ensures |r| == |opps|
  {
    seq(|opps|, k requires 0 <= k < |opps| => SubGc(sides, j, opps, k))
  }

  /** The sub-joins on rank `r`, from the first `n` joins. */
  ghost function SplitGcs(sides: seq<Side>, joins: seq<PartJoin>, opps: seq<seq<(nat, nat)>>, r: nat, n: nat): seq<Gc>
    requires n <= |joins| == |opps|
  {
    if n == 0 then []
    else SplitGcs(sides, joins, opps, r, n - 1) + if joins[n - 1].rank == r then SubGcs(sides, joins[n - 1], opps[n - 1]) else []
  }

  /** The sub-joins of all ranks. */
  ghost function SplitTree(sides: seq<Side>, joins: seq<PartJoin>, opps: seq<seq<(nat, nat)>>, size: nat): (t: seq<seq<Gc>>)
    requires |joins| == |opps|
    ensures |t| == size && forall r: nat :: r < size ==> t[r] == SplitGcs(sides, joins, opps, r, |joins|)
  {
    seq(size, r requires 0 <= r < size => SplitGcs(sides, joins, opps, r, |joins|))
  }

  /** Sub-joins are made for the opposite partitions of the recovered joins, each once. */
  ghost predicate OppsAt(joins: seq<PartJoin>, sizes: seq<nat>, inbox: int -> seq<Tuple>, opps: seq<seq<(nat, nat)>>, a: nat)
    requires Setting(joins, sizes, inbox) && |opps| == |joins| && a < |joins|
  {
    && StrictlySorted(opps[a])
    && forall p :: p in opps[a] <==> Facing(RecoveredRows(joins, sizes, inbox, joins[a]), p) != []
  }

  /** The partitions that a join faces are those that splitting makes sub-joins for. */
  lemma {:induction false} FacedIsDonor(j: FullJoin, p: (nat, nat))
    requires Even(j)
    ensures p in j.donor <==> Facing(Rows(j), p) != []
  {
    var here := Filter(Rows(j), Faces(p));
    if p in j.donor {
      var k :| 0 <= k < |j.donor| && j.donor[k] == p;
      FilterMembers(Rows(j), Faces(p), Rows(j)[k]);
    }
    if here != [] {
      FilterMembers(Rows(j), Faces(p), here[0]);
      var k :| 0 <= k < |Rows(j)| && Rows(j)[k] == here[0];
      assert j.donor[k] == p;
    }
  }

  ghost predicate SplitSetting(joins: seq<PartJoin>, sizes: seq<nat>, inbox: int -> seq<Tuple>, opps: seq<seq<(nat, nat)>>,
                               sides: seq<Side>, size: nat) {
    && Setting(joins, sizes, inbox) && |opps| == |joins| && DistinctSides(sides, 2 * |sizes|)
    && (forall a: nat {:trigger OppsAt(joins, sizes, inbox, opps, a)} :: a < |joins| ==> OppsAt(joins, sizes, inbox, opps, a))
    && forall a :: 0 <= a < |joins| ==> joins[a].rank < size
  }

  /** A sub-join comes from a join and one of its opposite partitions. */
  lemma {:induction false} SplitMember(sides: seq<Side>, joins: seq<PartJoin>, opps: seq<seq<(nat, nat)>>, r: nat, n: nat, i: nat) returns (a: nat, k: nat)
    requires n <= |joins| == |opps| && i < |SplitGcs(sides, joins, opps, r, n)|
    ensures a < n && joins[a].rank == r && k < |opps[a]| && SplitGcs(sides, joins, opps, r, n)[i] == SubGc(sides, joins[a], opps[a], k)
    ensures i == |SplitGcs(sides, joins, opps, r, a)| + k
    decreases n
  {
    var front := SplitGcs(sides, joins, opps, r, n - 1);
    if i < |front| { a, k := SplitMember(sides, joins, opps, r, n - 1, i); } else { a, k := n - 1, i - |front|; }
  }

  lemma {:induction false} SplitHas(sides: seq<Side>, joins: seq<PartJoin>, opps: seq<seq<(nat, nat)>>, n: nat, a: nat, k: nat) returns (i: nat)
    requires a < n <= |joins| == |opps| && k < |opps[a]|
    ensures i == |SplitGcs(sides, joins, opps, joins[a].rank, a)| + k
    ensures i < |SplitGcs(sides, joins, opps, joins[a].rank, n)|
    ensures SplitGcs(sides, joins, opps, joins[a].rank, n)[i] == SubGc(sides, joins[a], opps[a], k)
    decreases n
  {
    if a == n - 1 { i := |SplitGcs(sides, joins, opps, joins[a].rank, n - 1)| + k; }
    else { i := SplitHas(sides, joins, opps, n - 1, a, k); }
  }

  /** The three names by which a candidate is selected tell where a sub-join comes from. */
  lemma {:induction false} OriginIsUnique(joins: seq<PartJoin>, sizes: seq<nat>, inbox: int -> seq<Tuple>, opps: seq<seq<(nat, nat)>>,
                                          sides: seq<Side>, size: nat, a: nat, k: nat, b: nat, l: nat)
    requires SplitSetting(joins, sizes, inbox, opps, sides, size)
    requires a < |joins| && k < |opps[a]| && b < |joins| && l < |opps[b]|
    requires var g, h := SubGc(sides, joins[a], opps[a], k), SubGc(sides, joins[b], opps[b], l);
             g.zone == h.zone && g.opp == h.opp && SplitPrefix(g.name) == SplitPrefix(h.name)
    ensures a == b && k == l
  {
    var i, j := joins[a], joins[b];
    assert JoinOk(i, sizes) && JoinOk(j, sizes);
    PartNamesDiffer(SideOf(sides, i.gc).zone, i.rank, i.part, SideOf(sides, j.gc).zone, j.rank, j.part);
    SplitRoundTrip(SideOf(sides, i.gc).name, k);
    SplitRoundTrip(SideOf(sides, j.gc).name, l);
    assert sides[i.gc] == sides[j.gc];
    assert i.gc == j.gc;
    assert a == b;
    PartNamesDiffer(SideOf(sides, Opposite(i.gc)).zone, opps[a][k].0, opps[a][k].1, SideOf(sides, Opposite(i.gc)).zone, opps[a][l].0, opps[a][l].1);
    assert OppsAt(joins, sizes, inbox, opps, a);
  }

  lemma {:induction false} SplitUnrepeated(joins: seq<PartJoin>, sizes: seq<nat>, inbox: int -> seq<Tuple>, opps: seq<seq<(nat, nat)>>,
                                           sides: seq<Side>, size: nat, r: nat)
    requires SplitSetting(joins, sizes, inbox, opps, sides, size)
    ensures Unrepeated(SplitGcs(sides, joins, opps, r, |joins|))
  {
    var all := SplitGcs(sides, joins, opps, r, |joins|);
    forall i, j | 0 <= i < j < |all|
      ensures !(all[i].zone == all[j].zone && all[i].opp == all[j].opp && SplitPrefix(all[i].name) == SplitPrefix(all[j].name))
    {
      var a, k := SplitMember(sides, joins, opps, r, |joins|, i);
      var b, l := SplitMember(sides, joins, opps, r, |joins|, j);
      if all[i].zone == all[j].zone && all[i].opp == all[j].opp && SplitPrefix(all[i].name) == SplitPrefix(all[j].name) {
        OriginIsUnique(joins, sizes, inbox, opps, sides, size, a, k, b, l);
      }
    }
  }

  lemma {:induction false} HolderExists(joins: seq<PartJoin>, t: Tuple, gn: int) returns (b: nat)
    requires HolderCount(joins, t, gn) > 0
    ensures b < |joins| && PartOf(joins[b]) == (t.rank, t.part) && joins[b].gc == t.gc && EntryCount(joins[b], t.pl, gn) > 0
    decreases |joins|
  {
    var j := joins[|joins| - 1];
    if j.rank == t.rank && j.part == t.part && j.gc == t.gc && EntryCount(j, t.pl, gn) > 0 { b := |joins| - 1; }
    else { b := HolderExists(joins[..|joins| - 1], t, gn); }
  }

  /** The partition that a join faces has a join that faces back. */
  lemma {:induction false} FacedFacesBack(joins: seq<PartJoin>, sizes: seq<nat>, inbox: int -> seq<Tuple>, a: nat, p: (nat, nat)) returns (b: nat)
    requires Setting(joins, sizes, inbox) && a < |joins|
    requires Facing(RecoveredRows(joins, sizes, inbox, joins[a]), p) != []
    ensures b < |joins| && PartOf(joins[b]) == p && joins[b].gc == Opposite(joins[a].gc)
    ensures Facing(RecoveredRows(joins, sizes, inbox, joins[b]), PartOf(joins[a])) != []
  {
    var facing := Facing(RecoveredRows(joins, sizes, inbox, joins[a]), p);
    var t := facing[0];
    assert t in multiset(facing);
    var row := Row(t.pl, t.gn, t.pld, p.0, p.1);
    FacingCount(RecoveredRows(joins, sizes, inbox, joins[a]), p, t);
    RecoveredIsRelation(joins, sizes, inbox, joins[a], row);
    var opp := Tuple(t.pld, p.0, p.1, Opposite(joins[a].gc));
    ProductIsPositive(EntryCount(joins[a], t.pl, t.gn), HolderCount(joins, opp, t.gn));
    b := HolderExists(joins, opp, t.gn);
    PairIsSeenTwice(joins, sizes, inbox, joins[a], joins[b], t);
    assert Swap(t) in multiset(Facing(RecoveredRows(joins, sizes, inbox, joins[b]), PartOf(joins[a])));
  }

  lemma {:induction false} SubGcPlaced(sides: seq<Side>, j: PartJoin, opps: seq<(nat, nat)>, k: nat)
    requires k < |opps| && j.gc < |sides| && DistinctSides(sides, |sides|)
    ensures IsInitial(SubGc(sides, j, opps, k))
    ensures PartSuffix(SubGc(sides, j, opps, k).zone) == Some((j.rank, j.part))
    ensures PartSuffix(SubGc(sides, j, opps, k).opp) == Some(opps[k])
    ensures SplitPrefix(SubGc(sides, j, opps, k).name) == Some(SideOf(sides, j.gc).name)
  {
    PartRoundTrip(SideOf(sides, j.gc).zone, j.rank, j.part);
    PartRoundTrip(SideOf(sides, Opposite(j.gc)).zone, opps[k].0, opps[k].1);
    SplitRoundTrip(SideOf(sides, j.gc).name, k);
    SplitKeepsKind(SideOf(sides, j.gc).name, k);
  }

  /** The opposite of a sub-join. */
  lemma {:induction false} SubGcFacesBack(joins: seq<PartJoin>, sizes: seq<nat>, inbox: int -> seq<Tuple>, opps: seq<seq<(nat, nat)>>,
                                          sides: seq<Side>, size: nat, a: nat, k: nat) returns (b: nat, l: nat)
    requires SplitSetting(joins, sizes, inbox, opps, sides, size) && a < |joins| && k < |opps[a]|
    ensures b < |joins| && l < |opps[b]| && joins[b].gc == Opposite(joins[a].gc)
    ensures PartOf(joins[b]) == opps[a][k] && PartOf(joins[a]) == opps[b][l]
    ensures Opposes(SubGc(sides, joins[b], opps[b], l), SubGc(sides, joins[a], opps[a], k))
    ensures Opposes(SubGc(sides, joins[a], opps[a], k), SubGc(sides, joins[b], opps[b], l))
  {
    assert OppsAt(joins, sizes, inbox, opps, a);
    assert opps[a][k] in opps[a];
    b := FacedFacesBack(joins, sizes, inbox, a, opps[a][k]);
    assert OppsAt(joins, sizes, inbox, opps, b);
    assert PartOf(joins[a]) in opps[b];
    l :| 0 <= l < |opps[b]| && opps[b][l] == PartOf(joins[a]);
    OppositeIsOther(joins[a].gc, joins[b].gc);
    assert JoinOk(joins[a], sizes) && JoinOk(joins[b], sizes);
    SubGcPlaced(sides, joins[a], opps[a], k);
    SubGcPlaced(sides, joins[b], opps[b], l);
  }

  lemma {:induction false} SplitPairedAt(joins: seq<PartJoin>, sizes: seq<nat>, inbox: int -> seq<Tuple>, opps: seq<seq<(nat, nat)>>,
                                         sides: seq<Side>, size: nat, r: nat, i: nat)
    requires SplitSetting(joins, sizes, inbox, opps, sides, size)
    requires r < size && i < |SplitTree(sides, joins, opps, size)[r]|
    ensures PlacedAt(SplitTree(sides, joins, opps, size), r, i) && HasPair(SplitTree(sides, joins, opps, size), r, i)
  {
    var a, k := SplitMember(sides, joins, opps, r, |joins|, i);
    var b, l := SubGcFacesBack(joins, sizes, inbox, opps, sides, size, a, k);
    var m := SplitHas(sides, joins, opps, |joins|, b, l);
    assert JoinOk(joins[a], sizes);
    SubGcPlaced(sides, joins[a], opps[a], k);
    assert PairedAt(SplitTree(sides, joins, opps, size), r, i, m);
  }

  /** The joins that come out of recovery and splitting meet what the handshake needs. */
  lemma {:induction false} SplitIsPaired(joins: seq<PartJoin>, sizes: seq<nat>, inbox: int -> seq<Tuple>, opps: seq<seq<(nat, nat)>>,
                                         sides: seq<Side>, size: nat)
    requires SplitSetting(joins, sizes, inbox, opps, sides, size)
    ensures var t := SplitTree(sides, joins, opps, size); Placed(t) && Paired(t) && AllUnrepeated(t)
  {
    var t := SplitTree(sides, joins, opps, size);
    forall r: nat, i: nat | r < size && i < |t[r]| ensures PlacedAt(t, r, i) && HasPair(t, r, i) {
      SplitPairedAt(joins, sizes, inbox, opps, sides, size, r, i);
    }
    forall r: nat | r < size ensures Unrepeated(t[r]) {
      SplitUnrepeated(joins, sizes, inbox, opps, sides, size, r);
    }
  }
}

/**
 Pairs of opposite joins of the initial tree (get_matching_jns in maia/algo/dist/matching_jns_tools.py), and the numbers given
 to the joins before their opposite sides are recovered (maia/transfer/dist_to_part/recover_jn.py).
 */
module JoinNumbers {
  import opened Basics
  import opened JoinRecovery
  import opened Strings

  /** Every join of the initial tree has another one as opposite, of which it is the opposite. */
  ghost predicate Symmetric(paths: seq<string>, donor: map<string, string>) {
    NoRepeat(paths) && forall p {:trigger SymmetricAt(paths, donor, p)} :: p in paths ==> SymmetricAt(paths, donor, p)
  }

  ghost predicate SymmetricAt(paths: seq<string>, donor: map<string, string>, p: string) {
    p in donor && donor[p] in paths && donor[p] != p && donor[p] in donor && donor[donor[p]] == p
  }

  function SortedPair(p: string, q: string): (string, string) {
    if Less(q, p) then (q, p) else (p, q)
  }

  /** The pair of every join given is listed, and no pair is listed twice. */
  ghost predicate ArePairs(pairs: seq<(string, string)>, paths: seq<string>, donor: map<string, string>) {
    NoRepeat(pairs) && forall p {:trigger Listed(pairs, donor, p)} :: p in paths ==> Listed(pairs, donor, p)
  }

  ghost predicate Listed(pairs: seq<(string, string)>, donor: map<string, string>, p: string) {
    p in donor && SortedPair(p, donor[p]) in pairs
  }

  /** Collect the pairs of opposite joins. */
  method MatchingJoins(paths: seq<string>, donor: map<string, string>) returns (pairs: seq<(string, string)>)
    requires Symmetric(paths, donor)
    ensures PairsOk(pairs, paths, donor)
  {
    pairs := [];
    for i := 0 to |paths|
      invariant ArePairs(pairs, paths[..i], donor)
      invariant forall k: nat {:trigger pairs[k]} :: k < |pairs| ==> IsPair(pairs[k], paths, donor)
    {
      var p := paths[i];
      assert p in paths;
      assert SymmetricAt(paths, donor, p);
      PairOfJoin(paths, donor, p);
      assert paths[..i + 1] == paths[..i] + [p];
      var pair := SortedPair(p, donor[p]);
      ghost var before := pairs;
      if pair !in pairs { pairs := pairs + [pair]; }
      forall q | q in paths[..i + 1] ensures Listed(pairs, donor, q) {
        if q != p { assert q in paths[..i] && Listed(before, donor, q); }
      }
    }
    assert paths[..|paths|] == paths;
  }

  /** Two joins that are opposites of each other, the one with the smaller path first. */
  ghost predicate IsPair(pair: (string, string), paths: seq<string>, donor: map<string, string>) {
    && pair.0 in paths && pair.1 in paths && Less(pair.0, pair.1)
    && pair.0 in donor && donor[pair.0] == pair.1 && pair.1 in donor && donor[pair.1] == pair.0
  }

  lemma {:induction false} PairOfJoin(paths: seq<string>, donor: map<string, string>, p: string)
    requires Symmetric(paths, donor) && p in paths
    ensures p in donor && IsPair(SortedPair(p, donor[p]), paths, donor)
  {
    assert SymmetricAt(paths, donor, p);
    LessIsTotal(p, donor[p]);
  }

  ghost predicate PairsOk(pairs: seq<(string, string)>, paths: seq<string>, donor: map<string, string>) {
    && Symmetric(paths, donor) && ArePairs(pairs, paths, donor)
    && forall k: nat {:trigger pairs[k]} :: k < |pairs| ==> IsPair(pairs[k], paths, donor)
  }

  predicate InPair(pairs: seq<(string, string)>, p: string, k: nat) {
    k < |pairs| && (p == pairs[k].0 || p == pairs[k].1)
  }

  /** The interface of every join. */
  method Interfaces(pairs: seq<(string, string)>) returns (ref: map<string, nat>)
    ensures forall p {:trigger ref[p]} :: p in ref ==> InPair(pairs, p, ref[p])
    ensures forall p, k: nat {:trigger InPair(pairs, p, k)} :: InPair(pairs, p, k) ==> p in ref
  {
    ref := map[];
    for k := 0 to |pairs|
      invariant forall p {:trigger ref[p]} :: p in ref ==> InPair(pairs, p, ref[p])
      invariant forall p, j: nat {:trigger InPair(pairs, p, j)} :: j < k && InPair(pairs, p, j) ==> p in ref
    {
      ref := ref[pairs[k].0 := k][pairs[k].1 := k];
    }
  }

  /** The number `x` says which side of which pair the join is. */
  ghost predicate Numbered(pairs: seq<(string, string)>, p: string, x: nat) {
    x / 2 < |pairs| && p == if x % 2 == 1 then pairs[x / 2].0 else pairs[x / 2].1
  }

  ghost predicate NumberedIn(pairs: seq<(string, string)>, p: string, ids: map<string, nat>) {
    p in ids && Numbered(pairs, p, ids[p])
  }

  /** The number of a join: its interface, and whether its path comes before that of its opposite. */
  method NumberJoin(p: string, ref: map<string, nat>, donor: map<string, string>, ghost paths: seq<string>, ghost pairs: seq<(string, string)>)
    returns (x: nat)
    requires PairsOk(pairs, paths, donor) && p in paths
    requires forall q {:trigger ref[q]} :: q in ref ==> InPair(pairs, q, ref[q])
    requires forall q, k: nat {:trigger InPair(pairs, q, k)} :: InPair(pairs, q, k) ==> q in ref
    ensures Numbered(pairs, p, x)
  {
    ghost var k := PairIsListed(paths, donor, pairs, p);
    assert InPair(pairs, p, k);
    x := 2 * ref[p] + if Less(p, donor[p]) then 1 else 0;
    SideTells(paths, donor, pairs, p, ref[p]);
  }

  /** The numbers of all joins. */
  method NumberJoins(paths: seq<string>, donor: map<string, string>, pairs: seq<(string, string)>) returns (ids: map<string, nat>)
    requires PairsOk(pairs, paths, donor)
    ensures forall p :: p in paths ==> NumberedIn(pairs, p, ids)
  {
    var ref := Interfaces(pairs);
    ids := map[];
    for i := 0 to |paths|
      invariant forall j: nat {:trigger paths[j]} :: j < i ==> NumberedIn(pairs, paths[j], ids)
    {
      var x := NumberJoin(paths[i], ref, donor, paths, pairs);
      ids := ids[paths[i] := x];
    }
  }

  lemma {:induction false} PairIsListed(paths: seq<string>, donor: map<string, string>, pairs: seq<(string, string)>, p: string) returns (k: nat)
    requires PairsOk(pairs, paths, donor) && p in paths
    ensures InPair(pairs, p, k) && p in donor
  {
    assert Listed(pairs, donor, p);
    k :| 0 <= k < |pairs| && pairs[k] == SortedPair(p, donor[p]);
  }

  lemma {:induction false} SideTells(paths: seq<string>, donor: map<string, string>, pairs: seq<(string, string)>, p: string, k: nat)
    requires PairsOk(pairs, paths, donor) && p in donor && InPair(pairs, p, k)
    ensures Numbered(pairs, p, 2 * k + if Less(p, donor[p]) then 1 else 0)
  {
    assert IsPair(pairs[k], paths, donor);
    LessIsTotal(p, donor[p]);
  }

  /** The number is odd exactly when the path comes before that of the opposite join in the dictionary. */
  lemma {:induction false} NumberTellsOrder(paths: seq<string>, donor: map<string, string>, pairs: seq<(string, string)>, p: string, x: nat)
    requires PairsOk(pairs, paths, donor) && Numbered(pairs, p, x)
    ensures p in donor && (x % 2 == 1 <==> Precedes(p, donor[p]))
  {
    assert IsPair(pairs[x / 2], paths, donor);
    LessIsTotal(p, donor[p]);
    LessIsPrecedes(p, donor[p]);
  }

  /** A join is in one pair only. */
  lemma {:induction false} OnePair(paths: seq<string>, donor: map<string, string>, pairs: seq<(string, string)>, p: string, i: nat, j: nat)
    requires PairsOk(pairs, paths, donor) && InPair(pairs, p, i) && InPair(pairs, p, j)
    ensures i == j
  {
    assert IsPair(pairs[i], paths, donor) && IsPair(pairs[j], paths, donor);
    LessIsTotal(pairs[i].0, pairs[i].1);
    assert pairs[i] == pairs[j];
  }

  /** A join has one number, and opposite joins have opposite numbers. */
  lemma {:induction false} NumbersOppose(paths: seq<string>, donor: map<string, string>, pairs: seq<(string, string)>, p: string, x: nat, q: string, y: nat)
    requires PairsOk(pairs, paths, donor) && Numbered(pairs, p, x) && Numbered(pairs, q, y)
    ensures p == q <==> x == y
    ensures p in donor && (q == donor[p] <==> y == Opposite(x))
  {
    var k := x / 2;
    assert IsPair(pairs[k], paths, donor);
    LessIsIrreflexive(p);
    OppositeIsOther(x, y);
    if p == q { OnePair(paths, donor, pairs, p, x / 2, y / 2); }
    if q == donor[p] { OnePair(paths, donor, pairs, q, x / 2, y / 2); }
  }
}

/**
 Groups of zones that are connected by matching joins
 (Tree.find_connected_zones in maia/pytree/sids/node_inspect.py, append_unique in maia/pytree/sids/utils.py).
 */
module ConnectedZones {
  import opened Basics
  import opened Counting
  import Strings

  /** A join: path of the opposite zone, whether it is one-to-one, whether it carries a join property (periodic). */
  datatype Gc = Gc(donor: string, oneToOne: bool, periodic: bool)

  datatype Zone = Zone(path: string, gcs: seq<Gc>)

  predicate Matching(gc: Gc) {
    gc.oneToOne && !gc.periodic
  }

  /** The zone lists a matching join towards `d`. */
  ghost predicate Lists(z: Zone, d: string) {
    exists k :: 0 <= k < |z.gcs| && Matching(z.gcs[k]) && z.gcs[k].donor == d
  }

  ghost predicate InTree(tree: seq<Zone>, a: string) {
    exists i :: 0 <= i < |tree| && tree[i].path == a
  }

  /** Zone `a` of the tree declares a matching join towards `d`. */
  ghost predicate Declares(tree: seq<Zone>, a: string, d: string) {
    exists i :: 0 <= i < |tree| && tree[i].path == a && Lists(tree[i], d)
  }

  // ---------------------------------------------------------------- join paths

  /** Two zones of the tree with a matching join between them, declared on either side. */
  ghost predicate Joined(tree: seq<Zone>, a: string, b: string) {
    InTree(tree, a) && InTree(tree, b) && (Declares(tree, a, b) || Declares(tree, b, a))
  }

  ghost predicate IsPath(tree: seq<Zone>, p: seq<string>, a: string, b: string) {
    && p != [] && p[0] == a && p[|p| - 1] == b && InTree(tree, a)
    && forall i :: 0 <= i < |p| - 1 ==> Joined(tree, p[i], p[i + 1])
  }

  /** A path of joins links the two zones. */
  ghost predicate Linked(tree: seq<Zone>, a: string, b: string) {
    exists p :: IsPath(tree, p, a, b)
  }

  lemma {:induction false} LinkedToItself(tree: seq<Zone>, a: string)
    requires InTree(tree, a)
    ensures Linked(tree, a, a)
  {
    assert IsPath(tree, [a], a, a);
  }

  lemma {:induction false} JoinedIsLinked(tree: seq<Zone>, a: string, b: string)
    requires Joined(tree, a, b)
    ensures Linked(tree, a, b)
  {
    assert IsPath(tree, [a, b], a, b);
  }

  lemma {:induction false} PathEndInTree(tree: seq<Zone>, p: seq<string>, a: string, b: string)
    requires IsPath(tree, p, a, b)
    ensures InTree(tree, b)
  {
    if |p| > 1 { assert Joined(tree, p[|p| - 2], p[|p| - 2 + 1]); }
  }

  lemma {:induction false} LinkedBack(tree: seq<Zone>, a: string, b: string)
    requires Linked(tree, a, b)
    ensures Linked(tree, b, a)
  {
    var p :| IsPath(tree, p, a, b);
    PathEndInTree(tree, p, a, b);
    var back := seq(|p|, i requires 0 <= i < |p| => p[|p| - 1 - i]);
    forall i | 0 <= i < |back| - 1 ensures Joined(tree, back[i], back[i + 1]) {
      var k := |p| - 2 - i;
      assert Joined(tree, p[k], p[k + 1]);
    }
    assert IsPath(tree, back, b, a);
  }

  lemma {:induction false} LinkedThrough(tree: seq<Zone>, a: string, b: string, c: string)
    requires Linked(tree, a, b) && Linked(tree, b, c)
    ensures Linked(tree, a, c)
  {
    var p :| IsPath(tree, p, a, b);
    var q :| IsPath(tree, q, b, c);
    var both := p + q[1..];
    forall i | 0 <= i < |both| - 1 ensures Joined(tree, both[i], both[i + 1]) {
      if i < |p| - 1 { assert Joined(tree, p[i], p[i + 1]); }
      else { var k := i - (|p| - 1); assert Joined(tree, q[k], q[k + 1]); }
    }
    assert IsPath(tree, both, a, c);
  }

  // ---------------------------------------------------------------- first pass: one group per zone

  method AppendUnique(s: seq<string>, x: string) returns (r: seq<string>)
    requires NoRepeat(s)
    ensures NoRepeat(r) && forall y :: y in r <==> y in s || y == x
  {
    r := if x in s then s else s + [x];
  }

  /** The zone and the opposite zones of its matching joins. */
  ghost predicate IsStart(z: Zone, group: seq<string>) {
    NoRepeat(group) && forall x :: x in group <==> x == z.path || Lists(z, x)
  }

  method StartGroup(z: Zone) returns (group: seq<string>)
    ensures IsStart(z, group)
  {
    group := [z.path];
    for k := 0 to |z.gcs|
      invariant NoRepeat(group)
      invariant forall x :: x in group <==> x == z.path || exists i :: 0 <= i < k && Matching(z.gcs[i]) && z.gcs[i].donor == x
    {
      if Matching(z.gcs[k]) { group := AppendUnique(group, z.gcs[k].donor); }
    }
  }

  method StartGroups(tree: seq<Zone>) returns (groups: seq<seq<string>>)
    ensures |groups| == |tree| && forall i :: 0 <= i < |groups| ==> IsStart(tree[i], groups[i])
  {
    groups := [];
    for k := 0 to |tree|
      invariant |groups| == k && forall i :: 0 <= i < k ==> IsStart(tree[i], groups[i])
    {
      var group := StartGroup(tree[k]);
      groups := groups + [group];
    }
  }

  // ---------------------------------------------------------------- second pass: merging

  function Has(z: string): seq<string> -> bool {
    (g: seq<string>) => z in g
  }

  function Lacks(z: string): seq<string> -> bool {
    (g: seq<string>) => z !in g
  }

  /** The union of the groups that contain `z`. */
  ghost predicate IsUnion(merged: seq<string>, groups: seq<seq<string>>, z: string) {
    NoRepeat(merged) && forall x :: x in merged <==> exists i :: 0 <= i < |groups| && z in groups[i] && x in groups[i]
  }

  /** The groups with `z` are replaced by their union, at the end of the list. */
  ghost predicate Merges(after: seq<seq<string>>, groups: seq<seq<string>>, z: string) {
    if Count(groups, Has(z)) == 0 then after == groups
    else |after| > 0 && after[..|after| - 1] == Filter(groups, Lacks(z)) && IsUnion(after[|after| - 1], groups, z)
  }

  /** The positions of the groups that contain `z`. */
  method FindGroups(groups: seq<seq<string>>, z: string) returns (idx: seq<nat>)
    ensures forall k :: 0 <= k < |idx| ==> idx[k] < |groups| && z in groups[idx[k]]
    ensures forall k, l :: 0 <= k < l < |idx| ==> idx[k] < idx[l]
    ensures forall i :: 0 <= i < |groups| && z in groups[i] ==> i in idx
  {
    idx := [];
    for i := 0 to |groups|
      invariant forall k :: 0 <= k < |idx| ==> idx[k] < i && z in groups[idx[k]]
      invariant forall k, l :: 0 <= k < l < |idx| ==> idx[k] < idx[l]
      invariant forall j :: 0 <= j < i && z in groups[j] ==> j in idx
    {
      if z in groups[i] { idx := idx + [i]; }
    }
  }

  lemma {:induction false} FilterKeepsAll<T>(s: seq<T>, p: T -> bool)
    requires forall i :: 0 <= i < |s| ==> p(s[i])
    ensures Filter(s, p) == s
    decreases |s|
  {
    if s != [] { FilterKeepsAll(s[..|s| - 1], p); }
  }

  lemma {:induction false} FilterConcat<T>(s: seq<T>, t: seq<T>, p: T -> bool)
    ensures Filter(s + t, p) == Filter(s, p) + Filter(t, p)
    decreases |t|
  {
    if t == [] { assert s + t == s; }
    else {
      FilterConcat(s, t[..|t| - 1], p);
      assert s + t == (s + t[..|t| - 1]) + [t[|t| - 1]];
      FilterAppend(s + t[..|t| - 1], t[|t| - 1], p);
    }
  }

  lemma {:induction false} FilterFrom(groups: seq<seq<string>>, z: string, i: nat, m: nat)
    requires i < m <= |groups| && z in groups[i] && forall k :: i < k < m ==> z !in groups[k]
    ensures Filter(groups[i..], Lacks(z)) == groups[i + 1..m] + Filter(groups[m..], Lacks(z))
  {
    var gap := groups[i + 1..m];
    assert groups[i..] == [groups[i]] + (gap + groups[m..]);
    FilterConcat([groups[i]], gap + groups[m..], Lacks(z));
    FilterConcat(gap, groups[m..], Lacks(z));
    forall k | 0 <= k < |gap| ensures Lacks(z)(gap[k]) { assert gap[k] == groups[i + 1 + k]; }
    FilterKeepsAll(gap, Lacks(z));
    FilterNone([groups[i]], Lacks(z));
  }

  lemma {:induction false} PopFront<T>(s: seq<T>, tail: seq<T>, i: nat, m: nat)
    requires i < m <= |s|
    ensures (s[..m] + tail)[i] == s[i]
    ensures (s[..m] + tail)[..i] + (s[..m] + tail)[i + 1..] == s[..i] + (s[i + 1..m] + tail)
  {
    assert (s[..m] + tail)[..i] == s[..i];
    assert (s[..m] + tail)[i + 1..] == s[i + 1..m] + tail;
  }

  /** Popping the last group with `z` before position `m` extends the part that is done down to that group. */
  lemma {:induction false} PopStep(groups: seq<seq<string>>, z: string, i: nat, m: nat)
    requires i < m <= |groups| && z in groups[i] && forall k :: i < k < m ==> z !in groups[k]
    ensures var rest := groups[..m] + Filter(groups[m..], Lacks(z));
            rest[..i] + rest[i + 1..] == groups[..i] + Filter(groups[i..], Lacks(z)) && rest[i] == groups[i]
  {
    FilterFrom(groups, z, i, m);
    PopFront(groups, Filter(groups[m..], Lacks(z)), i, m);
  }

  method MergeAt(groups: seq<seq<string>>, z: string) returns (after: seq<seq<string>>)
    ensures Merges(after, groups, z)
  {
    var idx := FindGroups(groups, z);
    if idx == [] {
      CountNone(groups, Has(z));
      return groups;
    }
    CountSome(groups, Has(z), idx[0]);
    after := groups;
    var merged: seq<string> := [];
    var m, k := |groups|, |idx|;
    assert groups[..m] + Filter(groups[m..], Lacks(z)) == groups;
    while k > 0
      invariant 0 <= k <= |idx| && m == (if k < |idx| then idx[k] else |groups|)
      invariant after == groups[..m] + Filter(groups[m..], Lacks(z))
      invariant CollectsFrom(merged, groups, idx, k)
    {
      k := k - 1;
      NothingBetween(groups, z, idx, k, m);
      PopStep(groups, z, idx[k], m);
      var popped := after[idx[k]];
      after := after[..idx[k]] + after[idx[k] + 1..];
      ghost var before := merged;
      merged := AppendAll(merged, popped);
      CollectsOneMore(before, merged, groups, idx, k);
      m := idx[k];
    }
    FirstPositions(groups, z, idx, m);
    UnionOfListed(groups, z, idx, merged);
    after := after + [merged];
  }

  /** The members of the groups listed from position `k` on. */
  ghost predicate CollectsFrom(merged: seq<string>, groups: seq<seq<string>>, idx: seq<nat>, k: nat) {
    && NoRepeat(merged) && (forall l :: 0 <= l < |idx| ==> idx[l] < |groups|)
    && forall x :: x in merged <==> InListed(groups, idx, k, x)
  }

  ghost predicate InListed(groups: seq<seq<string>>, idx: seq<nat>, k: nat, x: string)
    requires forall l :: 0 <= l < |idx| ==> idx[l] < |groups|
  {
    exists l :: k <= l < |idx| && x in groups[idx[l]]
  }

  lemma {:induction false} CollectsOneMore(before: seq<string>, after: seq<string>, groups: seq<seq<string>>, idx: seq<nat>, k: nat)
    requires k < |idx| && CollectsFrom(before, groups, idx, k + 1) && NoRepeat(after)
    requires forall x :: x in after <==> x in before || x in groups[idx[k]]
    ensures CollectsFrom(after, groups, idx, k)
  {
    forall x ensures x in after <==> InListed(groups, idx, k, x) {
      assert x in before <==> InListed(groups, idx, k + 1, x);
    }
  }

  lemma {:induction false} NothingBetween(groups: seq<seq<string>>, z: string, idx: seq<nat>, k: nat, m: nat)
    requires k < |idx| && m == (if k + 1 < |idx| then idx[k + 1] else |groups|) && m <= |groups|
    requires forall k, l :: 0 <= k < l < |idx| ==> idx[k] < idx[l]
    requires forall i :: 0 <= i < |groups| && z in groups[i] ==> i in idx
    ensures forall j :: idx[k] < j < m ==> z !in groups[j]
  {
    forall j | idx[k] < j < m ensures z !in groups[j] {
      assert j !in idx by {
        forall l | 0 <= l < |idx| ensures idx[l] != j { if l > k { assert k + 1 < l ==> idx[k + 1] < idx[l]; } }
      }
    }
  }

  lemma {:induction false} FirstPositions(groups: seq<seq<string>>, z: string, idx: seq<nat>, m: nat)
    requires idx != [] && m == idx[0] < |groups|
    requires forall k, l :: 0 <= k < l < |idx| ==> idx[k] < idx[l]
    requires forall i :: 0 <= i < |groups| && z in groups[i] ==> i in idx
    ensures groups[..m] + Filter(groups[m..], Lacks(z)) == Filter(groups, Lacks(z))
  {
    forall j | 0 <= j < m ensures z !in groups[j] {
      assert j !in idx by {
        forall l | 0 <= l < |idx| ensures idx[l] != j { assert 0 < l ==> idx[0] < idx[l]; }
      }
    }
    FilterKeepsAll(groups[..m], Lacks(z));
    FilterConcat(groups[..m], groups[m..], Lacks(z));
    assert groups == groups[..m] + groups[m..];
  }

  lemma {:induction false} UnionOfListed(groups: seq<seq<string>>, z: string, idx: seq<nat>, merged: seq<string>)
    requires forall k :: 0 <= k < |idx| ==> idx[k] < |groups| && z in groups[idx[k]]
    requires forall i :: 0 <= i < |groups| && z in groups[i] ==> i in idx
    requires CollectsFrom(merged, groups, idx, 0)
    ensures IsUnion(merged, groups, z)
  {
    forall x ensures x in merged <==> exists i :: 0 <= i < |groups| && z in groups[i] && x in groups[i] {
      assert x in merged <==> InListed(groups, idx, 0, x);
      if i :| 0 <= i < |groups| && z in groups[i] && x in groups[i] {
        var l :| 0 <= l < |idx| && idx[l] == i;
      }
    }
  }

  method AppendAll(s: seq<string>, more: seq<string>) returns (r: seq<string>)
    requires NoRepeat(s)
    ensures NoRepeat(r) && forall x :: x in r <==> x in s || x in more
  {
    r := s;
    for k := 0 to |more|
      invariant NoRepeat(r) && forall x :: x in r <==> x in s || x in more[..k]
    {
      r := AppendUnique(r, more[k]);
    }
    assert more[..|more|] == more;
  }

  // ---------------------------------------------------------------- what merging keeps

  ghost predicate HasZone(tree: seq<Zone>, g: seq<string>) {
    exists a :: a in g && InTree(tree, a)
  }

  ghost predicate DeclaredIn(tree: seq<Zone>, g: seq<string>, x: string) {
    exists a :: a in g && Declares(tree, a, x)
  }

  /** The zones of a group are linked; its other members are declared by one of its zones. */
  ghost predicate GroupOk(tree: seq<Zone>, g: seq<string>) {
    && NoRepeat(g) && HasZone(tree, g)
    && (forall a, b {:trigger Linked(tree, a, b)} :: a in g && b in g && InTree(tree, a) && InTree(tree, b) ==> Linked(tree, a, b))
    && forall x {:trigger DeclaredIn(tree, g, x)} :: x in g && !InTree(tree, x) ==> DeclaredIn(tree, g, x)
  }

  ghost predicate Together(groups: seq<seq<string>>, a: string, d: string) {
    exists i :: 0 <= i < |groups| && a in groups[i] && d in groups[i]
  }

  /** Every group is sound, joined zones are together, and every zone is in some group. */
  ghost predicate Sound(tree: seq<Zone>, groups: seq<seq<string>>) {
    && (forall i :: 0 <= i < |groups| ==> GroupOk(tree, groups[i]))
    && (forall a, d {:trigger Declares(tree, a, d)} :: Declares(tree, a, d) ==> Together(groups, a, d))
    && forall a {:trigger InTree(tree, a)} :: InTree(tree, a) ==> Count(groups, Has(a)) >= 1
  }

  lemma {:induction false} StartOk(tree: seq<Zone>, i: nat, g: seq<string>)
    requires i < |tree| && IsStart(tree[i], g)
    ensures GroupOk(tree, g)
  {
    var z := tree[i].path;
    assert InTree(tree, z) && z in g;
    LinkedToItself(tree, z);
    forall a | a in g && InTree(tree, a) ensures Linked(tree, z, a) && Linked(tree, a, z) {
      if a != z { assert Joined(tree, z, a); JoinedIsLinked(tree, z, a); }
      LinkedBack(tree, z, a);
    }
    forall a, b | a in g && b in g && InTree(tree, a) && InTree(tree, b) ensures Linked(tree, a, b) {
      LinkedThrough(tree, a, z, b);
    }
    forall x | x in g && !InTree(tree, x) ensures DeclaredIn(tree, g, x) { assert Declares(tree, z, x); }
  }

  lemma {:induction false} StartIsSound(tree: seq<Zone>, groups: seq<seq<string>>)
    requires |groups| == |tree| && forall i :: 0 <= i < |groups| ==> IsStart(tree[i], groups[i])
    ensures Sound(tree, groups)
  {
    forall i | 0 <= i < |groups| ensures GroupOk(tree, groups[i]) { StartOk(tree, i, groups[i]); }
    forall a, d | Declares(tree, a, d) ensures Together(groups, a, d) {
      var i :| 0 <= i < |tree| && tree[i].path == a && Lists(tree[i], d);
      assert a in groups[i] && d in groups[i];
    }
    forall a | InTree(tree, a) ensures Count(groups, Has(a)) >= 1 {
      var i :| 0 <= i < |tree| && tree[i].path == a;
      CountSome(groups, Has(a), i);
    }
  }

  lemma {:induction false} UnionOk(tree: seq<Zone>, groups: seq<seq<string>>, z: string, merged: seq<string>)
    requires (forall i :: 0 <= i < |groups| ==> GroupOk(tree, groups[i])) && InTree(tree, z)
    requires IsUnion(merged, groups, z) && z in merged
    ensures GroupOk(tree, merged)
  {
    forall a | a in merged && InTree(tree, a) ensures Linked(tree, a, z) && Linked(tree, z, a) {
      var i :| 0 <= i < |groups| && z in groups[i] && a in groups[i];
      assert GroupOk(tree, groups[i]);
    }
    forall a, b | a in merged && b in merged && InTree(tree, a) && InTree(tree, b) ensures Linked(tree, a, b) {
      LinkedThrough(tree, a, z, b);
    }
    forall x | x in merged && !InTree(tree, x) ensures DeclaredIn(tree, merged, x) {
      var i :| 0 <= i < |groups| && z in groups[i] && x in groups[i];
      assert DeclaredIn(tree, groups[i], x);
      var a :| a in groups[i] && Declares(tree, a, x);
      assert a in merged;
    }
  }

  function HasBoth(a: string, z: string): seq<string> -> bool {
    (g: seq<string>) => a in g && z in g
  }

  function HasOnly(a: string, z: string): seq<string> -> bool {
    (g: seq<string>) => a in g && z !in g
  }

  lemma {:induction false} CountSplits(groups: seq<seq<string>>, a: string, z: string)
    ensures Count(groups, Has(a)) == Count(groups, HasBoth(a, z)) + Count(groups, HasOnly(a, z))
    decreases |groups|
  {
    if groups != [] { CountSplits(groups[..|groups| - 1], a, z); }
  }

  /** Merging puts the groups of `a` that also have `z` into one, and leaves the others. */
  lemma {:induction false} MergeCount(after: seq<seq<string>>, groups: seq<seq<string>>, z: string, a: string)
    requires Merges(after, groups, z)
    ensures Count(after, Has(a)) == Count(groups, HasOnly(a, z)) + if Count(groups, HasBoth(a, z)) > 0 then 1 else 0
  {
    CountSplits(groups, a, z);
    if Count(groups, Has(z)) == 0 {
      if Count(groups, HasBoth(a, z)) > 0 {
        var i := CountWitness(groups, HasBoth(a, z));
        CountSome(groups, Has(z), i);
      }
    } else {
      var merged := after[|after| - 1];
      assert after == Filter(groups, Lacks(z)) + [merged];
      CountAppend(Filter(groups, Lacks(z)), merged, Has(a));
      CountFilter(groups, Lacks(z), Has(a), HasOnly(a, z));
      if Count(groups, HasBoth(a, z)) > 0 {
        var i := CountWitness(groups, HasBoth(a, z));
      } else if a in merged {
        var i :| 0 <= i < |groups| && z in groups[i] && a in groups[i];
        CountSome(groups, HasBoth(a, z), i);
      }
    }
  }

  lemma {:induction false} MergeKeepsTogether(after: seq<seq<string>>, groups: seq<seq<string>>, z: string, a: string, d: string)
    requires Merges(after, groups, z) && Together(groups, a, d)
    ensures Together(after, a, d)
  {
    if Count(groups, Has(z)) > 0 {
      var i :| 0 <= i < |groups| && a in groups[i] && d in groups[i];
      var rest := Filter(groups, Lacks(z));
      if z in groups[i] {
        assert a in after[|after| - 1] && d in after[|after| - 1];
      } else {
        FilterMembers(groups, Lacks(z), groups[i]);
        var k :| 0 <= k < |rest| && rest[k] == groups[i];
        assert after[k] == rest[k];
      }
    }
  }

  lemma {:induction false} MergeKeepsOk(tree: seq<Zone>, after: seq<seq<string>>, groups: seq<seq<string>>, z: string, i: nat)
    requires Merges(after, groups, z) && InTree(tree, z) && i < |after| && forall i :: 0 <= i < |groups| ==> GroupOk(tree, groups[i])
    ensures GroupOk(tree, after[i])
  {
    if Count(groups, Has(z)) > 0 {
      var rest := Filter(groups, Lacks(z));
      if i < |after| - 1 {
        assert after[i] == rest[i];
        FilterMembers(groups, Lacks(z), rest[i]);
      } else {
        var k := CountWitness(groups, Has(z));
        UnionOk(tree, groups, z, after[i]);
      }
    }
  }

  /** A zone of the tree stays in some group; `z`, and a zone that was in one group, are in one group afterwards. */
  lemma {:induction false} MergeSettles(after: seq<seq<string>>, groups: seq<seq<string>>, z: string, a: string)
    requires Merges(after, groups, z) && Count(groups, Has(a)) >= 1
    ensures Count(after, Has(a)) >= 1
    ensures a == z || Count(groups, Has(a)) == 1 ==> Count(after, Has(a)) == 1
  {
    CountSplits(groups, a, z);
    MergeCount(after, groups, z, a);
    if a == z { CountNone(groups, HasOnly(z, z)); }
  }

  lemma {:induction false} MergeIsSound(tree: seq<Zone>, after: seq<seq<string>>, groups: seq<seq<string>>, z: string)
    requires Merges(after, groups, z) && InTree(tree, z) && Sound(tree, groups)
    ensures Sound(tree, after)
  {
    forall i | 0 <= i < |after| ensures GroupOk(tree, after[i]) { MergeKeepsOk(tree, after, groups, z, i); }
    forall a, d | Declares(tree, a, d) ensures Together(after, a, d) { MergeKeepsTogether(after, groups, z, a, d); }
    forall a | InTree(tree, a) ensures Count(after, Has(a)) >= 1 { MergeSettles(after, groups, z, a); }
  }

  // ---------------------------------------------------------------- the groups are the components

  /** The component of a zone: the zones linked to it, and the zones missing from the tree that these declare joins with. */
  ghost predicate InComponent(tree: seq<Zone>, z: string, x: string) {
    if InTree(tree, x) then Linked(tree, z, x) else exists w :: Linked(tree, z, w) && Declares(tree, w, x)
  }

  ghost predicate OnlyIn(groups: seq<seq<string>>, z: string, i: nat) {
    i < |groups| && forall j :: 0 <= j < |groups| ==> (Has(z)(groups[j]) <==> j == i)
  }

  ghost predicate InOneGroup(groups: seq<seq<string>>, z: string) {
    exists i: nat :: OnlyIn(groups, z, i)
  }

  ghost predicate Sorted(s: seq<string>) {
    forall i, j :: 0 <= i < j < |s| ==> Strings.Less(s[i], s[j])
  }

  /** The groups are the connected components. */
  ghost predicate AreComponents(tree: seq<Zone>, groups: seq<seq<string>>) {
    && (forall z {:trigger InTree(tree, z)} :: InTree(tree, z) ==> InOneGroup(groups, z))
    && (forall i :: 0 <= i < |groups| ==> HasZone(tree, groups[i]))
    && forall i, z, x {:trigger InComponent(tree, z, x), groups[i]} :: 0 <= i < |groups| && z in groups[i] && InTree(tree, z) ==>
         (x in groups[i] <==> InComponent(tree, z, x))
  }

  lemma {:induction false} CountOneIsOne(groups: seq<seq<string>>, z: string, i: nat, j: nat)
    requires Count(groups, Has(z)) == 1 && i < |groups| && j < |groups| && z in groups[i] && z in groups[j]
    ensures i == j
  {
    if i != j {
      CountWithout(groups, i, Has(z));
      var rest := groups[..i] + groups[i + 1..];
      var k := if j < i then j else j - 1;
      assert rest[k] == groups[j];
      CountSome(rest, Has(z), k);
    }
  }

  /** All zones are counted once: the merging is over. */
  ghost predicate Settled(tree: seq<Zone>, groups: seq<seq<string>>) {
    Sound(tree, groups) && forall a {:trigger InTree(tree, a)} :: InTree(tree, a) ==> Count(groups, Has(a)) == 1
  }

  lemma {:induction false} JoinedStays(tree: seq<Zone>, groups: seq<seq<string>>, i: nat, a: string, b: string)
    requires Settled(tree, groups) && i < |groups| && a in groups[i] && Joined(tree, a, b)
    ensures b in groups[i]
  {
    assert Together(groups, a, b) || Together(groups, b, a);
    var j :| 0 <= j < |groups| && a in groups[j] && b in groups[j];
    CountOneIsOne(groups, a, i, j);
  }

  lemma {:induction false} PathStays(tree: seq<Zone>, groups: seq<seq<string>>, i: nat, p: seq<string>, a: string, k: nat)
    requires Settled(tree, groups) && i < |groups| && k < |p| && IsPath(tree, p, a, p[|p| - 1]) && a in groups[i]
    ensures p[k] in groups[i]
    decreases k
  {
    if k > 0 {
      PathStays(tree, groups, i, p, a, k - 1);
      assert Joined(tree, p[k - 1], p[k - 1 + 1]);
      JoinedStays(tree, groups, i, p[k - 1], p[k]);
    }
  }

  lemma {:induction false} LinkedStays(tree: seq<Zone>, groups: seq<seq<string>>, i: nat, z: string, x: string)
    requires Settled(tree, groups) && i < |groups| && z in groups[i] && Linked(tree, z, x)
    ensures x in groups[i]
  {
    var p :| IsPath(tree, p, z, x);
    PathStays(tree, groups, i, p, z, |p| - 1);
  }

  lemma {:induction false} DeclaredInTree(tree: seq<Zone>, a: string, d: string)
    requires Declares(tree, a, d)
    ensures InTree(tree, a)
  {
  }

  lemma {:induction false} GroupIsComponent(tree: seq<Zone>, groups: seq<seq<string>>, i: nat, z: string, x: string)
    requires Settled(tree, groups) && i < |groups| && z in groups[i] && InTree(tree, z)
    ensures x in groups[i] <==> InComponent(tree, z, x)
  {
    var g := groups[i];
    assert GroupOk(tree, g);
    if InTree(tree, x) {
      if Linked(tree, z, x) { LinkedStays(tree, groups, i, z, x); }
    } else {
      if x in g {
        assert DeclaredIn(tree, g, x);
        var a :| a in g && Declares(tree, a, x);
        DeclaredInTree(tree, a, x);
        assert Linked(tree, z, a);
      }
      if w :| Linked(tree, z, w) && Declares(tree, w, x) {
        LinkedStays(tree, groups, i, z, w);
        DeclaredInTree(tree, w, x);
        var j :| 0 <= j < |groups| && w in groups[j] && x in groups[j];
        CountOneIsOne(groups, w, i, j);
      }
    }
  }

  lemma {:induction false} SettledIsComponents(tree: seq<Zone>, groups: seq<seq<string>>)
    requires Settled(tree, groups)
    ensures AreComponents(tree, groups)
  {
    forall z | InTree(tree, z) ensures InOneGroup(groups, z) {
      var i := CountWitness(groups, Has(z));
      forall j | 0 <= j < |groups| && z in groups[j] ensures j == i { CountOneIsOne(groups, z, i, j); }
      assert OnlyIn(groups, z, i);
    }
    forall i, z, x | 0 <= i < |groups| && z in groups[i] && InTree(tree, z) ensures x in groups[i] <==> InComponent(tree, z, x) {
      GroupIsComponent(tree, groups, i, z, x);
    }
    forall i | 0 <= i < |groups| ensures HasZone(tree, groups[i]) { assert GroupOk(tree, groups[i]); }
  }

  // ---------------------------------------------------------------- the whole search

  lemma {:induction false} InsertSorted(s: seq<string>, x: string, pos: nat)
    requires Sorted(s) && pos <= |s|
    requires forall i :: 0 <= i < pos ==> Strings.Less(s[i], x)
    requires pos < |s| ==> Strings.Less(x, s[pos])
    ensures Sorted(s[..pos] + [x] + s[pos..])
  {
    var r := s[..pos] + [x] + s[pos..];
    assert forall i :: 0 <= i < |r| ==> r[i] == if i < pos then s[i] else if i == pos then x else s[i - 1];
    forall i, j | 0 <= i < j < |r| ensures Strings.Less(r[i], r[j]) {
      if i == pos && j > pos + 1 { Strings.LessIsTransitive(x, s[pos], s[j - 1]); }
    }
  }

  /** Sort a list without repetition. */
  method Sort(s: seq<string>) returns (r: seq<string>)
    requires NoRepeat(s)
    ensures Sorted(r) && |r| == |s| && forall x :: x in r <==> x in s
  {
    r := [];
    for k := 0 to |s|
      invariant Sorted(r) && |r| == k && forall x :: x in r <==> x in s[..k]
    {
      var x, pos := s[k], 0;
      while pos < |r| && Strings.Less(r[pos], x)
        invariant 0 <= pos <= |r| && forall i :: 0 <= i < pos ==> Strings.Less(r[i], x)
      {
        pos := pos + 1;
      }
      assert x !in s[..k];
      if pos < |r| { assert r[pos] in s[..k]; Strings.LessIsTotal(r[pos], x); }
      InsertSorted(r, x, pos);
      ghost var before := r;
      r := r[..pos] + [x] + r[pos..];
      assert forall y :: y in r <==> y in before || y == x by { assert before == before[..pos] + before[pos..]; }
    }
    assert s[..|s|] == s;
  }

  /** The first `k` zones are in one group each. */
  ghost predicate DoneUpTo(tree: seq<Zone>, groups: seq<seq<string>>, k: nat) {
    forall i :: 0 <= i < k && i < |tree| ==> Count(groups, Has(tree[i].path)) == 1
  }

  lemma {:induction false} ListedInTree(tree: seq<Zone>, i: nat)
    requires i < |tree|
    ensures InTree(tree, tree[i].path)
  {
  }

  lemma {:induction false} DoneAdvances(tree: seq<Zone>, after: seq<seq<string>>, groups: seq<seq<string>>, k: nat)
    requires k < |tree| && Merges(after, groups, tree[k].path) && DoneUpTo(tree, groups, k) && Count(groups, Has(tree[k].path)) >= 1
    ensures DoneUpTo(tree, after, k + 1)
  {
    forall i: nat | i < k + 1 ensures Count(after, Has(tree[i].path)) == 1 {
      MergeSettles(after, groups, tree[k].path, tree[i].path);
    }
  }

  lemma {:induction false} MergeAdvances(tree: seq<Zone>, after: seq<seq<string>>, groups: seq<seq<string>>, k: nat)
    requires k < |tree| && Merges(after, groups, tree[k].path) && Sound(tree, groups) && DoneUpTo(tree, groups, k)
    ensures Sound(tree, after) && DoneUpTo(tree, after, k + 1)
  {
    ListedInTree(tree, k);
    MergeIsSound(tree, after, groups, tree[k].path);
    DoneAdvances(tree, after, groups, k);
  }

  lemma {:induction false} AllDone(tree: seq<Zone>, groups: seq<seq<string>>)
    requires Sound(tree, groups) && DoneUpTo(tree, groups, |tree|)
    ensures AreComponents(tree, groups) && forall i :: 0 <= i < |groups| ==> NoRepeat(groups[i])
  {
    SettledIsComponents(tree, groups);
    forall i | 0 <= i < |groups| ensures NoRepeat(groups[i]) { assert GroupOk(tree, groups[i]); }
  }

  // ---------------------------------------------------------------- the order of the groups

  /** The position of the last of the first `k` zones that is in the group, -1 if there is none. */
  ghost function LastZone(tree: seq<Zone>, g: seq<string>, k: nat): (i: int)
    requires k <= |tree|
    ensures -1 <= i < k && (i >= 0 ==> tree[i].path in g) && forall j :: i < j < k ==> tree[j].path !in g
  {
    if k == 0 then -1 else if tree[k - 1].path in g then k - 1 else LastZone(tree, g, k - 1)
  }

  ghost predicate Before(tree: seq<Zone>, g: seq<string>, h: seq<string>, k: nat)
    requires k <= |tree|
  {
    LastZone(tree, g, k) < LastZone(tree, h, k) || LastZone(tree, h, k) == -1 == LastZone(tree, g, k)
  }

  /** After `k` turns, groups come in the order of the last zone that had its turn. */
  ghost predicate Ranked(tree: seq<Zone>, groups: seq<seq<string>>, k: nat)
    requires k <= |tree|
  {
    forall i, j :: 0 <= i < j < |groups| ==> Before(tree, groups[i], groups[j], k)
  }

  lemma {:induction false} FilterRanked(tree: seq<Zone>, groups: seq<seq<string>>, p: seq<string> -> bool, k: nat)
    requires k <= |tree| && Ranked(tree, groups, k)
    ensures Ranked(tree, Filter(groups, p), k)
    decreases |groups|
  {
    if groups != [] {
      var front, last := groups[..|groups| - 1], groups[|groups| - 1];
      FilterRanked(tree, front, p, k);
      var kept := Filter(front, p);
      forall i | 0 <= i < |kept| ensures Before(tree, kept[i], last, k) {
        FilterMembers(front, p, kept[i]);
        var j :| 0 <= j < |front| && front[j] == kept[i];
        assert Before(tree, groups[j], groups[|groups| - 1], k);
      }
    }
  }

  lemma {:induction false} TurnIsIdle(tree: seq<Zone>, groups: seq<seq<string>>, k: nat)
    requires k < |tree| && Ranked(tree, groups, k) && forall i :: 0 <= i < |groups| ==> tree[k].path !in groups[i]
    ensures Ranked(tree, groups, k + 1)
  {
    forall i, j | 0 <= i < j < |groups| ensures Before(tree, groups[i], groups[j], k + 1) { assert Before(tree, groups[i], groups[j], k); }
  }

  lemma {:induction false} MergeRanks(tree: seq<Zone>, after: seq<seq<string>>, groups: seq<seq<string>>, k: nat)
    requires k < |tree| && Merges(after, groups, tree[k].path) && Ranked(tree, groups, k) && Count(groups, Has(tree[k].path)) >= 1
    ensures Ranked(tree, after, k + 1)
  {
    var z, kept, merged := tree[k].path, after[..|after| - 1], after[|after| - 1];
    FilterRanked(tree, groups, Lacks(z), k);
    forall i | 0 <= i < |kept| ensures z !in kept[i] { FilterMembers(groups, Lacks(z), kept[i]); }
    TurnIsIdle(tree, kept, k);
    var i := CountWitness(groups, Has(z));
    assert z in merged;
    assert after == kept + [merged];
    forall j | 0 <= j < |kept| ensures Before(tree, kept[j], merged, k + 1) {}
  }

  /** The groups come in the order of their last zones in the tree. */
  ghost predicate ByLastZone(tree: seq<Zone>, groups: seq<seq<string>>) {
    forall i, j :: 0 <= i < j < |groups| ==> LastZone(tree, groups[i], |tree|) < LastZone(tree, groups[j], |tree|)
  }

  lemma {:induction false} RankedIsOrdered(tree: seq<Zone>, groups: seq<seq<string>>)
    requires Ranked(tree, groups, |tree|) && AreComponents(tree, groups)
    ensures ByLastZone(tree, groups)
  {
    forall i, j | 0 <= i < j < |groups| ensures LastZone(tree, groups[i], |tree|) < LastZone(tree, groups[j], |tree|) {
      assert Before(tree, groups[i], groups[j], |tree|) && HasZone(tree, groups[j]);
      var a :| a in groups[j] && InTree(tree, a);
      var l :| 0 <= l < |tree| && tree[l].path == a;
    }
  }

  lemma {:induction false} LastZoneReordered(tree: seq<Zone>, g: seq<string>, h: seq<string>, k: nat)
    requires k <= |tree| && SameMembers(g, h)
    ensures LastZone(tree, g, k) == LastZone(tree, h, k)
    decreases k
  {
    if k > 0 { LastZoneReordered(tree, g, h, k - 1); }
  }

  method MergeGroups(tree: seq<Zone>) returns (groups: seq<seq<string>>)
    ensures AreComponents(tree, groups) && ByLastZone(tree, groups) && forall i :: 0 <= i < |groups| ==> NoRepeat(groups[i])
  {
    groups := StartGroups(tree);
    StartIsSound(tree, groups);
    for k := 0 to |tree|
      invariant Sound(tree, groups) && DoneUpTo(tree, groups, k) && Ranked(tree, groups, k)
    {
      var after := MergeAt(groups, tree[k].path);
      MergeAdvances(tree, after, groups, k);
      ZoneIsSomewhere(tree, groups, k);
      MergeRanks(tree, after, groups, k);
      groups := after;
    }
    AllDone(tree, groups);
    RankedIsOrdered(tree, groups);
  }

  lemma {:induction false} ZoneIsSomewhere(tree: seq<Zone>, groups: seq<seq<string>>, k: nat)
    requires k < |tree| && Sound(tree, groups)
    ensures Count(groups, Has(tree[k].path)) >= 1
  {
    ListedInTree(tree, k);
  }

  ghost predicate SameMembers(s: seq<string>, t: seq<string>) {
    forall x :: x in s <==> x in t
  }

  method SortGroups(groups: seq<seq<string>>) returns (sorted: seq<seq<string>>)
    requires forall i :: 0 <= i < |groups| ==> NoRepeat(groups[i])
    ensures |sorted| == |groups| && forall i :: 0 <= i < |groups| ==> Sorted(sorted[i]) && SameMembers(sorted[i], groups[i])
  {
    sorted := [];
    for k := 0 to |groups|
      invariant |sorted| == k && forall i :: 0 <= i < k ==> Sorted(sorted[i]) && SameMembers(sorted[i], groups[i])
    {
      var g := Sort(groups[k]);
      sorted := sorted + [g];
    }
  }

  /** The groups are exactly the connected components, each sorted, in the order of their last zones in the tree. */
  method FindConnectedZones(tree: seq<Zone>) returns (groups: seq<seq<string>>)
    ensures AreComponents(tree, groups) && ByLastZone(tree, groups)
    ensures forall i :: 0 <= i < |groups| ==> Sorted(groups[i])
  {
    var connected := MergeGroups(tree);
    groups := SortGroups(connected);
    ComponentsReordered(tree, connected, groups);
    forall i | 0 <= i < |groups| ensures LastZone(tree, groups[i], |tree|) == LastZone(tree, connected[i], |tree|) {
      LastZoneReordered(tree, groups[i], connected[i], |tree|);
    }
  }

  lemma {:induction false} MembersReordered(tree: seq<Zone>, groups: seq<seq<string>>, i: nat, g: seq<string>, z: string, x: string)
    requires AreComponents(tree, groups) && i < |groups| && SameMembers(g, groups[i]) && z in g && InTree(tree, z)
    ensures x in g <==> InComponent(tree, z, x)
  {
    assert z in groups[i];
    assert x in groups[i] <==> InComponent(tree, z, x);
  }

  lemma {:induction false} ComponentsReordered(tree: seq<Zone>, groups: seq<seq<string>>, sorted: seq<seq<string>>)
    requires AreComponents(tree, groups) && |sorted| == |groups|
    requires forall i :: 0 <= i < |groups| ==> SameMembers(sorted[i], groups[i])
    ensures AreComponents(tree, sorted)
  {
    forall z | InTree(tree, z) ensures InOneGroup(sorted, z) {
      assert InOneGroup(groups, z);
      OneGroupReordered(groups, sorted, z);
    }
    forall i | 0 <= i < |sorted| ensures HasZone(tree, sorted[i]) {
      assert HasZone(tree, groups[i]);
      var a :| a in groups[i] && InTree(tree, a);
      assert a in sorted[i];
    }
    forall i, z, x | 0 <= i < |sorted| && z in sorted[i] && InTree(tree, z) ensures x in sorted[i] <==> InComponent(tree, z, x) {
      MembersReordered(tree, groups, i, sorted[i], z, x);
    }
  }

  lemma {:induction false} OneGroupReordered(groups: seq<seq<string>>, sorted: seq<seq<string>>, z: string)
    requires |sorted| == |groups| && forall i :: 0 <= i < |groups| ==> SameMembers(sorted[i], groups[i])
    requires InOneGroup(groups, z)
    ensures InOneGroup(sorted, z)
  {
    var i: nat :| OnlyIn(groups, z, i);
    forall j | 0 <= j < |sorted| ensures Has(z)(sorted[j]) <==> j == i {
      assert SameMembers(sorted[j], groups[j]) && (Has(z)(groups[j]) <==> j == i);
    }
    assert OnlyIn(sorted, z, i);
  }

  /** Two zones of the tree share a group exactly when a path of joins links them. */
  lemma {:induction false} ShareGroupIffLinked(tree: seq<Zone>, groups: seq<seq<string>>, a: string, b: string)
    requires AreComponents(tree, groups) && InTree(tree, a) && InTree(tree, b)
    ensures Together(groups, a, b) <==> Linked(tree, a, b)
  {
    assert InOneGroup(groups, a);
    var i: nat :| OnlyIn(groups, a, i);
    assert Has(a)(groups[i]);
    assert b in groups[i] <==> InComponent(tree, a, b);
    forall j | 0 <= j < |groups| && a in groups[j] ensures j == i { assert Has(a)(groups[j]); }
  }

  ghost predicate Disjoint(groups: seq<seq<string>>) {
    forall i, j, x {:trigger x in groups[i], x in groups[j]} ::
      0 <= i < |groups| && 0 <= j < |groups| && x in groups[i] && x in groups[j] ==> i == j
  }

  /** Zones that declare joins with the same missing zone are linked. */
  ghost predicate MissingZonesAgree(tree: seq<Zone>) {
    forall a, b, x {:trigger Declares(tree, a, x), Declares(tree, b, x)} ::
      !InTree(tree, x) && Declares(tree, a, x) && Declares(tree, b, x) ==> Linked(tree, a, b)
  }

  /**
   The groups are disjoint exactly when no zone that is missing from the tree is declared by zones that are not linked.
   In particular they are disjoint when all opposite zones are in the tree.
   */
  lemma {:induction false} DisjointIffMissingAgree(tree: seq<Zone>, groups: seq<seq<string>>)
    requires AreComponents(tree, groups)
    ensures Disjoint(groups) <==> MissingZonesAgree(tree)
  {
    if MissingZonesAgree(tree) {
      forall i, j, x | 0 <= i < |groups| && 0 <= j < |groups| && x in groups[i] && x in groups[j] ensures i == j {
        SharedMember(tree, groups, i, j, x);
      }
    }
    if Disjoint(groups) {
      forall a, b, x | !InTree(tree, x) && Declares(tree, a, x) && Declares(tree, b, x) ensures Linked(tree, a, b) {
        var i := GroupWith(tree, groups, a, x);
        var j := GroupWith(tree, groups, b, x);
        assert x in groups[i] && x in groups[j];
        assert Together(groups, a, b);
        ShareGroupIffLinked(tree, groups, a, b);
      }
    }
  }

  lemma {:induction false} GroupWith(tree: seq<Zone>, groups: seq<seq<string>>, a: string, x: string) returns (i: nat)
    requires AreComponents(tree, groups) && Declares(tree, a, x) && !InTree(tree, x)
    ensures i < |groups| && a in groups[i] && x in groups[i] && InTree(tree, a)
  {
    DeclaredInTree(tree, a, x);
    assert InOneGroup(groups, a);
    i :| OnlyIn(groups, a, i);
    assert Has(a)(groups[i]);
    LinkedToItself(tree, a);
    assert InComponent(tree, a, x);
    assert groups[i] == groups[i];
  }

  lemma {:induction false} SharedMember(tree: seq<Zone>, groups: seq<seq<string>>, i: nat, j: nat, x: string)
    requires AreComponents(tree, groups) && MissingZonesAgree(tree) && i < |groups| && j < |groups| && x in groups[i] && x in groups[j]
    ensures i == j
  {
    if InTree(tree, x) {
      InOnlyOne(groups, x, i, j);
    } else {
      var a, v := DeclarerIn(tree, groups, i, x);
      var b, w := DeclarerIn(tree, groups, j, x);
      assert Linked(tree, v, w);
      LinkedThrough(tree, a, v, w);
      LinkedBack(tree, b, w);
      LinkedThrough(tree, a, w, b);
      ShareGroupIffLinked(tree, groups, a, b);
      var k :| 0 <= k < |groups| && a in groups[k] && b in groups[k];
      InOnlyOne(groups, a, i, k);
      InOnlyOne(groups, b, j, k);
    }
  }

  lemma {:induction false} InOnlyOne(groups: seq<seq<string>>, a: string, i: nat, j: nat)
    requires InOneGroup(groups, a) && i < |groups| && j < |groups| && a in groups[i] && a in groups[j]
    ensures i == j
  {
    var k: nat :| OnlyIn(groups, a, k);
    assert Has(a)(groups[i]) && Has(a)(groups[j]);
  }

  lemma {:induction false} DeclarerIn(tree: seq<Zone>, groups: seq<seq<string>>, i: nat, x: string) returns (a: string, w: string)
    requires AreComponents(tree, groups) && i < |groups| && x in groups[i] && !InTree(tree, x)
    ensures a in groups[i] && InTree(tree, a) && Linked(tree, a, w) && Declares(tree, w, x)
  {
    assert HasZone(tree, groups[i]);
    a :| a in groups[i] && InTree(tree, a);
    assert InComponent(tree, a, x);
    w :| Linked(tree, a, w) && Declares(tree, w, x);
  }

  /** Two zones with a join towards the same missing zone: both groups contain it. */
  lemma {:induction false} MissingZoneInTwoGroups(groups: seq<seq<string>>)
    requires AreComponents([Zone("B/1", [Gc("B/3", true, false)]), Zone("B/2", [Gc("B/3", true, false)])], groups)
    ensures !Disjoint(groups)
  {
    var tree := [Zone("B/1", [Gc("B/3", true, false)]), Zone("B/2", [Gc("B/3", true, false)])];
    assert Lists(tree[0], "B/3") by { assert Matching(tree[0].gcs[0]); }
    assert Lists(tree[1], "B/3") by { assert Matching(tree[1].gcs[0]); }
    assert tree[0].path == "B/1" && tree[1].path == "B/2";
    assert Declares(tree, "B/1", "B/3") && Declares(tree, "B/2", "B/3");
    assert !InTree(tree, "B/3");
    forall p ensures !IsPath(tree, p, "B/1", "B/2") {
      if |p| > 1 { NothingJoined(tree, p[0], p[0 + 1]); }
    }
    DisjointIffMissingAgree(tree, groups);
  }

  lemma {:induction false} NothingJoined(tree: seq<Zone>, a: string, b: string)
    requires tree == [Zone("B/1", [Gc("B/3", true, false)]), Zone("B/2", [Gc("B/3", true, false)])]
    ensures !Joined(tree, a, b)
  {
    assert forall z, d :: z in tree && Lists(z, d) ==> d == "B/3";
    assert !InTree(tree, "B/3");
  }

  // ---------------------------------------------------------------- which joins link

  /** The zone has a one-to-one join without periodicity. */
  ghost predicate HasLink(z: Zone) {
    exists k :: 0 <= k < |z.gcs| && z.gcs[k].oneToOne && !z.gcs[k].periodic
  }

  lemma {:induction false} FirstStep(tree: seq<Zone>, p: seq<string>, a: string, b: string)
    requires IsPath(tree, p, a, b) && |p| > 1
    ensures Joined(tree, a, p[1])
  {
    assert Joined(tree, p[0], p[1]);
  }

  lemma {:induction false} NoLinkNoPath(tree: seq<Zone>, p: seq<string>, a: string, b: string)
    requires forall i :: 0 <= i < |tree| ==> !HasLink(tree[i])
    requires IsPath(tree, p, a, b)
    ensures a == b
  {
    forall x, y ensures !Joined(tree, x, y) {}
    if |p| > 1 {
      FirstStep(tree, p, a, b);
      assert false;
    }
  }

  /** Joins that are periodic or not one-to-one link no zones: without others, every zone stays alone. */
  lemma {:induction false} OtherJoinsDoNotLink(tree: seq<Zone>, groups: seq<seq<string>>, a: string, b: string)
    requires AreComponents(tree, groups) && InTree(tree, a) && InTree(tree, b) && a != b
    requires forall i :: 0 <= i < |tree| ==> !HasLink(tree[i])
    ensures !Together(groups, a, b)
  {
    ShareGroupIffLinked(tree, groups, a, b);
    if p :| IsPath(tree, p, a, b) { NoLinkNoPath(tree, p, a, b); }
  }

  /** A one-to-one join without periodicity puts both zones in one group, whichever zone declares it. */
  lemma {:induction false} OneLinkSuffices(tree: seq<Zone>, groups: seq<seq<string>>, i: nat, k: nat, b: string)
    requires AreComponents(tree, groups) && i < |tree| && k < |tree[i].gcs| && InTree(tree, b)
    requires tree[i].gcs[k] == Gc(b, true, false)
    ensures Together(groups, tree[i].path, b) && Together(groups, b, tree[i].path)
  {
    var a := tree[i].path;
    assert InTree(tree, a) && Lists(tree[i], b);
    assert Declares(tree, a, b);
    JoinedIsLinked(tree, a, b);
    JoinedIsLinked(tree, b, a);
    ShareGroupIffLinked(tree, groups, a, b);
    ShareGroupIffLinked(tree, groups, b, a);
  }
}

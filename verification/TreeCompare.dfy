/**
 Comparison of two CGNS trees (maia/pytree/compare.py) by a simultaneous traversal of both
 (maia/pytree/graph/cgns.py), which pairs children by merging name-sorted lists
 (maia/pytree/algo_utils.py).
 */
module TreeCompare {
  import opened Arrays
  import opened Basics
  import opened Strings
  import opened Traversal

  // ---------------------------------------------------------------- trees

  datatype Dtype = B1 | I4 | U4 | I8 | U8 | R4 | R8 | X4 | X8

  datatype Kind = Boolean | Text | Integer | Unsigned | Real | Complex | Nothing

  /** The value of a node: none, a line of characters, or an array of numbers of any shape. */
  datatype Value = Empty | Chars(text: string) | Numbers(dtype: Dtype, data: Array)

  /** A CGNS node; `tag` is its label. */
  datatype Node = Node(name: string, tag: string, value: Value, children: seq<Node>)

  function KindOf(v: Value): Kind {
    match v
    case Empty => Nothing
    case Chars(_) => Text
    case Numbers(d, _) =>
      match d
      case B1 => Boolean
      case I4 => Integer case I8 => Integer
      case U4 => Unsigned case U8 => Unsigned
      case R4 => Real case R8 => Real
      case X4 => Complex case X8 => Complex
  }

  predicate SameType(v: Value, w: Value) {
    && KindOf(v) == KindOf(w)
    && (v.Numbers? && w.Numbers? ==> v.dtype == w.dtype)
  }

  ghost predicate DistinctNames(ns: seq<Node>) {
    forall i, j :: 0 <= i < j < |ns| ==> ns[i].name != ns[j].name
  }

  /** Siblings never share a name, at any depth. */
  ghost predicate WellNamed(n: Node) {
    DistinctNames(n.children) && forall c :: c in n.children ==> WellNamed(c)
  }

  function Size(n: Node): nat
    decreases n, 1
  {
    1 + Sizes(n.children)
  }

  function Sizes(ns: seq<Node>): nat
    decreases ns, 0
  {
    if ns == [] then 0 else Size(ns[0]) + Sizes(ns[1..])
  }

  lemma {:induction false} ChildIsSmaller(ns: seq<Node>, c: Node)
    requires c in ns
    ensures Size(c) <= Sizes(ns)
    decreases |ns|
  {
    if c != ns[0] { ChildIsSmaller(ns[1..], c); }
  }

  // ---------------------------------------------------------------- order of names

  predicate LessByName(x: Node, y: Node) {
    Less(x.name, y.name)
  }

  ghost predicate SortedByName(ns: seq<Node>) {
    forall i, j :: 0 <= i < j < |ns| ==> LessByName(ns[i], ns[j])
  }

  // ---------------------------------------------------------------- sorted children

  function Insert(n: Node, ns: seq<Node>): (r: seq<Node>)
    ensures multiset(r) == multiset(ns) + multiset{n} && |r| == |ns| + 1
  {
    if ns == [] || LessByName(n, ns[0]) then [n] + ns
    else
      assert ns == [ns[0]] + ns[1..];
      [ns[0]] + Insert(n, ns[1..])
  }

  function Sorted(ns: seq<Node>): (r: seq<Node>)
    ensures multiset(r) == multiset(ns) && |r| == |ns|
  {
    if ns == [] then []
    else
      assert ns == [ns[0]] + ns[1..];
      Insert(ns[0], Sorted(ns[1..]))
  }

  lemma {:induction false} SameMembers(ns: seq<Node>, ms: seq<Node>)
    requires multiset(ns) == multiset(ms)
    ensures forall n :: n in ns <==> n in ms
  {
    forall n ensures n in ns <==> n in ms {
      assert n in ns <==> n in multiset(ns);
      assert n in ms <==> n in multiset(ms);
    }
  }

  lemma {:induction false} InsertSorts(n: Node, ns: seq<Node>)
    requires SortedByName(ns)
    requires forall m :: m in ns ==> m.name != n.name
    ensures SortedByName(Insert(n, ns))
    decreases |ns|
  {
    if ns == [] {
    } else if LessByName(n, ns[0]) {
      forall j | 0 <= j < |ns| ensures LessByName(n, ns[j]) {
        if j > 0 { LessIsTransitive(n.name, ns[0].name, ns[j].name); }
      }
    } else {
      var rest := Insert(n, ns[1..]);
      InsertSorts(n, ns[1..]);
      assert ns[0] in ns;
      LessIsTotal(n.name, ns[0].name);
      forall j | 0 <= j < |rest| ensures LessByName(ns[0], rest[j]) {
        assert rest[j] in multiset(rest);
        assert rest[j] == n || rest[j] in ns[1..];
        if rest[j] != n { var k :| 0 <= k < |ns[1..]| && ns[1..][k] == rest[j]; assert ns[k + 1] == rest[j]; }
      }
    }
  }

  lemma {:induction false} SortedIsSorted(ns: seq<Node>)
    requires DistinctNames(ns)
    ensures SortedByName(Sorted(ns))
    decreases |ns|
  {
    if ns != [] {
      SortedIsSorted(ns[1..]);
      SameMembers(Sorted(ns[1..]), ns[1..]);
      forall m | m in Sorted(ns[1..]) ensures m.name != ns[0].name {
        var k :| 0 <= k < |ns[1..]| && ns[1..][k] == m;
        assert ns[k + 1] == m;
      }
      InsertSorts(ns[0], Sorted(ns[1..]));
    }
  }

  function SortedChildren(n: Option<Node>): seq<Node> {
    match n
    case None => []
    case Some(m) => Sorted(m.children)
  }

  // ---------------------------------------------------------------- merging two sorted lists

  datatype Split<T> = Split(interX: seq<T>, diffX: seq<T>, interY: seq<T>, diffY: seq<T>)

  function MergeSplit<T>(x: seq<T>, y: seq<T>, less: (T, T) -> bool): (s: Split<T>)
    ensures |s.interX| == |s.interY|
    decreases |x| + |y|
  {
    if x == [] || y == [] then Split([], x, [], y)
    else if less(x[0], y[0]) then
      var s := MergeSplit(x[1..], y, less);
      s.(diffX := [x[0]] + s.diffX)
    else if less(y[0], x[0]) then
      var s := MergeSplit(x, y[1..], less);
      s.(diffY := [y[0]] + s.diffY)
    else
      var s := MergeSplit(x[1..], y[1..], less);
      s.(interX := [x[0]] + s.interX, interY := [y[0]] + s.interY)
  }

  function Cat<T>(a: Split<T>, b: Split<T>): Split<T> {
    Split(a.interX + b.interX, a.diffX + b.diffX, a.interY + b.interY, a.diffY + b.diffY)
  }

  lemma {:induction false} CatStep<T>(a: Split<T>, b: Split<T>, c: Split<T>)
    ensures Cat(Cat(a, b), c) == Cat(a, Cat(b, c))
  {
    var l, r := Cat(Cat(a, b), c), Cat(a, Cat(b, c));
    assert l.interX == r.interX && l.diffX == r.diffX && l.interY == r.interY && l.diffY == r.diffY;
  }

  /** One step of the merge, as the piece it emits and the cursors it moves. */
  function MergeStep<T>(a: T, b: T, less: (T, T) -> bool): (Split<T>, nat, nat) {
    if less(a, b) then (Split([], [a], [], []), 1, 0)
    else if less(b, a) then (Split([], [], [], [b]), 0, 1)
    else (Split([a], [], [b], []), 1, 1)
  }

  lemma {:induction false} MergeUnfolds<T>(x: seq<T>, y: seq<T>, less: (T, T) -> bool)
    requires x != [] && y != []
    ensures var (piece, dx, dy) := MergeStep(x[0], y[0], less);
            MergeSplit(x, y, less) == Cat(piece, MergeSplit(x[dx..], y[dy..], less))
  {
    assert x[0..] == x && y[0..] == y;
    var (piece, dx, dy) := MergeStep(x[0], y[0], less);
    var s, r := MergeSplit(x[dx..], y[dy..], less), MergeSplit(x, y, less);
    var c := Cat(piece, s);
    assert c.interX == r.interX && c.diffX == r.diffX && c.interY == r.interY && c.diffY == r.diffY;
  }

  /** What two sorted lists have in common and what each has alone, in one pass with two cursors. */
  method SetIntersectionDifference<T>(x: seq<T>, y: seq<T>, less: (T, T) -> bool) returns (s: Split<T>)
    ensures s == MergeSplit(x, y, less)
  {
    var i, j := 0, 0;
    s := Split([], [], [], []);
    assert x[0..] == x && y[0..] == y;
    assert Cat(s, MergeSplit(x, y, less)) == MergeSplit(x, y, less);
    while i < |x| && j < |y|
      invariant 0 <= i <= |x| && 0 <= j <= |y|
      invariant MergeSplit(x, y, less) == Cat(s, MergeSplit(x[i..], y[j..], less))
      decreases |x| - i + |y| - j
    {
      ghost var (piece, dx, dy) := MergeStep(x[i], y[j], less);
      MergeUnfolds(x[i..], y[j..], less);
      assert x[i..][dx..] == x[i + dx..] && y[j..][dy..] == y[j + dy..];
      CatStep(s, piece, MergeSplit(x[i + dx..], y[j + dy..], less));
      ghost var next := Cat(s, piece);
      if less(x[i], y[j]) {
        s := s.(diffX := s.diffX + [x[i]]);
        i := i + 1;
      } else if less(y[j], x[i]) {
        s := s.(diffY := s.diffY + [y[j]]);
        j := j + 1;
      } else {
        s := s.(interX := s.interX + [x[i]], interY := s.interY + [y[j]]);
        i := i + 1;
        j := j + 1;
      }
      assert s.interX == next.interX && s.diffX == next.diffX && s.interY == next.interY && s.diffY == next.diffY;
    }
    s := s.(diffX := s.diffX + x[i..], diffY := s.diffY + y[j..]);
    assert s.interX + [] == s.interX && s.interY + [] == s.interY;
  }

  /** Nothing is lost and nothing is invented. */
  lemma {:induction false} SplitMembers<T>(x: seq<T>, y: seq<T>, less: (T, T) -> bool, n: T)
    ensures var s := MergeSplit(x, y, less);
            && (n in x <==> n in s.interX || n in s.diffX)
            && (n in y <==> n in s.interY || n in s.diffY)
            && |s.interX| + |s.diffX| == |x| && |s.interY| + |s.diffY| == |y|
    decreases |x| + |y|
  {
    if x != [] && y != [] {
      assert n in x <==> n == x[0] || n in x[1..];
      assert n in y <==> n == y[0] || n in y[1..];
      if less(x[0], y[0]) { SplitMembers(x[1..], y, less, n); }
      else if less(y[0], x[0]) { SplitMembers(x, y[1..], less, n); }
      else { SplitMembers(x[1..], y[1..], less, n); }
    }
  }

  /** On lists sorted by name, paired elements share their names. */
  lemma {:induction false} MergePairsNamesakes(x: seq<Node>, y: seq<Node>)
    ensures var s := MergeSplit(x, y, LessByName);
            forall i :: 0 <= i < |s.interX| ==> s.interX[i].name == s.interY[i].name
    decreases |x| + |y|
  {
    if x != [] && y != [] {
      var (piece, dx, dy) := MergeStep(x[0], y[0], LessByName);
      MergeUnfolds(x, y, LessByName);
      MergePairsNamesakes(x[dx..], y[dy..]);
      LessIsTotal(x[0].name, y[0].name);
    }
  }

  ghost predicate NoNamesake(n: Node, ms: seq<Node>) {
    forall m :: m in ms ==> n.name != m.name
  }

  /** On lists sorted by name, what is left alone has no namesake in the other list. */
  lemma {:induction false} MergeLeavesStrangers(x: seq<Node>, y: seq<Node>, n: Node)
    requires SortedByName(x) && SortedByName(y)
    ensures n in MergeSplit(x, y, LessByName).diffX ==> NoNamesake(n, y)
    ensures n in MergeSplit(x, y, LessByName).diffY ==> NoNamesake(n, x)
    decreases |x| + |y|
  {
    if x != [] && y != [] {
      if LessByName(x[0], y[0]) {
        MergeLeavesStrangers(x[1..], y, n);
        SmallestIsAlone(x[0], y);
        SplitMembers(x[1..], y, LessByName, n);
        assert n in y ==> n.name != x[0].name;
      } else if LessByName(y[0], x[0]) {
        MergeLeavesStrangers(x, y[1..], n);
        SmallestIsAlone(y[0], x);
        SplitMembers(x, y[1..], LessByName, n);
        assert n in x ==> n.name != y[0].name;
      } else {
        MergeLeavesStrangers(x[1..], y[1..], n);
        LessIsTotal(x[0].name, y[0].name);
        SplitMembers(x[1..], y[1..], LessByName, n);
        HeadIsAlone(x, y[0].name);
        HeadIsAlone(y, x[0].name);
      }
      assert forall m :: m in x <==> m == x[0] || m in x[1..];
      assert forall m :: m in y <==> m == y[0] || m in y[1..];
    }
  }

  lemma {:induction false} SmallestIsAlone(n: Node, ns: seq<Node>)
    requires SortedByName(ns) && ns != [] && LessByName(n, ns[0])
    ensures forall m :: m in ns ==> n.name != m.name
  {
    forall i | 0 <= i < |ns| ensures n.name != ns[i].name {
      if i > 0 { LessIsTransitive(n.name, ns[0].name, ns[i].name); }
      LessIsIrreflexive(n.name);
    }
  }

  lemma {:induction false} HeadIsAlone(ns: seq<Node>, name: string)
    requires SortedByName(ns) && ns != [] && ns[0].name == name
    ensures forall m :: m in ns[1..] ==> m.name != name
  {
    forall i | 1 <= i < |ns| ensures ns[i].name != name {
      LessIsIrreflexive(name);
    }
  }

  // ---------------------------------------------------------------- pairs of nodes

  /** A node of one tree and a node of the other, or a node that has no counterpart. */
  datatype Pair = Pair(left: Option<Node>, right: Option<Node>)

  function ValueOrNone(ns: seq<Node>, i: nat): Option<Node> {
    if i < |ns| then Some(ns[i]) else None
  }

  function Longest(a: seq<Node>, b: seq<Node>): nat {
    if |a| < |b| then |b| else |a|
  }

  function Zipped(s: Split<Node>): seq<Pair>
    requires |s.interX| == |s.interY|
  {
    seq(|s.interX|, i requires 0 <= i < |s.interX| => Pair(Some(s.interX[i]), Some(s.interY[i])))
    + seq(Longest(s.diffX, s.diffY), i requires 0 <= i => Pair(ValueOrNone(s.diffX, i), ValueOrNone(s.diffY, i)))
  }

  /** Pair the namesakes of two sorted lists, then pair off what remains. */
  method ZipLists(x: seq<Node>, y: seq<Node>) returns (zipped: seq<Pair>)
    ensures zipped == Zipped(MergeSplit(x, y, LessByName))
  {
    var s := SetIntersectionDifference(x, y, LessByName);
    zipped := [];
    for i := 0 to |s.interX|
      invariant |zipped| == i && forall k :: 0 <= k < i ==> zipped[k] == Zipped(s)[k]
    {
      zipped := zipped + [Pair(Some(s.interX[i]), Some(s.interY[i]))];
    }
    var sz := Longest(s.diffX, s.diffY);
    for i := 0 to sz
      invariant |zipped| == |s.interX| + i && forall k :: 0 <= k < |zipped| ==> zipped[k] == Zipped(s)[k]
    {
      zipped := zipped + [Pair(ValueOrNone(s.diffX, i), ValueOrNone(s.diffY, i))];
    }
  }

  /** After the common elements, the lonely ones of both lists are paired off in order, the longer list ending alone. */
  lemma {:induction false} LonelyArePairedOff(s: Split<Node>, k: nat)
    requires |s.interX| == |s.interY|
    ensures |Zipped(s)| == |s.interX| + if |s.diffX| < |s.diffY| then |s.diffY| else |s.diffX|
    ensures k < |s.interX| ==> Zipped(s)[k] == Pair(Some(s.interX[k]), Some(s.interY[k]))
    ensures var i := |s.interX| + k;
            && (k < |s.diffX| && k < |s.diffY| ==> Zipped(s)[i] == Pair(Some(s.diffX[k]), Some(s.diffY[k])))
            && (|s.diffY| <= k < |s.diffX| ==> Zipped(s)[i] == Pair(Some(s.diffX[k]), None))
            && (|s.diffX| <= k < |s.diffY| ==> Zipped(s)[i] == Pair(None, Some(s.diffY[k])))
  {
  }

  function PairSize(p: Pair): nat {
    (if p.left.Some? then Size(p.left.value) else 0) + (if p.right.Some? then Size(p.right.value) else 0)
  }

  /** The children of a pair, as enumerated by the adaptor. */
  function ZipChildren(p: Pair): (cs: seq<Pair>)
    ensures forall c :: c in cs ==> PairSize(c) < PairSize(p)
  {
    var x, y := SortedChildren(p.left), SortedChildren(p.right);
    var cs := Zipped(MergeSplit(x, y, LessByName));
    assert forall c :: c in cs ==> PairSize(c) < PairSize(p) by {
      forall c | c in cs ensures PairSize(c) < PairSize(p) { ZipShrinks(p, c); }
    }
    cs
  }

  lemma {:induction false} ZipShrinks(p: Pair, c: Pair)
    requires c in Zipped(MergeSplit(SortedChildren(p.left), SortedChildren(p.right), LessByName))
    ensures PairSize(c) < PairSize(p)
  {
    var x, y := SortedChildren(p.left), SortedChildren(p.right);
    ZipMembers(x, y, c);
    SideShrinks(p.left, c.left);
    SideShrinks(p.right, c.right);
  }

  lemma {:induction false} ZipMembers(x: seq<Node>, y: seq<Node>, c: Pair)
    requires c in Zipped(MergeSplit(x, y, LessByName))
    ensures c.left.Some? || c.right.Some?
    ensures c.left.Some? ==> c.left.value in x
    ensures c.right.Some? ==> c.right.value in y
  {
    var s := MergeSplit(x, y, LessByName);
    var k :| 0 <= k < |Zipped(s)| && Zipped(s)[k] == c;
    if k < |s.interX| {
      assert s.interX[k] in s.interX && s.interY[k] in s.interY;
    }
    if c.left.Some? { SplitMembers(x, y, LessByName, c.left.value); }
    if c.right.Some? { SplitMembers(x, y, LessByName, c.right.value); }
  }

  lemma {:induction false} SideShrinks(n: Option<Node>, c: Option<Node>)
    requires c.Some? ==> c.value in SortedChildren(n)
    ensures c.Some? ==> n.Some? && Size(c.value) < Size(n.value)
  {
    if c.Some? {
      SameMembers(Sorted(n.value.children), n.value.children);
      ChildIsSmaller(n.value.children, c.value);
    }
  }

  /** Both trees, traversed together. */
  function ZipGraph(t1: Node, t2: Node): Graph<Pair> {
    Graph([Pair(Some(t1), Some(t2))], ZipChildren)
  }

  lemma {:induction false} ZipGraphIsFinite(t1: Node, t2: Node)
    ensures Finite(ZipGraph(t1, t2), PairSize)
  {
    var g := ZipGraph(t1, t2);
    forall n, c | c in g.children(n) ensures PairSize(c) < PairSize(n) {
      assert g.children(n) == ZipChildren(n);
    }
  }

  // ---------------------------------------------------------------- equality up to the order of siblings

  type Relation = (Node, Node) -> bool

  /** The relation only holds between nodes of the same name. */
  ghost predicate Nominal(r: Relation) {
    forall x, y :: r(x, y) ==> x.name == y.name
  }

  ghost predicate Matches(r: Relation, xs: seq<Node>, ys: seq<Node>)
    decreases xs, 0
  {
    |xs| == |ys| && forall i :: 0 <= i < |xs| ==> Reordered(r, xs[i], ys[i])
  }

  /** The nodes are related, and some reordering of the children of one matches the children of the other. */
  ghost predicate Reordered(r: Relation, a: Node, b: Node)
    decreases a, 1
  {
    r(a, b) && exists ys :: multiset(ys) == multiset(b.children) && Matches(r, a.children, ys)
  }

  ghost predicate PairOk(r: Relation, p: Pair) {
    p.left.Some? && p.right.Some? && r(p.left.value, p.right.value)
  }

  /** Every pair reached by the simultaneous traversal is related. */
  ghost predicate ZipOk(r: Relation, p: Pair)
    decreases PairSize(p)
  {
    PairOk(r, p) && forall c :: c in ZipChildren(p) ==> ZipOk(r, c)
  }

  /** Where a pair comes from. */
  lemma {:induction false} ZippedCases(s: Split<Node>, c: Pair)
    requires |s.interX| == |s.interY|
    requires c in Zipped(s)
    ensures || (exists k :: 0 <= k < |s.interX| && c == Pair(Some(s.interX[k]), Some(s.interY[k])))
            || (c.left.Some? && c.left.value in s.diffX)
            || (c.right.Some? && c.right.value in s.diffY)
  {
    var k :| 0 <= k < |Zipped(s)| && Zipped(s)[k] == c;
    if k < |s.interX| {
      assert c == Pair(Some(s.interX[k]), Some(s.interY[k]));
    } else if k - |s.interX| < |s.diffX| {
      assert c.left == Some(s.diffX[k - |s.interX|]);
    } else {
      assert c.right == Some(s.diffY[k - |s.interX|]);
    }
  }

  /** Every element of the split is in a pair. */
  lemma {:induction false} ZippedHas(s: Split<Node>, n: Node)
    requires |s.interX| == |s.interY|
    ensures n in s.interX || n in s.diffX ==> exists c :: c in Zipped(s) && c.left == Some(n)
    ensures n in s.interY || n in s.diffY ==> exists c :: c in Zipped(s) && c.right == Some(n)
  {
    var z := Zipped(s);
    if n in s.interX { var k :| 0 <= k < |s.interX| && s.interX[k] == n; assert z[k] in z && z[k].left == Some(n); }
    if n in s.interY { var k :| 0 <= k < |s.interY| && s.interY[k] == n; assert z[k] in z && z[k].right == Some(n); }
    if n in s.diffX {
      var k :| 0 <= k < |s.diffX| && s.diffX[k] == n;
      assert z[|s.interX| + k] in z && z[|s.interX| + k].left == Some(n);
    }
    if n in s.diffY {
      var k :| 0 <= k < |s.diffY| && s.diffY[k] == n;
      assert z[|s.interX| + k] in z && z[|s.interX| + k].right == Some(n);
    }
  }

  predicate Namesakes(c: Pair) {
    c.left.Some? && c.right.Some? && c.left.value.name == c.right.value.name
  }

  ghost predicate Stranger(c: Pair, x: seq<Node>, y: seq<Node>) {
    (c.left.Some? && NoNamesake(c.left.value, y)) || (c.right.Some? && NoNamesake(c.right.value, x))
  }

  lemma {:induction false} ZipListCases(x: seq<Node>, y: seq<Node>, c: Pair)
    requires SortedByName(x) && SortedByName(y)
    requires c in Zipped(MergeSplit(x, y, LessByName))
    ensures Namesakes(c) || Stranger(c, x, y)
  {
    var s := MergeSplit(x, y, LessByName);
    ZippedCases(s, c);
    MergePairsNamesakes(x, y);
    if c.left.Some? && c.left.value in s.diffX {
      MergeLeavesStrangers(x, y, c.left.value);
    } else if c.right.Some? && c.right.value in s.diffY {
      MergeLeavesStrangers(x, y, c.right.value);
    }
  }

  /** The child pairs: namesakes, or a child that has no namesake on the other side. */
  lemma {:induction false} ZipChildCases(a: Node, b: Node, c: Pair)
    requires DistinctNames(a.children) && DistinctNames(b.children)
    requires c in ZipChildren(Pair(Some(a), Some(b)))
    ensures c.left.Some? ==> c.left.value in a.children
    ensures c.right.Some? ==> c.right.value in b.children
    ensures Namesakes(c) || Stranger(c, a.children, b.children)
  {
    var x, y := Sorted(a.children), Sorted(b.children);
    SortedIsSorted(a.children);
    SortedIsSorted(b.children);
    SameMembers(x, a.children);
    SameMembers(y, b.children);
    ZipMembers(x, y, c);
    ZipListCases(x, y, c);
  }

  /** Every child is in a child pair. */
  lemma {:induction false} ChildIsPaired(a: Node, b: Node, n: Node)
    ensures n in a.children ==> exists c :: c in ZipChildren(Pair(Some(a), Some(b))) && c.left == Some(n)
    ensures n in b.children ==> exists c :: c in ZipChildren(Pair(Some(a), Some(b))) && c.right == Some(n)
  {
    var x, y := Sorted(a.children), Sorted(b.children);
    SameMembers(x, a.children);
    SameMembers(y, b.children);
    SplitMembers(x, y, LessByName, n);
    ZippedHas(MergeSplit(x, y, LessByName), n);
  }

  lemma {:induction false} NamesakesAreEqual(ns: seq<Node>, m: Node, n: Node)
    requires DistinctNames(ns)
    requires m in ns && n in ns && m.name == n.name
    ensures m == n
  {
    var i :| 0 <= i < |ns| && ns[i] == m;
    var j :| 0 <= j < |ns| && ns[j] == n;
    assert i == j;
  }

  lemma {:induction false} CountInDistinct(ns: seq<Node>, n: Node)
    requires DistinctNames(ns)
    ensures multiset(ns)[n] == if n in ns then 1 else 0
    decreases |ns|
  {
    if ns != [] {
      assert ns == [ns[0]] + ns[1..];
      CountInDistinct(ns[1..], n);
      if n in ns[1..] {
        var k :| 0 <= k < |ns[1..]| && ns[1..][k] == n;
        assert ns[k + 1] == n;
      }
    }
  }

  lemma {:induction false} DistinctSameMembers(ns: seq<Node>, ms: seq<Node>)
    requires DistinctNames(ns) && DistinctNames(ms)
    requires forall n :: n in ns <==> n in ms
    ensures multiset(ns) == multiset(ms)
  {
    forall n ensures multiset(ns)[n] == multiset(ms)[n] {
      CountInDistinct(ns, n);
      CountInDistinct(ms, n);
    }
  }

  /** The traversal of related trees meets only related pairs. */
  lemma {:induction false} ReorderedIsZipOk(r: Relation, a: Node, b: Node)
    requires WellNamed(a) && WellNamed(b) && Nominal(r)
    requires Reordered(r, a, b)
    ensures ZipOk(r, Pair(Some(a), Some(b)))
    decreases Size(a)
  {
    var ys :| multiset(ys) == multiset(b.children) && Matches(r, a.children, ys);
    SameMembers(ys, b.children);
    forall c | c in ZipChildren(Pair(Some(a), Some(b))) ensures ZipOk(r, c) {
      MatchedPair(r, a, b, ys, c);
      ChildIsSmaller(a.children, c.left.value);
      ReorderedIsZipOk(r, c.left.value, c.right.value);
    }
  }

  lemma {:induction false} MatchAt(r: Relation, xs: seq<Node>, ys: seq<Node>, i: nat)
    requires Matches(r, xs, ys) && Nominal(r) && i < |xs|
    ensures |xs| == |ys| && Reordered(r, xs[i], ys[i]) && xs[i].name == ys[i].name && xs[i] in xs && ys[i] in ys
  {
    assert r(xs[i], ys[i]);
  }

  /** A child pair is a pair of matched children. */
  lemma {:induction false} MatchedPair(r: Relation, a: Node, b: Node, ys: seq<Node>, c: Pair)
    requires WellNamed(a) && WellNamed(b) && Nominal(r) && Matches(r, a.children, ys)
    requires (forall y :: y in ys <==> y in b.children) && c in ZipChildren(Pair(Some(a), Some(b)))
    ensures c.left.Some? && c.right.Some? && c.left.value in a.children && c.right.value in b.children
    ensures Reordered(r, c.left.value, c.right.value)
  {
    ZipChildCases(a, b, c);
    if c.right.Some? {
      var i :| 0 <= i < |ys| && ys[i] == c.right.value;
      MatchAt(r, a.children, ys, i);
    }
    if c.left.Some? {
      var i :| 0 <= i < |a.children| && a.children[i] == c.left.value;
      MatchAt(r, a.children, ys, i);
      if c.right.Some? { NamesakesAreEqual(b.children, c.right.value, ys[i]); }
    }
  }

  /** The counterpart of a child, when the traversal meets only related pairs. */
  lemma {:induction false} CounterpartOf(r: Relation, a: Node, b: Node, x: Node) returns (y: Node)
    requires WellNamed(a) && WellNamed(b) && Nominal(r)
    requires ZipOk(r, Pair(Some(a), Some(b)))
    requires x in a.children
    ensures y in b.children && y.name == x.name
    ensures ZipOk(r, Pair(Some(x), Some(y)))
  {
    ChildIsPaired(a, b, x);
    var c :| c in ZipChildren(Pair(Some(a), Some(b))) && c.left == Some(x);
    assert ZipOk(r, c);
    ZipChildCases(a, b, c);
    y := c.right.value;
    assert r(x, y);
    assert c == Pair(Some(x), Some(y));
  }

  /** Trees whose simultaneous traversal meets only related pairs are equal up to the order of siblings. */
  lemma {:induction false} ZipOkIsReordered(r: Relation, a: Node, b: Node)
    requires WellNamed(a) && WellNamed(b) && Nominal(r)
    requires ZipOk(r, Pair(Some(a), Some(b)))
    ensures Reordered(r, a, b)
    decreases Size(a)
  {
    var ys := Counterparts(r, a, b, |a.children|);
    assert Matches(r, a.children, ys) by {
      forall i | 0 <= i < |ys| ensures Reordered(r, a.children[i], ys[i]) {
        assert a.children[i] in a.children;
        ChildIsSmaller(a.children, a.children[i]);
        ZipOkIsReordered(r, a.children[i], ys[i]);
      }
    }
    forall y | y in b.children ensures y in ys {
      ChildIsPaired(a, b, y);
      var c :| c in ZipChildren(Pair(Some(a), Some(b))) && c.right == Some(y);
      assert ZipOk(r, c);
      ZipChildCases(a, b, c);
      var x := c.left.value;
      assert r(x, y);
      var i :| 0 <= i < |a.children| && a.children[i] == x;
      NamesakesAreEqual(b.children, y, ys[i]);
    }
    DistinctSameMembers(ys, b.children);
  }

  lemma {:induction false} Counterparts(r: Relation, a: Node, b: Node, k: nat) returns (ys: seq<Node>)
    requires WellNamed(a) && WellNamed(b) && Nominal(r)
    requires ZipOk(r, Pair(Some(a), Some(b)))
    requires k <= |a.children|
    ensures |ys| == k && DistinctNames(ys)
    ensures forall i :: 0 <= i < k ==>
              ys[i] in b.children && ys[i].name == a.children[i].name && ZipOk(r, Pair(Some(a.children[i]), Some(ys[i])))
    decreases k
  {
    if k == 0 {
      ys := [];
    } else {
      var front := Counterparts(r, a, b, k - 1);
      assert a.children[k - 1] in a.children;
      var y := CounterpartOf(r, a, b, a.children[k - 1]);
      ys := front + [y];
    }
  }

  // ---------------------------------------------------------------- is_same_tree

  /** Absolute tolerance on floats, and whether types of the same kind may be compared. */
  datatype Tolerance = Tolerance(abs: real, anySize: bool)

  const STRICT := Tolerance(0.0, false)

  datatype Answer = Yes | No | Fails

  /** Comparison of float arrays: shapes are made compatible, if they can be. */
  function AllClose(x: Array, y: Array, tol: real): Answer {
    if !Broadcastable(x.shape, y.shape) then Fails
    else if Close(x.shape, x.tensor, y.shape, y.tensor, tol) then Yes else No
  }

  function SameValue(v: Value, w: Value, o: Tolerance): Answer {
    if !(if o.anySize then KindOf(v) == KindOf(w) else SameType(v, w)) then No
    else match v
      case Empty => Yes
      case Chars(text) => if w == v then Yes else No
      case Numbers(_, data) =>
        if KindOf(v) == Real then AllClose(data, w.data, o.abs)
        else if data == w.data then Yes else No
  }

  function SameNode(a: Node, b: Node, o: Tolerance): Answer {
    if a.name != b.name || a.tag != b.tag then No else SameValue(a.value, b.value, o)
  }

  function SameRelation(o: Tolerance): Relation {
    (a: Node, b: Node) => SameNode(a, b, o) == Yes
  }

  /** Stop on the first pair that is not related. */
  function SameVisitor(r: Relation): Visitor<Pair> {
    (calls: seq<Event<Pair>>) =>
      if calls == [] || Last(calls).path == [] then Into
      else
        var p := Last(Last(calls).path);
        if p.left.None? || p.right.None? || !r(p.left.value, p.right.value) then Out else Into
  }

  /** The pairs below `p`, itself first, in the order of the traversal. */
  ghost function Met(p: Pair): seq<Pair>
    decreases PairSize(p), 1, 0
  {
    [p] + MetAll(ZipChildren(p), PairSize(p))
  }

  ghost function MetAll(cs: seq<Pair>, bound: nat): seq<Pair>
    requires forall c :: c in cs ==> PairSize(c) < bound
    decreases bound, 0, |cs|
  {
    if cs == [] then [] else Met(cs[0]) + MetAll(cs[1..], bound)
  }

  /** The first pair that is not related. */
  ghost function FirstUnlike(r: Relation, ps: seq<Pair>): Option<Pair> {
    if ps == [] then None else if !PairOk(r, ps[0]) then Some(ps[0]) else FirstUnlike(r, ps[1..])
  }

  lemma {:induction false} FirstUnlikeConcat(r: Relation, s: seq<Pair>, t: seq<Pair>)
    ensures FirstUnlike(r, s + t) == if FirstUnlike(r, s).Some? then FirstUnlike(r, s) else FirstUnlike(r, t)
    decreases |s|
  {
    if s == [] { assert s + t == t; } else { FirstUnlikeConcat(r, s[1..], t); assert (s + t)[1..] == s[1..] + t; }
  }

  lemma {:induction false} FirstUnlikeBelow(r: Relation, p: Pair)
    ensures FirstUnlike(r, Met(p)) == if PairOk(r, p) then FirstUnlike(r, MetAll(ZipChildren(p), PairSize(p))) else Some(p)
  {
    assert Met(p)[1..] == MetAll(ZipChildren(p), PairSize(p));
  }

  /** The traversal stops on the first pair that is not related. */
  lemma {:induction false} SameVisitNode(g: Graph<Pair>, r: Relation, above: seq<Pair>, p: Pair, calls: seq<Event<Pair>>)
    requires g.children == ZipChildren && Finite(g, PairSize)
    ensures VisitNode(g, PairSize, SameVisitor(r), above, p, calls).stop == FirstUnlike(r, Met(p))
    decreases PairSize(p), 1, 0
  {
    var path := above + [p];
    var entered := calls + [Pre(path)];
    assert Last(entered) == Pre(path) && Last(path) == p;
    FirstUnlikeBelow(r, p);
    if PairOk(r, p) {
      SameVisitChildren(g, r, path, ZipChildren(p), PairSize(p), entered);
    }
  }

  lemma {:induction false} SameVisitChildren(g: Graph<Pair>, r: Relation, path: seq<Pair>, cs: seq<Pair>, bound: nat,
                                             calls: seq<Event<Pair>>)
    requires g.children == ZipChildren && Finite(g, PairSize)
    requires forall c :: c in cs ==> PairSize(c) < bound
    ensures VisitChildren(g, PairSize, SameVisitor(r), path, cs, bound, calls).stop == FirstUnlike(r, MetAll(cs, bound))
    decreases bound, 0, |cs|
  {
    if cs != [] {
      var down := calls + [Down(path + [cs[0]])];
      SameVisitNode(g, r, path, cs[0], down);
      FirstUnlikeConcat(r, Met(cs[0]), MetAll(cs[1..], bound));
      var o := VisitNode(g, PairSize, SameVisitor(r), path, cs[0], down);
      SameVisitChildren(g, r, path, cs[1..], bound, o.calls + [Up(path + [cs[0]])]);
    }
  }

  lemma {:induction false} AllMetAreRelated(r: Relation, p: Pair)
    ensures FirstUnlike(r, Met(p)).None? <==> ZipOk(r, p)
    decreases PairSize(p), 1, 0
  {
    FirstUnlikeBelow(r, p);
    AllBelowAreRelated(r, ZipChildren(p), PairSize(p));
  }

  lemma {:induction false} AllBelowAreRelated(r: Relation, cs: seq<Pair>, bound: nat)
    requires forall c :: c in cs ==> PairSize(c) < bound
    ensures FirstUnlike(r, MetAll(cs, bound)).None? <==> forall c :: c in cs ==> ZipOk(r, c)
    decreases bound, 0, |cs|
  {
    if cs != [] {
      AllMetAreRelated(r, cs[0]);
      AllBelowAreRelated(r, cs[1..], bound);
      FirstUnlikeConcat(r, Met(cs[0]), MetAll(cs[1..], bound));
      assert forall c :: c in cs <==> c == cs[0] || c in cs[1..];
    }
  }

  lemma {:induction false} SameSearch(t1: Node, t2: Node, o: Tolerance)
    requires WellNamed(t1) && WellNamed(t2)
    ensures Finite(ZipGraph(t1, t2), PairSize)
    ensures Search(ZipGraph(t1, t2), PairSize, SameVisitor(SameRelation(o))).stop
            == FirstUnlike(SameRelation(o), Met(Pair(Some(t1), Some(t2))))
  {
    var g, r := ZipGraph(t1, t2), SameRelation(o);
    ZipGraphIsFinite(t1, t2);
    SameVisitNode(g, r, [], Pair(Some(t1), Some(t2)), []);
    OneRoot(g, SameVisitor(r), Pair(Some(t1), Some(t2)));
  }

  lemma {:induction false} OneRoot(g: Graph<Pair>, v: Visitor<Pair>, p: Pair)
    requires Finite(g, PairSize) && g.roots == [p]
    ensures Search(g, PairSize, v) == VisitNode(g, PairSize, v, [], p, [])
  {
    var o := VisitNode(g, PairSize, v, [], p, []);
    assert g.roots[1..] == [];
    assert VisitRoots(g, PairSize, v, [], o.calls) == Outcome(o.calls, None);
  }

  /** A property of all common paths holds of the pair the search stops on, if it is a pair of namesakes. */
  lemma {:induction false} StopNodeIsCommon(g: Graph<Pair>, r: Relation, p: Relation, above: seq<Pair>, a: Node, b: Node,
                                            calls: seq<Event<Pair>>)
    requires g.children == ZipChildren && Finite(g, PairSize) && Nominal(r)
    requires WellNamed(a) && WellNamed(b) && OnCommonPaths(p, a, b)
    ensures var q := VisitNode(g, PairSize, SameVisitor(r), above, Pair(Some(a), Some(b)), calls).stop;
            q.Some? && Namesakes(q.value) ==> p(q.value.left.value, q.value.right.value)
    decreases PairSize(Pair(Some(a), Some(b))), 1, 0
  {
    var q := Pair(Some(a), Some(b));
    var path := above + [q];
    var entered := calls + [Pre(path)];
    assert Last(entered) == Pre(path) && Last(path) == q;
    if PairOk(r, q) {
      forall c | c in ZipChildren(q) && Namesakes(c)
        ensures WellNamed(c.left.value) && WellNamed(c.right.value) && OnCommonPaths(p, c.left.value, c.right.value)
      {
        ZipChildCases(a, b, c);
      }
      StopChildIsCommon(g, r, p, path, ZipChildren(q), PairSize(q), entered);
    }
  }

  lemma {:induction false} StopChildIsCommon(g: Graph<Pair>, r: Relation, p: Relation, path: seq<Pair>, cs: seq<Pair>, bound: nat,
                                             calls: seq<Event<Pair>>)
    requires g.children == ZipChildren && Finite(g, PairSize)
    requires forall c :: c in cs ==> PairSize(c) < bound
    requires forall c :: c in cs && Namesakes(c) ==>
               WellNamed(c.left.value) && WellNamed(c.right.value) && OnCommonPaths(p, c.left.value, c.right.value)
    requires Nominal(r)
    ensures var q := VisitChildren(g, PairSize, SameVisitor(r), path, cs, bound, calls).stop;
            q.Some? && Namesakes(q.value) ==> p(q.value.left.value, q.value.right.value)
    decreases bound, 0, |cs|
  {
    if cs != [] {
      var c := cs[0];
      var down := calls + [Down(path + [c])];
      var o := VisitNode(g, PairSize, SameVisitor(r), path, c, down);
      if Namesakes(c) {
        StopNodeIsCommon(g, r, p, path, c.left.value, c.right.value, down);
        assert c == Pair(Some(c.left.value), Some(c.right.value));
      } else {
        assert Last(down + [Pre(path + [c])]) == Pre(path + [c]) && Last(path + [c]) == c;
        assert o.stop == Some(c);
      }
      StopChildIsCommon(g, r, p, path, cs[1..], bound, o.calls + [Up(path + [c])]);
    }
  }

  lemma {:induction false} StopIsCommon(t1: Node, t2: Node, r: Relation, p: Relation)
    requires WellNamed(t1) && WellNamed(t2) && Nominal(r) && OnCommonPaths(p, t1, t2)
    requires Finite(ZipGraph(t1, t2), PairSize)
    ensures var q := Search(ZipGraph(t1, t2), PairSize, SameVisitor(r)).stop;
            q.Some? && Namesakes(q.value) ==> p(q.value.left.value, q.value.right.value)
  {
    StopNodeIsCommon(ZipGraph(t1, t2), r, p, [], t1, t2, []);
    OneRoot(ZipGraph(t1, t2), SameVisitor(r), Pair(Some(t1), Some(t2)));
  }

  datatype Verdict = Same | Different | Raises

  /** The pair cannot be compared. */
  predicate CannotCompare(p: Pair, o: Tolerance) {
    p.left.Some? && p.right.Some? && SameNode(p.left.value, p.right.value, o) == Fails
  }

  lemma {:induction false} ShapesPermitComparison(p: Pair, o: Tolerance)
    requires Namesakes(p) ==> SameShapes()(p.left.value, p.right.value)
    ensures !CannotCompare(p, o)
  {
    if Namesakes(p) && KindOf(p.left.value.value) == Real { SameShapeBroadcasts(p.left.value.value.data.shape); }
  }

  /** The traversal only stops on a pair that cannot be compared when shapes differ somewhere. */
  lemma {:induction false} FailureTells(t1: Node, t2: Node, o: Tolerance)
    requires WellNamed(t1) && WellNamed(t2) && Finite(ZipGraph(t1, t2), PairSize)
    ensures var stop := Search(ZipGraph(t1, t2), PairSize, SameVisitor(SameRelation(o))).stop;
            stop.Some? && CannotCompare(stop.value, o) ==> !OnCommonPaths(SameShapes(), t1, t2)
  {
    if OnCommonPaths(SameShapes(), t1, t2) {
      StopIsCommon(t1, t2, SameRelation(o), SameShapes());
      var stop := Search(ZipGraph(t1, t2), PairSize, SameVisitor(SameRelation(o))).stop;
      if stop.Some? { ShapesPermitComparison(stop.value, o); }
    }
  }

  /** The verdict on the first pair that is not related, in the order of the traversal. */
  ghost function SameVerdict(t1: Node, t2: Node, o: Tolerance): Verdict {
    match FirstUnlike(SameRelation(o), Met(Pair(Some(t1), Some(t2))))
    case None => Same
    case Some(p) => if CannotCompare(p, o) then Raises else Different
  }

  /** What the verdict means: equality up to the order of siblings; a failure needs float arrays of different shapes. */
  lemma {:induction false} SameVerdictMeans(t1: Node, t2: Node, o: Tolerance)
    requires WellNamed(t1) && WellNamed(t2)
    ensures SameVerdict(t1, t2, o) == Same <==> Reordered(SameRelation(o), t1, t2)
    ensures SameVerdict(t1, t2, o) == Raises ==> !OnCommonPaths(SameShapes(), t1, t2)
  {
    SameSearch(t1, t2, o);
    AllMetAreRelated(SameRelation(o), Pair(Some(t1), Some(t2)));
    TraversalDecides(SameRelation(o), t1, t2);
    FailureTells(t1, t2, o);
  }

  /** Compare two trees by their simultaneous traversal, stopping at the first difference. */
  method IsSameTree(t1: Node, t2: Node, o: Tolerance) returns (v: Verdict)
    requires WellNamed(t1) && WellNamed(t2)
    ensures v == SameVerdict(t1, t2, o)
    ensures v == Same <==> Reordered(SameRelation(o), t1, t2)
    ensures v == Raises ==> !OnCommonPaths(SameShapes(), t1, t2)
  {
    SameSearch(t1, t2, o);
    SameVerdictMeans(t1, t2, o);
    var calls, stop := DepthFirstSearch(ZipGraph(t1, t2), PairSize, SameVisitor(SameRelation(o)));
    if stop.None? {
      v := Same;
    } else if CannotCompare(stop.value, o) {
      v := Raises;
    } else {
      v := Different;
    }
  }

  /** The simultaneous traversal decides equality up to the order of siblings. */
  lemma {:induction false} TraversalDecides(r: Relation, t1: Node, t2: Node)
    requires WellNamed(t1) && WellNamed(t2) && Nominal(r)
    ensures ZipOk(r, Pair(Some(t1), Some(t2))) <==> Reordered(r, t1, t2)
  {
    if ZipOk(r, Pair(Some(t1), Some(t2))) { ZipOkIsReordered(r, t1, t2); }
    if Reordered(r, t1, t2) { ReorderedIsZipOk(r, t1, t2); }
  }

  // ---------------------------------------------------------------- diff_tree

  /** The characters that Python takes for white space. */
  predicate IsBlank(c: char) {
    var k := c as int;
    || 9 <= k <= 13 || 28 <= k <= 32 || k == 0x85 || k == 0xA0 || k == 0x1680 || 0x2000 <= k <= 0x200A
    || k == 0x2028 || k == 0x2029 || k == 0x202F || k == 0x205F || k == 0x3000
  }

  function StripLeft(s: string): string {
    if s != [] && IsBlank(s[0]) then StripLeft(s[1..]) else s
  }

  function StripRight(s: string): string
    decreases |s|
  {
    if s != [] && IsBlank(Last(s)) then StripRight(Front(s)) else s
  }

  function Strip(s: string): string {
    StripRight(StripLeft(s))
  }

  /** Numpy texts end before their trailing null characters. */
  function DropNulls(s: string): string
    decreases |s|
  {
    if s != [] && Last(s) == 0 as char then DropNulls(Front(s)) else s
  }

  /** What is compared of a text: it loses its surrounding blanks, then the null characters at its end. */
  function Shown(s: string): string {
    DropNulls(Strip(s))
  }

  /** Exact comparison of the values handed out by the node. */
  predicate DiffValue(v: Value, w: Value) {
    match v
    case Empty => w.Empty?
    case Chars(text) => w.Chars? && Shown(text) == Shown(w.text)
    case Numbers(_, data) => w.Numbers? && data == w.data
  }

  /** The values are compared: names, labels and types agree. */
  predicate Comparable(a: Node, b: Node, strict: bool) {
    && a.name == b.name && a.tag == b.tag
    && if strict then SameType(a.value, b.value) else KindOf(a.value) == KindOf(b.value)
  }

  predicate DiffNode(a: Node, b: Node, strict: bool) {
    Comparable(a, b, strict) && DiffValue(a.value, b.value)
  }

  function DiffRelation(strict: bool): Relation {
    (a: Node, b: Node) => DiffNode(a, b, strict)
  }

  /**
   Building the report on unequal values raises.  Values of less than ten elements are concatenated, which is not possible for
   a text or for an array without dimension; the other ones are compared element by element, if their shapes permit it.
   */
  predicate ReportRaises(v: Value, w: Value) {
    match v
    case Empty => false
    case Chars(text) => |Strip(text)| < 10
    case Numbers(_, x) =>
      x.shape == [] || (w.Numbers? && if x.shape[0] < 10 then w.data.shape == [] else !Broadcastable(x.shape, w.data.shape))
  }

  /** The comparison of the nodes can be reported. */
  predicate CanReport(a: Node, b: Node, strict: bool) {
    Comparable(a, b, strict) && !DiffValue(a.value, b.value) ==> !ReportRaises(a.value, b.value)
  }

  function Reports(strict: bool): Relation {
    (a: Node, b: Node) => CanReport(a, b, strict)
  }

  type PairTest = Pair -> bool

  /** Both nodes are there, and equal. */
  function Unchanged(strict: bool): PairTest {
    (p: Pair) => p.left.Some? && p.right.Some? && DiffNode(p.left.value, p.right.value, strict)
  }

  /** The comparison of the pair does not raise. */
  function Reported(strict: bool): PairTest {
    (p: Pair) => Namesakes(p) ==> CanReport(p.left.value, p.right.value, strict)
  }

  /** Explore under namesakes only, and never stop. */
  function DiffVisitor(): Visitor<Pair> {
    (calls: seq<Event<Pair>>) =>
      if calls == [] || Last(calls).path == [] then Into
      else if Namesakes(Last(Last(calls).path)) then Into else Over
  }

  ghost predicate NamedPath(path: seq<Pair>) {
    forall i :: 0 <= i < |path| ==> Namesakes(path[i])
  }

  ghost predicate EntersWell(e: Event<Pair>) {
    e.Pre? ==> e.path != [] && NamedPath(Front(e.path))
  }

  ghost predicate EntersOk(e: Event<Pair>, q: PairTest) {
    e.Pre? ==> e.path != [] && q(Last(e.path))
  }

  ghost predicate AllWell(calls: seq<Event<Pair>>, from: nat) {
    forall i {:trigger EntersWell(calls[i])} :: from <= i < |calls| ==> EntersWell(calls[i])
  }

  ghost predicate AllOk(calls: seq<Event<Pair>>, from: nat, q: PairTest) {
    forall i {:trigger EntersOk(calls[i], q)} :: from <= i < |calls| ==> EntersOk(calls[i], q)
  }

  /** The test holds of all pairs that are entered when only namesakes are explored. */
  ghost predicate ZipAll(q: PairTest, p: Pair)
    decreases PairSize(p)
  {
    q(p) && (Namesakes(p) ==> forall c :: c in ZipChildren(p) ==> ZipAll(q, c))
  }

  lemma {:induction false} AllConcat(a: seq<Event<Pair>>, b: seq<Event<Pair>>, c: seq<Event<Pair>>, q: PairTest)
    requires a <= b <= c
    ensures AllWell(c, |a|) <==> AllWell(b, |a|) && AllWell(c, |b|)
    ensures AllOk(c, |a|, q) <==> AllOk(b, |a|, q) && AllOk(c, |b|, q)
  {
    if AllWell(c, |a|) { forall i | |a| <= i < |b| ensures EntersWell(b[i]) { assert EntersWell(c[i]); } }
    if AllOk(c, |a|, q) { forall i | |a| <= i < |b| ensures EntersOk(b[i], q) { assert EntersOk(c[i], q); } }
    if AllWell(b, |a|) && AllWell(c, |b|) {
      forall i | |a| <= i < |c| ensures EntersWell(c[i]) { if i < |b| { assert EntersWell(b[i]); } }
    }
    if AllOk(b, |a|, q) && AllOk(c, |b|, q) {
      forall i | |a| <= i < |c| ensures EntersOk(c[i], q) { if i < |b| { assert EntersOk(b[i], q); } }
    }
  }

  lemma {:induction false} AllOne(a: seq<Event<Pair>>, e: Event<Pair>, q: PairTest)
    ensures AllWell(a + [e], |a|) <==> EntersWell(e)
    ensures AllOk(a + [e], |a|, q) <==> EntersOk(e, q)
  {
    assert (a + [e])[|a|] == e;
    if AllWell(a + [e], |a|) { assert EntersWell((a + [e])[|a|]); }
    if AllOk(a + [e], |a|, q) { assert EntersOk((a + [e])[|a|], q); }
  }

  /** One more call. */
  lemma {:induction false} AllStep(calls: seq<Event<Pair>>, i: nat, q: PairTest)
    requires i < |calls|
    ensures AllOk(calls[..i + 1], 0, q) <==> AllOk(calls[..i], 0, q) && EntersOk(calls[i], q)
  {
    assert calls[..i + 1] == calls[..i] + [calls[i]];
    AllOne(calls[..i], calls[i], q);
    AllConcat([], calls[..i], calls[..i + 1], q);
  }

  /** The calls of a node whose children were visited between `entered` and `inside`. */
  lemma {:induction false} DiffCloses(q: PairTest, calls: seq<Event<Pair>>, path: seq<Pair>, inside: seq<Event<Pair>>, below: bool)
    requires path != [] && NamedPath(Front(path)) && calls + [Pre(path)] <= inside
    requires AllWell(inside, |calls| + 1) && (AllOk(inside, |calls| + 1, q) <==> below)
    ensures calls <= inside + [Post(path)] && AllWell(inside + [Post(path)], |calls|)
    ensures AllOk(inside + [Post(path)], |calls|, q) <==> q(Last(path)) && below
  {
    var entered := calls + [Pre(path)];
    AllOne(calls, Pre(path), q);
    AllConcat(calls, entered, inside, q);
    AllOne(inside, Post(path), q);
    AllConcat(calls, inside, inside + [Post(path)], q);
  }

  /** The test holds of all pairs entered below `p` exactly when it does in the sub-trees, and their ancestors are namesakes. */
  lemma {:induction false} DiffVisitNode(g: Graph<Pair>, q: PairTest, above: seq<Pair>, p: Pair, calls: seq<Event<Pair>>)
    requires g.children == ZipChildren && Finite(g, PairSize)
    requires NamedPath(above)
    ensures var o := VisitNode(g, PairSize, DiffVisitor(), above, p, calls);
            && o.stop.None? && calls <= o.calls
            && AllWell(o.calls, |calls|)
            && (AllOk(o.calls, |calls|, q) <==> ZipAll(q, p))
    decreases PairSize(p), 1, 0
  {
    var path := above + [p];
    var entered := calls + [Pre(path)];
    assert Last(entered) == Pre(path) && Last(path) == p && Front(path) == above;
    if Namesakes(p) {
      DiffVisitChildren(g, q, path, ZipChildren(p), PairSize(p), entered);
      var inside := VisitChildren(g, PairSize, DiffVisitor(), path, ZipChildren(p), PairSize(p), entered).calls;
      DiffCloses(q, calls, path, inside, forall c :: c in ZipChildren(p) ==> ZipAll(q, c));
    } else {
      DiffCloses(q, calls, path, entered, true);
    }
  }

  lemma {:induction false} DiffVisitChildren(g: Graph<Pair>, q: PairTest, path: seq<Pair>, cs: seq<Pair>, bound: nat,
                                             calls: seq<Event<Pair>>)
    requires g.children == ZipChildren && Finite(g, PairSize)
    requires forall c :: c in cs ==> PairSize(c) < bound
    requires NamedPath(path)
    ensures var o := VisitChildren(g, PairSize, DiffVisitor(), path, cs, bound, calls);
            && o.stop.None? && calls <= o.calls
            && AllWell(o.calls, |calls|)
            && (AllOk(o.calls, |calls|, q) <==> forall c :: c in cs ==> ZipAll(q, c))
    decreases bound, 0, |cs|
  {
    if cs != [] {
      var down := calls + [Down(path + [cs[0]])];
      AllOne(calls, Down(path + [cs[0]]), q);
      DiffVisitNode(g, q, path, cs[0], down);
      var o := VisitNode(g, PairSize, DiffVisitor(), path, cs[0], down);
      AllConcat(calls, down, o.calls, q);
      var back := o.calls + [Up(path + [cs[0]])];
      AllOne(o.calls, Up(path + [cs[0]]), q);
      AllConcat(calls, o.calls, back, q);
      DiffVisitChildren(g, q, path, cs[1..], bound, back);
      AllConcat(calls, back, VisitChildren(g, PairSize, DiffVisitor(), path, cs[1..], bound, back).calls, q);
      assert forall c :: c in cs <==> c == cs[0] || c in cs[1..];
    }
  }

  /** Unchanged pairs are namesakes, so all of them are explored. */
  lemma {:induction false} UnchangedIsZipOk(strict: bool, p: Pair)
    ensures ZipAll(Unchanged(strict), p) <==> ZipOk(DiffRelation(strict), p)
    decreases PairSize(p)
  {
    forall c | c in ZipChildren(p) ensures ZipAll(Unchanged(strict), c) <==> ZipOk(DiffRelation(strict), c) {
      UnchangedIsZipOk(strict, c);
    }
  }

  /** All entered pairs can be reported exactly when all common paths can. */
  lemma {:induction false} ReportedIsCommon(strict: bool, a: Node, b: Node)
    requires WellNamed(a) && WellNamed(b) && a.name == b.name
    ensures ZipAll(Reported(strict), Pair(Some(a), Some(b))) <==> OnCommonPaths(Reports(strict), a, b)
    decreases Size(a)
  {
    var p := Pair(Some(a), Some(b));
    if ZipAll(Reported(strict), p) {
      forall x, y | x in a.children && y in b.children && x.name == y.name ensures OnCommonPaths(Reports(strict), x, y) {
        NamesakesArePaired(a, b, x, y);
        ChildIsSmaller(a.children, x);
        ReportedIsCommon(strict, x, y);
      }
    }
    if OnCommonPaths(Reports(strict), a, b) {
      forall c | c in ZipChildren(p) ensures ZipAll(Reported(strict), c) {
        if Namesakes(c) {
          ZipChildCases(a, b, c);
          ChildIsSmaller(a.children, c.left.value);
          ReportedIsCommon(strict, c.left.value, c.right.value);
          assert c == Pair(Some(c.left.value), Some(c.right.value));
        }
      }
    }
  }

  lemma {:induction false} DiffSearch(t1: Node, t2: Node, strict: bool)
    requires WellNamed(t1) && WellNamed(t2)
    ensures Finite(ZipGraph(t1, t2), PairSize)
    ensures var calls := Search(ZipGraph(t1, t2), PairSize, DiffVisitor()).calls;
            && AllWell(calls, 0)
            && (AllOk(calls, 0, Unchanged(strict)) <==> Reordered(DiffRelation(strict), t1, t2))
            && (AllOk(calls, 0, Reported(strict)) <==> t1.name != t2.name || OnCommonPaths(Reports(strict), t1, t2))
  {
    var g, p := ZipGraph(t1, t2), Pair(Some(t1), Some(t2));
    ZipGraphIsFinite(t1, t2);
    DiffVisitNode(g, Unchanged(strict), [], p, []);
    DiffVisitNode(g, Reported(strict), [], p, []);
    OneRoot(g, DiffVisitor(), p);
    UnchangedIsZipOk(strict, p);
    TraversalDecides(DiffRelation(strict), t1, t2);
    if t1.name == t2.name { ReportedIsCommon(strict, t1, t2); }
  }

  /** The names of the nodes of one tree along a path. */
  ghost function PathText(path: seq<Pair>, left: bool): string {
    if path == [] then "/"
    else
      var n := if left then path[|path| - 1].left else path[|path| - 1].right;
      PathText(path[..|path| - 1], left) + (if n.Some? then n.value.name else "") + "/"
  }

  /** Paths as they are written in the report. */
  lemma {:induction false} PathAsWritten(a: Node, b: Node, c: Node, d: Node)
    requires a.name == "Base" == c.name && b.name == "Zone" == d.name
    ensures PathText([Pair(Some(a), Some(c)), Pair(Some(b), Some(d))], true) == "/Base/Zone/"
  {
    var path := [Pair(Some(a), Some(c)), Pair(Some(b), Some(d))];
    assert path[..1] == [Pair(Some(a), Some(c))] && path[..1][..0] == [];
    assert PathText(path[..1], true) == "/" + "Base" + "/";
  }

  /** The comparing visitor, with the verdict it accumulates. */
  class DiffTreeVisitor {
    var isOk: bool

    constructor ()
      ensures isOk
    {
      isOk := true;
    }

    /** Join the names of the ancestors of a pair, which must agree. */
    static method ZipPath(path: seq<Pair>) returns (s: string)
      requires NamedPath(path)
      ensures s == PathText(path, true) == PathText(path, false)
    {
      s := "/";
      for i := 0 to |path|
        invariant s == PathText(path[..i], true) == PathText(path[..i], false)
      {
        assert path[..i + 1][..i] == path[..i];
        assert path[i].left.value.name == path[i].right.value.name;
        s := s + path[i].left.value.name + "/";
      }
      assert path[..|path|] == path;
    }

    /** Compare a pair; when the report cannot be built, the verdict is left as it was. */
    method OnPre(path: seq<Pair>, strict: bool) returns (raised: bool)
      requires path != [] && NamedPath(Front(path))
      modifies this
      ensures raised <==> !Reported(strict)(Last(path))
      ensures isOk == (old(isOk) && (raised || Unchanged(strict)(Last(path))))
    {
      var _ := ZipPath(Front(path));
      var p := Last(path);
      raised := false;
      if p.left.None? || p.right.None? {
        isOk := false;
      } else {
        var a, b := p.left.value, p.right.value;
        if !Comparable(a, b, strict) {
          isOk := false;
        } else if !DiffValue(a.value, b.value) {
          raised := ReportRaises(a.value, b.value);
          if !raised { isOk := false; }
        }
      }
    }
  }

  /** The verdict of a full traversal: some pair cannot be reported, or all are equal, or not. */
  ghost function DiffVerdict(t1: Node, t2: Node, strict: bool): Verdict {
    if t1.name == t2.name && !OnCommonPaths(Reports(strict), t1, t2) then Raises
    else if Reordered(DiffRelation(strict), t1, t2) then Same
    else Different
  }

  /** Compare two trees with a full traversal that accumulates differences. */
  method DiffTree(t1: Node, t2: Node, strict: bool) returns (v: Verdict)
    requires WellNamed(t1) && WellNamed(t2)
    ensures v == DiffVerdict(t1, t2, strict)
    ensures v == Same <==> Reordered(DiffRelation(strict), t1, t2)
    ensures v == Raises <==> t1.name == t2.name && !OnCommonPaths(Reports(strict), t1, t2)
  {
    DiffSearch(t1, t2, strict);
    var calls, _ := DepthFirstSearch(ZipGraph(t1, t2), PairSize, DiffVisitor());
    var visitor := new DiffTreeVisitor();
    for i := 0 to |calls|
      invariant visitor.isOk <==> AllOk(calls[..i], 0, Unchanged(strict))
      invariant AllOk(calls[..i], 0, Reported(strict))
    {
      AllStep(calls, i, Unchanged(strict));
      AllStep(calls, i, Reported(strict));
      assert EntersWell(calls[i]);
      if calls[i].Pre? {
        var raised := visitor.OnPre(calls[i].path, strict);
        if raised {
          assert !EntersOk(calls[i], Reported(strict)) && !EntersOk(calls[i], Unchanged(strict));
          return Raises;
        }
      }
    }
    assert calls[..|calls|] == calls;
    v := if visitor.isOk then Same else Different;
  }

  // ---------------------------------------------------------------- which comparison means equality

  function Exact(): Relation {
    (a: Node, b: Node) => a.name == b.name && a.tag == b.tag && a.value == b.value
  }

  /** The property holds between all nodes found at the same path in both trees. */
  ghost predicate OnCommonPaths(p: Relation, a: Node, b: Node)
    decreases a
  {
    p(a, b) && forall x, y :: x in a.children && y in b.children && x.name == y.name ==> OnCommonPaths(p, x, y)
  }

  /** Float arrays have the same shape. */
  function SameShapes(): Relation {
    (a: Node, b: Node) => KindOf(a.value) == Real && KindOf(b.value) == Real ==> a.value.data.shape == b.value.data.shape
  }

  /** Texts that are shown alike are equal. */
  predicate ShownApart(v: Value, w: Value) {
    v.Chars? && w.Chars? && Shown(v.text) == Shown(w.text) ==> v == w
  }

  function SameTexts(): Relation {
    (a: Node, b: Node) => ShownApart(a.value, b.value)
  }

  /** Texts that are shown alike are equal, and types are equal. */
  function SameTextsAndTypes(strict: bool): Relation {
    (a: Node, b: Node) => ShownApart(a.value, b.value) && (strict || SameType(a.value, b.value))
  }

  lemma {:induction false} ZipWeaken(e: Relation, r: Relation, q: Pair)
    requires forall x, y :: e(x, y) ==> r(x, y)
    requires ZipOk(e, q)
    ensures ZipOk(r, q)
    decreases PairSize(q)
  {
    forall c | c in ZipChildren(q) ensures ZipOk(r, c) {
      ZipWeaken(e, r, c);
    }
  }

  lemma {:induction false} ZipGivesCommon(e: Relation, p: Relation, a: Node, b: Node)
    requires WellNamed(a) && WellNamed(b)
    requires forall x, y :: e(x, y) ==> p(x, y)
    requires ZipOk(e, Pair(Some(a), Some(b)))
    ensures OnCommonPaths(p, a, b)
    decreases Size(a)
  {
    forall x, y | x in a.children && y in b.children && x.name == y.name ensures OnCommonPaths(p, x, y) {
      NamesakesArePaired(a, b, x, y);
      ChildIsSmaller(a.children, x);
      ZipGivesCommon(e, p, x, y);
    }
  }

  lemma {:induction false} ZipWithCommon(r: Relation, p: Relation, e: Relation, a: Node, b: Node)
    requires WellNamed(a) && WellNamed(b) && Nominal(r)
    requires forall x, y :: r(x, y) && p(x, y) ==> e(x, y)
    requires ZipOk(r, Pair(Some(a), Some(b))) && OnCommonPaths(p, a, b)
    ensures ZipOk(e, Pair(Some(a), Some(b)))
    decreases Size(a)
  {
    forall c | c in ZipChildren(Pair(Some(a), Some(b))) ensures ZipOk(e, c) {
      assert ZipOk(r, c);
      ZipChildCases(a, b, c);
      var x, y := c.left.value, c.right.value;
      assert r(x, y);
      ChildIsSmaller(a.children, x);
      ZipWithCommon(r, p, e, x, y);
      assert c == Pair(Some(x), Some(y));
    }
  }

  lemma {:induction false} NamesakesArePaired(a: Node, b: Node, x: Node, y: Node)
    requires DistinctNames(a.children) && DistinctNames(b.children)
    requires x in a.children && y in b.children && x.name == y.name
    ensures Pair(Some(x), Some(y)) in ZipChildren(Pair(Some(a), Some(b)))
  {
    ChildIsPaired(a, b, x);
    var c :| c in ZipChildren(Pair(Some(a), Some(b))) && c.left == Some(x);
    ZipChildCases(a, b, c);
    var x', y' := Sorted(a.children), Sorted(b.children);
    SortedIsSorted(a.children);
    SortedIsSorted(b.children);
    SameMembers(x', a.children);
    SameMembers(y', b.children);
    PairedWithNamesake(x', y', x, y);
  }

  lemma {:induction false} PairedWithNamesake(xs: seq<Node>, ys: seq<Node>, x: Node, y: Node)
    requires SortedByName(xs) && SortedByName(ys)
    requires x in xs && y in ys && x.name == y.name
    ensures Pair(Some(x), Some(y)) in Zipped(MergeSplit(xs, ys, LessByName))
  {
    var s := MergeSplit(xs, ys, LessByName);
    SplitMembers(xs, ys, LessByName, x);
    MergeLeavesStrangers(xs, ys, x);
    assert x in s.interX;
    var k :| 0 <= k < |s.interX| && s.interX[k] == x;
    MergePairsNamesakes(xs, ys);
    SplitMembers(xs, ys, LessByName, s.interY[k]);
    SortedNamesakes(ys, y, s.interY[k]);
    assert Zipped(s)[k] == Pair(Some(x), Some(y));
  }

  lemma {:induction false} SortedNamesakes(ns: seq<Node>, m: Node, n: Node)
    requires SortedByName(ns) && m in ns && n in ns && m.name == n.name
    ensures m == n
  {
    var i :| 0 <= i < |ns| && ns[i] == m;
    var j :| 0 <= j < |ns| && ns[j] == n;
    LessIsIrreflexive(m.name);
    assert i == j;
  }

  lemma {:induction false} Refined(r: Relation, p: Relation, e: Relation, a: Node, b: Node)
    requires WellNamed(a) && WellNamed(b) && Nominal(r)
    requires forall x, y :: e(x, y) <==> r(x, y) && p(x, y)
    ensures Reordered(e, a, b) <==> Reordered(r, a, b) && OnCommonPaths(p, a, b)
  {
    TraversalDecides(r, a, b);
    TraversalDecides(e, a, b);
    var q := Pair(Some(a), Some(b));
    if ZipOk(e, q) {
      ZipWeaken(e, r, q);
      ZipGivesCommon(e, p, a, b);
    }
    if ZipOk(r, q) && OnCommonPaths(p, a, b) {
      ZipWithCommon(r, p, e, a, b);
    }
  }

  lemma {:induction false} StrictNodeIsExact(a: Node, b: Node)
    ensures Exact()(a, b) <==> SameRelation(STRICT)(a, b) && SameShapes()(a, b)
  {
    var v, w := a.value, b.value;
    if KindOf(v) == Real && KindOf(w) == Real && SameShapes()(a, b) {
      SameShapeBroadcasts(v.data.shape);
      CloseIsEqual(v.data.shape, v.data.tensor, w.data.tensor);
    }
  }

  /** With the default tolerance, the same verdict means equality exactly when float arrays agree in shape. */
  lemma {:induction false} SameMeansEqual(t1: Node, t2: Node)
    requires WellNamed(t1) && WellNamed(t2)
    ensures Reordered(Exact(), t1, t2)
            <==> Reordered(SameRelation(STRICT), t1, t2) && OnCommonPaths(SameShapes(), t1, t2)
  {
    forall x, y ensures Exact()(x, y) <==> SameRelation(STRICT)(x, y) && SameShapes()(x, y) { StrictNodeIsExact(x, y); }
    Refined(SameRelation(STRICT), SameShapes(), Exact(), t1, t2);
  }

  lemma {:induction false} DiffNodeIsExact(a: Node, b: Node, strict: bool)
    ensures Exact()(a, b) <==> DiffRelation(strict)(a, b) && SameTextsAndTypes(strict)(a, b)
  {
  }

  /** The accumulating comparison means equality exactly when texts shown alike are equal, and types too if they are not compared. */
  lemma {:induction false} NoDiffMeansEqual(t1: Node, t2: Node, strict: bool)
    requires WellNamed(t1) && WellNamed(t2)
    ensures Reordered(Exact(), t1, t2) <==> Reordered(DiffRelation(strict), t1, t2) && OnCommonPaths(SameTextsAndTypes(strict), t1, t2)
  {
    forall x, y ensures Exact()(x, y) <==> DiffRelation(strict)(x, y) && SameTextsAndTypes(strict)(x, y) { DiffNodeIsExact(x, y, strict); }
    Refined(DiffRelation(strict), SameTextsAndTypes(strict), Exact(), t1, t2);
  }

  lemma {:induction false} SameTextsOnPaths(a: Node, b: Node)
    ensures OnCommonPaths(SameTextsAndTypes(true), a, b) <==> OnCommonPaths(SameTexts(), a, b)
    decreases a
  {
    forall x, y | x in a.children && y in b.children
      ensures OnCommonPaths(SameTextsAndTypes(true), x, y) <==> OnCommonPaths(SameTexts(), x, y)
    {
      SameTextsOnPaths(x, y);
    }
  }

  /** When shapes and texts agree, both comparisons reach the same verdict exactly when the second one can be reported. */
  lemma {:induction false} VerdictsAgree(t1: Node, t2: Node)
    requires WellNamed(t1) && WellNamed(t2)
    requires OnCommonPaths(SameShapes(), t1, t2) && OnCommonPaths(SameTexts(), t1, t2)
    ensures SameVerdict(t1, t2, STRICT) == DiffVerdict(t1, t2, true)
            <==> t1.name != t2.name || OnCommonPaths(Reports(true), t1, t2)
  {
    SameVerdictMeans(t1, t2, STRICT);
    SameMeansEqual(t1, t2);
    SameTextsOnPaths(t1, t2);
    NoDiffMeansEqual(t1, t2, true);
  }

  // ---------------------------------------------------------------- what the node comparisons mean

  /** Types that differ at most in their size. */
  predicate SameLetter(d: Dtype, e: Dtype) {
    d == e || (d, e) in {(I4, I8), (I8, I4), (U4, U8), (U8, U4), (R4, R8), (R8, R4), (X4, X8), (X8, X4)}
  }

  /** Nothing, texts, or numbers of the same type; up to its size if any size is accepted. */
  predicate TypesAgree(v: Value, w: Value, anySize: bool) {
    match v
    case Empty => w.Empty?
    case Chars(_) => w.Chars?
    case Numbers(d, _) => w.Numbers? && (d == w.dtype || (anySize && SameLetter(d, w.dtype)))
  }

  predicate IsFloat(v: Value) { v.Numbers? && (v.dtype == R4 || v.dtype == R8) }

  /** Same shape, and numbers that differ by at most the tolerance at every index. */
  ghost predicate WithinAt(x: Array, y: Array, tol: real) {
    x.shape == y.shape && forall idx {:trigger InBounds(x.shape, idx)} :: InBounds(x.shape, idx) ==> -tol <= At(x.tensor, idx) - At(y.tensor, idx) <= tol
  }

  /** Equal contents; floats up to the tolerance. */
  ghost predicate ContentsAgree(v: Value, w: Value, tol: real) {
    match v
    case Empty => true
    case Chars(text) => w.Chars? && w.text == text
    case Numbers(_, x) => w.Numbers? && if IsFloat(v) then WithinAt(x, w.data, tol) else x == w.data
  }

  /** Nodes that agree up to the tolerances. */
  ghost function UpTo(o: Tolerance): Relation {
    (a: Node, b: Node) => && a.name == b.name && a.tag == b.tag
                          && TypesAgree(a.value, b.value, o.anySize) && ContentsAgree(a.value, b.value, o.abs)
  }

  lemma {:induction false} TypesAreKinds(v: Value, w: Value)
    ensures TypesAgree(v, w, true) <==> KindOf(v) == KindOf(w)
    ensures TypesAgree(v, w, false) <==> SameType(v, w)
    ensures IsFloat(v) <==> KindOf(v) == Real
  {
  }

  /** For any tolerance, nodes of the same shape are related exactly when they agree up to it. */
  lemma {:induction false} SameNodeMeans(a: Node, b: Node, o: Tolerance)
    ensures UpTo(o)(a, b) <==> SameRelation(o)(a, b) && SameShapes()(a, b)
  {
    var v, w := a.value, b.value;
    TypesAreKinds(v, w);
    TypesAreKinds(w, v);
    if IsFloat(v) && IsFloat(w) && v.data.shape == w.data.shape {
      SameShapeBroadcasts(v.data.shape);
      SameShapeClose(v.data.shape, v.data.tensor, w.data.tensor, o.abs);
    }
  }

  /** The comparison of two nodes fails exactly when they have comparable float arrays whose shapes cannot be aligned. */
  lemma {:induction false} SameNodeFails(a: Node, b: Node, o: Tolerance)
    ensures SameNode(a, b, o) == Fails
            <==> && a.name == b.name && a.tag == b.tag && TypesAgree(a.value, b.value, o.anySize)
                 && IsFloat(a.value) && !Aligned(a.value.data.shape, b.value.data.shape)
  {
    var v, w := a.value, b.value;
    TypesAreKinds(v, w);
    TypesAreKinds(w, v);
    if v.Numbers? && w.Numbers? { BroadcastableIsAligned(v.data.shape, w.data.shape); }
  }

  /** For any tolerance, the verdict "same" means agreement up to it exactly when float arrays agree in shape. */
  lemma {:induction false} SameMeansUpTo(t1: Node, t2: Node, o: Tolerance)
    requires WellNamed(t1) && WellNamed(t2)
    ensures Reordered(UpTo(o), t1, t2) <==> SameVerdict(t1, t2, o) == Same && OnCommonPaths(SameShapes(), t1, t2)
  {
    forall x, y ensures UpTo(o)(x, y) <==> SameRelation(o)(x, y) && SameShapes()(x, y) { SameNodeMeans(x, y, o); }
    Refined(SameRelation(o), SameShapes(), UpTo(o), t1, t2);
    SameVerdictMeans(t1, t2, o);
  }

  /** What is left of a text without its surrounding blanks. */
  ghost predicate Trimmed(s: string, t: string) {
    exists i: nat, j: nat :: TrimmedAt(s, t, i, j)
  }

  ghost predicate TrimmedAt(s: string, t: string, i: nat, j: nat) {
    && i <= j <= |s| && t == s[i..j]
    && (forall k :: 0 <= k < i || j <= k < |s| ==> IsBlank(s[k]))
    && (t != [] ==> !IsBlank(s[i]) && !IsBlank(s[j - 1]))
  }

  lemma {:induction false} StripLeftTrims(s: string) returns (i: nat)
    ensures i <= |s| && StripLeft(s) == s[i..] && (forall k :: 0 <= k < i ==> IsBlank(s[k])) && (i < |s| ==> !IsBlank(s[i]))
    decreases |s|
  {
    if s != [] && IsBlank(s[0]) {
      var j := StripLeftTrims(s[1..]);
      i := j + 1;
      assert s[1..][j..] == s[i..];
      forall k | 0 <= k < i ensures IsBlank(s[k]) { if k > 0 { assert s[1..][k - 1] == s[k]; } }
      if i < |s| { assert s[i] == s[1..][j]; }
    } else {
      i := 0;
    }
  }

  lemma {:induction false} StripRightTrims(s: string) returns (j: nat)
    ensures j <= |s| && StripRight(s) == s[..j] && (forall k :: j <= k < |s| ==> IsBlank(s[k])) && (0 < j ==> !IsBlank(s[j - 1]))
    decreases |s|
  {
    if s != [] && IsBlank(Last(s)) {
      j := StripRightTrims(Front(s));
      assert Front(s)[..j] == s[..j];
    } else {
      j := |s|;
    }
  }

  lemma {:induction false} StripTrims(s: string)
    ensures Trimmed(s, Strip(s))
  {
    var i := StripLeftTrims(s);
    var j := StripRightTrims(s[i..]);
    assert s[i..][..j] == s[i..i + j];
    forall k | i + j <= k < |s| ensures IsBlank(s[k]) { assert s[i..][k - i] == s[k]; }
    assert TrimmedAt(s, Strip(s), i, i + j);
  }

  /** What is left of a text without the null characters at its end. */
  ghost predicate CutAtNulls(s: string, t: string) {
    && t <= s && (forall k :: |t| <= k < |s| ==> s[k] == 0 as char)
    && (t != [] ==> t[|t| - 1] != 0 as char)
  }

  lemma {:induction false} DropNullsCuts(s: string)
    ensures CutAtNulls(s, DropNulls(s))
    decreases |s|
  {
    if s != [] && Last(s) == 0 as char { DropNullsCuts(Front(s)); }
  }

  /** Nodes are equal for the accumulating comparison, types compared strictly or up to their size. */
  lemma {:induction false} DiffNodeMeans(a: Node, b: Node, strict: bool)
    ensures DiffNode(a, b, strict)
            <==> && a.name == b.name && a.tag == b.tag && TypesAgree(a.value, b.value, !strict)
                 && (a.value.Numbers? && b.value.Numbers? ==> a.value.data == b.value.data)
                 && (a.value.Chars? && b.value.Chars? ==> Shown(a.value.text) == Shown(b.value.text))
  {
    TypesAreKinds(a.value, b.value);
  }

  // ---------------------------------------------------------------- single nodes on which the comparisons fail or disagree

  lemma {:induction false} LeavesReordered(r: Relation, a: Node, b: Node)
    requires a.children == [] && b.children == []
    ensures WellNamed(a) && (Reordered(r, a, b) <==> r(a, b))
  {
    assert Matches(r, a.children, b.children);
  }

  /** The verdicts on trees of one node. */
  lemma {:induction false} LeafVerdicts(t1: Node, t2: Node)
    requires t1.children == [] && t2.children == [] && t1.name == t2.name
    ensures WellNamed(t1) && WellNamed(t2)
    ensures Reordered(Exact(), t1, t2) <==> Exact()(t1, t2)
    ensures SameVerdict(t1, t2, STRICT)
            == match SameNode(t1, t2, STRICT) case Yes => Same case No => Different case Fails => Raises
    ensures DiffVerdict(t1, t2, true)
            == if !CanReport(t1, t2, true) then Raises else if DiffNode(t1, t2, true) then Same else Different
  {
    LeavesReordered(Exact(), t1, t2);
    LeavesReordered(Exact(), t2, t1);
    LeavesReordered(DiffRelation(true), t1, t2);
    LeavesReordered(SameRelation(STRICT), t1, t2);
    SameVerdictMeans(t1, t2, STRICT);
    FirstUnlikeBelow(SameRelation(STRICT), Pair(Some(t1), Some(t2)));
  }

  function ArrayNode(dtype: Dtype, x: seq<real>): Node {
    Node("X", "DataArray_t", Numbers(dtype, Line(x)), [])
  }

  function TextNode(text: string): Node {
    Node("X", "Descriptor_t", Chars(text), [])
  }

  lemma {:induction false} OneRepeats()
    ensures AllClose(Line([1.0]), Line([1.0, 1.0]), 0.0) == Yes
  {
    assert [1][1..] == [] && [2][1..] == [];
  }

  /** A float array of one element passes for any array that repeats it. */
  lemma {:induction false} BroadcastPassesForEqual()
    ensures var t1, t2 := ArrayNode(R8, [1.0]), ArrayNode(R8, [1.0, 1.0]);
            && WellNamed(t1) && WellNamed(t2) && !Reordered(Exact(), t1, t2)
            && SameVerdict(t1, t2, STRICT) == Same && DiffVerdict(t1, t2, true) == Different
  {
    OneRepeats();
    LeafVerdicts(ArrayNode(R8, [1.0]), ArrayNode(R8, [1.0, 1.0]));
  }

  lemma {:induction false} BlankIsStripped()
    ensures Strip("a ") == "a" == Strip("a") && Strip("b") == "b" && "a " != "a"
    ensures Shown("a ") == "a" == Shown("a") && Shown("b") == "b"
  {
    assert Front("a ") == "a";
  }

  /** A trailing blank is seen by one comparison and not by the other. */
  lemma {:induction false} BlankPassesForEqual()
    ensures var t1, t2 := TextNode("a "), TextNode("a");
            && WellNamed(t1) && WellNamed(t2) && !Reordered(Exact(), t1, t2)
            && SameVerdict(t1, t2, STRICT) == Different && DiffVerdict(t1, t2, true) == Same
  {
    BlankIsStripped();
    LeafVerdicts(TextNode("a "), TextNode("a"));
  }

  /** Texts that differ as they are shown: the report raises exactly when the first has less than ten characters. */
  lemma {:induction false} TextsReported(s: string, t: string)
    ensures DiffVerdict(TextNode(s), TextNode(t), true) == if Shown(s) == Shown(t) then Same else if |Strip(s)| < 10 then Raises else Different
  {
    LeafVerdicts(TextNode(s), TextNode(t));
  }

  lemma {:induction false} LinesDiffer(x: seq<real>, y: seq<real>)
    ensures Line(x) == Line(y) <==> x == y
    ensures Broadcastable(Line(x).shape, Line(y).shape) <==> |x| == |y| || |x| == 1 || |y| == 1
  {
    if Line(x) == Line(y) {
      forall i | 0 <= i < |x| ensures x[i] == y[i] { assert Line(x).tensor.rows[i] == Line(y).tensor.rows[i]; }
    }
    assert Line(x).shape == [|x|] && Line(y).shape == [|y|];
    assert [|x|][1..] == [] && [|y|][1..] == [];
  }

  /** Unequal arrays of one dimension: the report raises exactly from ten elements on, when the other has another length than 1. */
  lemma {:induction false} LinesReported(d: Dtype, x: seq<real>, y: seq<real>)
    ensures DiffVerdict(ArrayNode(d, x), ArrayNode(d, y), true)
            == if x == y then Same else if |x| >= 10 && |y| != |x| && |y| != 1 then Raises else Different
  {
    LeafVerdicts(ArrayNode(d, x), ArrayNode(d, y));
    LinesDiffer(x, y);
  }

  /** Two short texts that differ are told apart by one comparison; the other raises when it reports them. */
  lemma {:induction false} ShortTextsAreNotReported()
    ensures var t1, t2 := TextNode("a"), TextNode("b");
            && WellNamed(t1) && WellNamed(t2)
            && SameVerdict(t1, t2, STRICT) == Different && DiffVerdict(t1, t2, true) == Raises
  {
    BlankIsStripped();
    LeafVerdicts(TextNode("a"), TextNode("b"));
  }

  /** The same for integer arrays of ten elements or more, when the other one is shorter. */
  lemma {:induction false} LongArraysAreNotReported(x: seq<real>)
    requires |x| >= 10
    ensures var t1, t2 := ArrayNode(I4, x), ArrayNode(I4, x[..2]);
            && WellNamed(t1) && WellNamed(t2)
            && SameVerdict(t1, t2, STRICT) == Different && DiffVerdict(t1, t2, true) == Raises
  {
    LeafVerdicts(ArrayNode(I4, x), ArrayNode(I4, x[..2]));
  }
}

/**
 What node searches yield, and in which order, told without following the searches: a listing of all paths of the tree, of which
 the search keeps those that end on a matching node of the depth window.
 */
module WalkListing {
  import opened Basics
  import opened Counting
  import opened NodeWalk

  /** The nodes from the root down to a node; the level of the node is the number of nodes before it. */
  type Path = seq<Node>

  function EndOf(path: Path): Node {
    if path == [] then Node("", "", []) else path[|path| - 1]
  }

  // ---------------------------------------------------------------- listings of the tree

  /** A node, then all that is below it, then its next siblings; children come in the order given by `sort`. */
  ghost function Preorder(above: Path, nodes: seq<Node>, sort: Sort): seq<Path>
    decreases Sizes(nodes)
  {
    if nodes == [] then []
    else
      ListingShrinks(nodes, sort);
      [above + [nodes[0]]] + Preorder(above + [nodes[0]], sort(nodes[0].children), sort) + Preorder(above, nodes[1..], sort)
  }

  lemma {:induction false} ListingShrinks(nodes: seq<Node>, sort: Sort)
    requires nodes != []
    ensures Sizes(sort(nodes[0].children)) < Sizes(nodes) && Sizes(nodes[1..]) < Sizes(nodes)
  {
    assert SortsAt(sort, nodes[0].children);
    SizesReordered(sort(nodes[0].children), nodes[0].children);
    assert nodes == [nodes[0]] + nodes[1..];
    SizesConcat([nodes[0]], nodes[1..]);
    SizesOne(nodes[0]);
  }

  /** The paths to the children of the end of a path. */
  ghost function Extensions(sort: Sort): Path -> seq<Path> {
    (path: Path) => Prolonged(path, sort(EndOf(path).children))
  }

  function Prolonged(path: Path, nodes: seq<Node>): (r: seq<Path>)
    ensures |r| == |nodes| && forall i :: 0 <= i < |r| ==> r[i] == path + [nodes[i]]
  {
    seq(|nodes|, i requires 0 <= i < |nodes| => path + [nodes[i]])
  }

  /** Number of nodes at the ends of the paths, with what is below them. */
  ghost function Weight(row: seq<Path>): nat {
    if row == [] then 0 else Weight(row[..|row| - 1]) + Size(EndOf(row[|row| - 1]))
  }

  /** A row of paths, then the paths to the children of their ends, and so on: level by level. */
  ghost function LevelOrder(row: seq<Path>, sort: Sort): seq<Path>
    decreases Weight(row)
  {
    if row == [] then []
    else
      RowsShrink(row, sort);
      row + LevelOrder(FlatMap(row, Extensions(sort)), sort)
  }

  lemma {:induction false} WeightConcat(a: seq<Path>, b: seq<Path>)
    ensures Weight(a + b) == Weight(a) + Weight(b)
    decreases |b|
  {
    if b == [] { assert a + b == a; } else { assert (a + b)[..|a + b| - 1] == a + b[..|b| - 1]; WeightConcat(a, b[..|b| - 1]); }
  }

  lemma {:induction false} WeightProlonged(path: Path, nodes: seq<Node>)
    ensures Weight(Prolonged(path, nodes)) == Sizes(nodes)
    decreases |nodes|
  {
    if nodes != [] {
      assert Prolonged(path, nodes)[..|nodes| - 1] == Prolonged(path, nodes[..|nodes| - 1]);
      WeightProlonged(path, nodes[..|nodes| - 1]);
    }
  }

  lemma {:induction false} RowsShrink(row: seq<Path>, sort: Sort)
    ensures Weight(FlatMap(row, Extensions(sort))) <= Weight(row)
    ensures row != [] ==> Weight(FlatMap(row, Extensions(sort))) < Weight(row)
    decreases |row|
  {
    if row != [] {
      var front, path := row[..|row| - 1], row[|row| - 1];
      RowsShrink(front, sort);
      var nodes := EndOf(path).children;
      assert SortsAt(sort, nodes);
      SizesReordered(sort(nodes), nodes);
      WeightProlonged(path, sort(nodes));
      WeightConcat(FlatMap(front, Extensions(sort)), Extensions(sort)(path));
    }
  }

  // ---------------------------------------------------------------- the listings are complete

  /** Each node is a child of the one before it. */
  ghost predicate Descends(path: Path) {
    forall i :: 0 < i < |path| ==> path[i] in path[i - 1].children
  }

  lemma {:induction false} SortKeepsMembers(sort: Sort, nodes: seq<Node>, c: Node)
    ensures c in sort(nodes) <==> c in nodes
  {
    assert SortsAt(sort, nodes);
    assert c in sort(nodes) <==> c in multiset(sort(nodes));
    assert c in nodes <==> c in multiset(nodes);
  }

  /** The path continues `above` with one of the nodes and some of what is below it. */
  ghost predicate Continues(path: Path, above: Path, nodes: seq<Node>) {
    |above| < |path| && path[..|above|] == above && path[|above|] in nodes && Descends(path[|above|..])
  }

  lemma {:induction false} ContinuesBelow(path: Path, above: Path, node: Node, nodes: seq<Node>)
    requires forall c :: c in nodes <==> c in node.children
    ensures path == above + [node] || Continues(path, above + [node], nodes) <==> Continues(path, above, [node])
  {
    var n := |above|;
    if path == above + [node] {
      assert path[..n] == above && path[n..] == [node];
    } else {
      if Continues(path, above + [node], nodes) {
        assert path[..n] == path[..n + 1][..n] == above && path[n] == path[..n + 1][n] == node;
        var tail, rest := path[n..], path[n + 1..];
        forall i | 0 < i < |tail| ensures tail[i] in tail[i - 1].children {
          if i > 1 { assert rest[i - 1] in rest[i - 2].children; }
        }
      }
      if Continues(path, above, [node]) {
        assert path[..n + 1] == above + [node];
        var tail, rest := path[n..], path[n + 1..];
        assert path == path[..n + 1] + rest;
        assert tail[1] in tail[0].children;
        forall i | 0 < i < |rest| ensures rest[i] in rest[i - 1].children {
          assert tail[i + 1] in tail[i].children;
        }
      }
    }
  }

  /** The preorder lists exactly the paths of the tree. */
  lemma {:induction false} PreorderIsComplete(above: Path, nodes: seq<Node>, sort: Sort, path: Path)
    ensures path in Preorder(above, nodes, sort) <==> Continues(path, above, nodes)
    decreases Sizes(nodes)
  {
    if nodes != [] {
      ListingShrinks(nodes, sort);
      var first, below := nodes[0], sort(nodes[0].children);
      PreorderIsComplete(above + [first], below, sort, path);
      PreorderIsComplete(above, nodes[1..], sort, path);
      forall c ensures c in below <==> c in first.children { SortKeepsMembers(sort, first.children, c); }
      ContinuesBelow(path, above, first, below);
      assert nodes == [first] + nodes[1..];
      assert Continues(path, above, nodes) <==> Continues(path, above, [first]) || Continues(path, above, nodes[1..]);
    }
  }

  // ---------------------------------------------------------------- what a search keeps

  /** The end of the path matches, at a level of the depth window; the root is only held against the first level. */
  predicate Matching(k: Query, path: Path) {
    path != [] && var level := |path| - 1;
    k.p(path[level]) && k.depth.lo <= level && (level == 0 || k.depth.hi.None? || level <= k.depth.hi.value)
  }

  /** A node before the end of the path, from position `from` on, matches: a shallow search does not go below it. */
  ghost predicate Hidden(k: Query, path: Path, from: nat) {
    exists i: nat :: from <= i < |path| - 1 && k.p(path[i]) && k.depth.lo <= i
  }

  /** The search keeps the path: it matches, and a shallow search meets no match before. */
  ghost function Keeps(k: Query, from: nat): Path -> bool {
    (path: Path) => Matching(k, path) && (k.deep || !Hidden(k, path, from))
  }

  ghost function Ends(paths: seq<Path>): seq<Node> {
    Map(paths, EndOf)
  }

  /** All nodes before the end, from position `from` on, are gone through. */
  ghost predicate Open(k: Query, path: Path, from: nat) {
    forall i: nat {:trigger path[i]} :: from <= i < |path| - 1 ==> Enters(k, i, path[i])
  }

  ghost function Reached(k: Query, from: nat): Path -> bool {
    (path: Path) => path != [] && Open(k, path, from) && Selected(k, |path| - 1, EndOf(path))
  }

  /** What is kept is what is reached. */
  lemma {:induction false} KeptIsReached(k: Query, path: Path, from: nat)
    requires from < |path| && (from == |path| - 1 ==> from == 0 || k.depth.hi.None? || from <= k.depth.hi.value)
    ensures Keeps(k, from)(path) <==> Reached(k, from)(path)
  {
    var last := |path| - 1;
    if Reached(k, from)(path) {
      if from < last { assert Enters(k, last - 1, path[last - 1]); }
      forall i: nat | from <= i < last ensures Enters(k, i, path[i]) {}
    }
    if Keeps(k, from)(path) {
      forall i: nat | from <= i < last ensures Enters(k, i, path[i]) { if !k.deep { assert !Hidden(k, path, from); } }
    }
  }

  // ---------------------------------------------------------------- filtering

  lemma {:induction false} FilterConcat<T>(s: seq<T>, t: seq<T>, p: T -> bool)
    ensures Filter(s + t, p) == Filter(s, p) + Filter(t, p)
    decreases |t|
  {
    if t == [] { assert s + t == s; }
    else {
      var front, last := t[..|t| - 1], t[|t| - 1];
      FilterConcat(s, front, p);
      assert s + t == (s + front) + [last];
      FilterAppend(s + front, last, p);
      FilterAppend(front, last, p);
      assert t == front + [last];
    }
  }

  lemma {:induction false} FilterCongruent<T>(s: seq<T>, p: T -> bool, q: T -> bool)
    requires forall x :: x in s ==> p(x) == q(x)
    ensures Filter(s, p) == Filter(s, q)
    decreases |s|
  {
    if s != [] { FilterCongruent(s[..|s| - 1], p, q); }
  }

  lemma {:induction false} FilterAll<T>(s: seq<T>, p: T -> bool)
    requires forall x :: x in s ==> p(x)
    ensures Filter(s, p) == s
    decreases |s|
  {
    if s != [] {
      var front, last := s[..|s| - 1], s[|s| - 1];
      FilterAll(front, p);
      assert last in s && s == front + [last];
      FilterAppend(front, last, p);
    }
  }

  lemma {:induction false} EndsConcat(a: seq<Path>, b: seq<Path>)
    ensures Ends(a + b) == Ends(a) + Ends(b)
  {
  }

  // ---------------------------------------------------------------- depth first

  lemma {:induction false} FoundFirst(nodes: seq<Node>, k: Query, level: int)
    requires nodes != []
    ensures Found(nodes, k, level) == FoundFrom(k)(Entry(level, nodes[0])) + Found(nodes[1..], k, level)
  {
    PendingEntries(nodes, level, k);
    PendingEntries(nodes[1..], level, k);
    FlatMapFirst(NodeWalk.Entries(nodes, level), FoundFrom(k));
    assert NodeWalk.Entries(nodes, level)[1..] == NodeWalk.Entries(nodes[1..], level);
  }

  lemma {:induction false} UnderIsSorted(node: Node, k: Query, level: int)
    ensures FoundUnder(node, k, level) == if Enters(k, level, node) then Found(k.sort(node.children), k, level + 1) else []
  {
  }

  /** The ends of the listed paths that are reached. */
  ghost function Listed(above: Path, nodes: seq<Node>, k: Query): seq<Node> {
    Ends(Filter(Preorder(above, nodes, k.sort), Reached(k, |above|)))
  }

  /** What is listed below a node is reached exactly when the search goes below it. */
  lemma {:induction false} BelowIsReached(above: Path, node: Node, k: Query)
    ensures var below := Preorder(above + [node], k.sort(node.children), k.sort);
            Filter(below, Reached(k, |above|)) == if Enters(k, |above|, node) then Filter(below, Reached(k, |above| + 1)) else []
  {
    var n, here, nodes := |above|, above + [node], k.sort(node.children);
    var below := Preorder(here, nodes, k.sort);
    forall path | path in below ensures Reached(k, n)(path) <==> Enters(k, n, node) && Reached(k, n + 1)(path) {
      PreorderIsComplete(here, nodes, k.sort, path);
      assert path[n] == path[..n + 1][n] == node;
      assert Open(k, path, n) <==> Enters(k, n, path[n]) && Open(k, path, n + 1);
    }
    if Enters(k, n, node) { FilterCongruent(below, Reached(k, n), Reached(k, n + 1)); } else { FilterNone(below, Reached(k, n)); }
  }

  ghost function ListedUnder(above: Path, node: Node, k: Query): seq<Node> {
    if Enters(k, |above|, node) then Listed(above + [node], k.sort(node.children), k) else []
  }

  lemma {:induction false} ReachedParts(above: Path, nodes: seq<Node>, k: Query)
    requires nodes != []
    ensures Listed(above, nodes, k)
            == (Itself(nodes[0], k, |above|) + ListedUnder(above, nodes[0], k)) + Listed(above, nodes[1..], k)
  {
    var keep, first := Reached(k, |above|), nodes[0];
    var here := above + [first];
    var below, after := Preorder(here, k.sort(first.children), k.sort), Preorder(above, nodes[1..], k.sort);
    assert Preorder(above, nodes, k.sort) == [here] + below + after;
    FilterConcat([here] + below, after, keep);
    FilterConcat([here], below, keep);
    EndsConcat(Filter([here], keep) + Filter(below, keep), Filter(after, keep));
    EndsConcat(Filter([here], keep), Filter(below, keep));
    BelowIsReached(above, first, k);
    OneIsReached(above, first, k);
  }

  /** The depth first search below nodes keeps what is reached, in preorder. */
  lemma {:induction false} FoundIsListed(above: Path, nodes: seq<Node>, k: Query)
    ensures Found(nodes, k, |above|) == Listed(above, nodes, k)
    decreases Sizes(nodes)
  {
    if nodes == [] {
      NothingListed(above, k);
    } else {
      ListingShrinks(nodes, k.sort);
      FoundIsListed(above, nodes[1..], k);
      FoundIsListed(above + [nodes[0]], k.sort(nodes[0].children), k);
      UnderIsListed(above, nodes[0], k);
      FoundFirst(nodes, k, |above|);
      ReachedParts(above, nodes, k);
      Assembled(nodes, k, |above|, Listed(above, nodes, k), ListedUnder(above, nodes[0], k), Listed(above, nodes[1..], k));
    }
  }

  lemma {:induction false} NothingListed(above: Path, k: Query)
    ensures Listed(above, [], k) == [] == Found([], k, |above|)
  {
  }

  lemma {:induction false} UnderIsListed(above: Path, node: Node, k: Query)
    requires Found(k.sort(node.children), k, |above + [node]|) == Listed(above + [node], k.sort(node.children), k)
    ensures FoundUnder(node, k, |above|) == ListedUnder(above, node, k)
  {
    UnderIsSorted(node, k, |above|);
  }

  lemma {:induction false} Assembled(nodes: seq<Node>, k: Query, level: int, all: seq<Node>, under: seq<Node>, after: seq<Node>)
    requires nodes != [] && under == FoundUnder(nodes[0], k, level) && after == Found(nodes[1..], k, level)
    requires all == (Itself(nodes[0], k, level) + under) + after
    requires Found(nodes, k, level) == FoundFrom(k)(Entry(level, nodes[0])) + Found(nodes[1..], k, level)
    ensures Found(nodes, k, level) == all
  {
  }

  lemma {:induction false} OneIsReached(above: Path, node: Node, k: Query)
    ensures Ends(Filter([above + [node]], Reached(k, |above|))) == Itself(node, k, |above|)
  {
    var here := above + [node];
    assert [here] == [] + [here];
    FilterAppend([], here, Reached(k, |above|));
    assert Open(k, here, |above|) && EndOf(here) == node;
  }

  /**
   The depth first search yields the root, if it matches and levels start at 0, then the ends of the paths below it that match
   at a level of the window, in preorder; a shallow search leaves out what is below a match, the root excepted.
   */
  lemma {:induction false} DfsIsListing(root: Node, k: Query)
    ensures Dfs(root, k) == (if k.depth.lo == 0 && k.p(root) then [root] else [])
                            + Ends(Filter(Preorder([root], k.sort(root.children), k.sort), Keeps(k, 1)))
  {
    var list := Preorder([root], k.sort(root.children), k.sort);
    forall path | path in list ensures |path| >= 2 { PreorderIsComplete([root], k.sort(root.children), k.sort, path); }
    if Below(k, 0) {
      forall path | path in list ensures Keeps(k, 1)(path) <==> Reached(k, 1)(path) { KeptIsReached(k, path, 1); }
      FilterCongruent(list, Keeps(k, 1), Reached(k, 1));
      FoundIsListed([root], k.sort(root.children), k);
    } else {
      forall path | path in list ensures !Keeps(k, 1)(path) {}
      FilterNone(list, Keeps(k, 1));
    }
  }

  // ---------------------------------------------------------------- breadth first

  ghost function Yields(k: Query): Entry -> seq<Node> {
    (e: Entry) => Itself(e.node, k, e.level)
  }

  ghost function Adds(k: Query): Entry -> seq<Entry> {
    (e: Entry) => Added(e, k)
  }

  /** The first entries of a queue yield what they do, and leave what they add. */
  lemma {:induction false} BfsRow(a: seq<Entry>, b: seq<Entry>, k: Query)
    ensures Bfs(a + b, k) == FlatMap(a, Yields(k)) + Bfs(b + FlatMap(a, Adds(k)), k)
    decreases |a|
  {
    if a == [] {
      assert a + b == b && b + FlatMap(a, Adds(k)) == b;
    } else {
      FlatMapFirst(a, Yields(k));
      FlatMapFirst(a, Adds(k));
      var rest, next := a[1..], b + Added(a[0], k);
      BfsRow(rest, next, k);
      FirstOfRow(a, b, k);
      Regrouped(b, Added(a[0], k), FlatMap(rest, Adds(k)));
      Regrouped(Itself(a[0].node, k, a[0].level), FlatMap(rest, Yields(k)), Bfs(next + FlatMap(rest, Adds(k)), k));
    }
  }

  lemma {:induction false} TailOfConcat<T>(a: seq<T>, b: seq<T>, x: seq<T>)
    requires a != []
    ensures (a + b)[0] == a[0] && (a + b)[1..] + x == a[1..] + (b + x)
  {
  }

  lemma {:induction false} FirstOfRow(a: seq<Entry>, b: seq<Entry>, k: Query)
    requires a != []
    ensures Bfs(a + b, k) == Itself(a[0].node, k, a[0].level) + Bfs(a[1..] + (b + Added(a[0], k)), k)
  {
    TailOfConcat(a, b, Added(a[0], k));
    BfsStep(a + b, k);
  }

  ghost function IsOpen(k: Query): Path -> bool {
    (path: Path) => path != [] && Open(k, path, 0)
  }

  ghost function ToEntry(path: Path): Entry {
    Entry(|path| - 1, EndOf(path))
  }

  /** The queue that holds the open paths of a row. */
  ghost function QueueOf(row: seq<Path>, k: Query): seq<Entry> {
    Map(Filter(row, IsOpen(k)), ToEntry)
  }

  ghost predicate NoneEmpty(row: seq<Path>) {
    forall i :: 0 <= i < |row| ==> row[i] != []
  }

  lemma {:induction false} QueueStep(row: seq<Path>, path: Path, k: Query)
    ensures QueueOf(row + [path], k) == QueueOf(row, k) + if IsOpen(k)(path) then [ToEntry(path)] else []
  {
    FilterAppend(row, path, IsOpen(k));
    if IsOpen(k)(path) { assert Map(Filter(row, IsOpen(k)) + [path], ToEntry) == QueueOf(row, k) + [ToEntry(path)]; }
  }

  lemma {:induction false} QueueMapStep<U>(row: seq<Path>, path: Path, k: Query, f: Entry -> seq<U>)
    ensures FlatMap(QueueOf(row + [path], k), f) == FlatMap(QueueOf(row, k), f) + if IsOpen(k)(path) then f(ToEntry(path)) else []
  {
    QueueStep(row, path, k);
    if IsOpen(k)(path) {
      FlatMapConcat(QueueOf(row, k), [ToEntry(path)], f);
      FlatMapOne(ToEntry(path), f);
    } else {
      assert QueueOf(row, k) + [] == QueueOf(row, k);
    }
  }

  lemma {:induction false} ReachedStep(row: seq<Path>, path: Path, k: Query)
    requires path != []
    ensures Ends(Filter(row + [path], Reached(k, 0)))
            == Ends(Filter(row, Reached(k, 0))) + if IsOpen(k)(path) then Yields(k)(ToEntry(path)) else []
  {
    FilterAppend(row, path, Reached(k, 0));
    EndsAppend(Filter(row, Reached(k, 0)), path);
    ReachedIsYielded(path, k);
  }

  lemma {:induction false} EndsAppend(a: seq<Path>, path: Path)
    ensures Ends(a + [path]) == Ends(a) + [EndOf(path)] && Ends(a + []) == Ends(a) + []
  {
    assert a + [] == a;
  }

  lemma {:induction false} ReachedIsYielded(path: Path, k: Query)
    requires path != []
    ensures (if Reached(k, 0)(path) then [EndOf(path)] else []) == if IsOpen(k)(path) then Yields(k)(ToEntry(path)) else []
  {
  }

  lemma {:induction false} RowYields(row: seq<Path>, k: Query)
    requires NoneEmpty(row)
    ensures FlatMap(QueueOf(row, k), Yields(k)) == Ends(Filter(row, Reached(k, 0)))
    decreases |row|
  {
    if row != [] {
      var front, path := row[..|row| - 1], row[|row| - 1];
      assert row == front + [path];
      RowYields(front, k);
      QueueMapStep(front, path, k, Yields(k));
      ReachedStep(front, path, k);
    }
  }

  lemma {:induction false} FlatMapOne<T, U>(x: T, f: T -> seq<U>)
    ensures FlatMap([x], f) == f(x)
  {
    assert [x][..0] == [];
    assert FlatMap([x], f) == [] + f(x);
  }

  lemma {:induction false} QueueAllOpen(row: seq<Path>, k: Query)
    ensures (forall x :: x in row ==> IsOpen(k)(x)) ==> QueueOf(row, k) == Map(row, ToEntry)
    ensures (forall x :: x in row ==> !IsOpen(k)(x)) ==> QueueOf(row, k) == []
  {
    if forall x :: x in row ==> IsOpen(k)(x) { FilterAll(row, IsOpen(k)); }
    if forall x :: x in row ==> !IsOpen(k)(x) { FilterNone(row, IsOpen(k)); }
  }

  lemma {:induction false} AddedInOrder(path: Path, k: Query)
    requires path != []
    ensures Added(ToEntry(path), k)
            == if Enters(k, |path| - 1, EndOf(path)) then NodeWalk.Entries(k.sort(EndOf(path).children), |path|) else []
  {
  }

  lemma {:induction false} PathExtends(path: Path, k: Query)
    requires path != []
    ensures QueueOf(Extensions(k.sort)(path), k) == if IsOpen(k)(path) then Added(ToEntry(path), k) else []
  {
    var nodes := k.sort(EndOf(path).children);
    LongerAreOpen(path, nodes, k);
    QueueAllOpen(Prolonged(path, nodes), k);
    EntriesProlonged(path, nodes);
    AddedInOrder(path, k);
  }

  lemma {:induction false} EntriesProlonged(path: Path, nodes: seq<Node>)
    ensures Map(Prolonged(path, nodes), ToEntry) == NodeWalk.Entries(nodes, |path|)
  {
  }

  lemma {:induction false} LongerAreOpen(path: Path, nodes: seq<Node>, k: Query)
    requires path != []
    ensures forall x :: x in Prolonged(path, nodes) ==> (IsOpen(k)(x) <==> IsOpen(k)(path) && Enters(k, |path| - 1, EndOf(path)))
  {
    forall i | 0 <= i < |nodes| ensures IsOpen(k)(path + [nodes[i]]) <==> IsOpen(k)(path) && Enters(k, |path| - 1, EndOf(path)) {
      OpenLonger(k, path, nodes[i]);
    }
  }

  lemma {:induction false} OpenLonger(k: Query, path: Path, c: Node)
    requires path != []
    ensures Open(k, path + [c], 0) <==> Open(k, path, 0) && Enters(k, |path| - 1, EndOf(path))
  {
    var x := path + [c];
    if Open(k, x, 0) {
      forall i: nat | i < |path| - 1 ensures Enters(k, i, path[i]) { assert x[i] == path[i]; }
      assert x[|path| - 1] == EndOf(path);
    }
  }

  lemma {:induction false} RowExtends(row: seq<Path>, k: Query)
    requires NoneEmpty(row)
    ensures FlatMap(QueueOf(row, k), Adds(k)) == QueueOf(FlatMap(row, Extensions(k.sort)), k)
    decreases |row|
  {
    if row != [] {
      var front, path := row[..|row| - 1], row[|row| - 1];
      assert row == front + [path];
      RowExtends(front, k);
      QueueMapStep(front, path, k, Adds(k));
      PathExtends(path, k);
      QueueConcat(FlatMap(front, Extensions(k.sort)), Extensions(k.sort)(path), k);
    }
  }

  lemma {:induction false} QueueConcat(a: seq<Path>, b: seq<Path>, k: Query)
    ensures QueueOf(a + b, k) == QueueOf(a, k) + QueueOf(b, k)
  {
    FilterConcat(a, b, IsOpen(k));
  }

  lemma {:induction false} NextRowNoneEmpty(row: seq<Path>, sort: Sort)
    ensures NoneEmpty(FlatMap(row, Extensions(sort)))
    decreases |row|
  {
    if row != [] {
      NextRowNoneEmpty(row[..|row| - 1], sort);
      var path := row[|row| - 1];
      var added := Prolonged(path, sort(EndOf(path).children));
      assert NoneEmpty(added);
      assert FlatMap(row, Extensions(sort)) == FlatMap(row[..|row| - 1], Extensions(sort)) + added;
    }
  }

  /** The breadth first search from a row keeps what is reached, level by level. */
  lemma {:induction false} BfsIsListed(row: seq<Path>, k: Query)
    requires NoneEmpty(row)
    ensures Bfs(QueueOf(row, k), k) == Ends(Filter(LevelOrder(row, k.sort), Reached(k, 0)))
    decreases Weight(row)
  {
    if row == [] {
      assert QueueOf(row, k) == [];
    } else {
      var queue, next := QueueOf(row, k), FlatMap(row, Extensions(k.sort));
      RowsShrink(row, k.sort);
      NextRowNoneEmpty(row, k.sort);
      BfsRow(queue, [], k);
      assert queue + [] == queue && [] + FlatMap(queue, Adds(k)) == FlatMap(queue, Adds(k));
      RowYields(row, k);
      RowExtends(row, k);
      BfsIsListed(next, k);
      FilterConcat(row, LevelOrder(next, k.sort), Reached(k, 0));
      EndsConcat(Filter(row, Reached(k, 0)), Filter(LevelOrder(next, k.sort), Reached(k, 0)));
    }
  }

  lemma {:induction false} LevelOrderNoneEmpty(row: seq<Path>, sort: Sort)
    requires NoneEmpty(row)
    ensures NoneEmpty(LevelOrder(row, sort))
    decreases Weight(row)
  {
    if row != [] {
      RowsShrink(row, sort);
      NextRowNoneEmpty(row, sort);
      LevelOrderNoneEmpty(FlatMap(row, Extensions(sort)), sort);
    }
  }

  /**
   The breadth first search yields the ends of the paths that match at a level of the window, level by level; a shallow search
   leaves out what is below a match.
   */
  lemma {:induction false} BfsIsListing(root: Node, k: Query)
    ensures Bfs([Entry(0, root)], k) == Ends(Filter(LevelOrder([[root]], k.sort), Keeps(k, 0)))
  {
    var list := LevelOrder([[root]], k.sort);
    RootQueue(root, k);
    BfsIsListed([[root]], k);
    LevelOrderNoneEmpty([[root]], k.sort);
    KeptInList(list, k);
  }

  lemma {:induction false} RootQueue(root: Node, k: Query)
    ensures QueueOf([[root]], k) == [Entry(0, root)]
  {
    QueueStep([], [root], k);
    assert [] + [[root]] == [[root]];
    assert Open(k, [root], 0);
    assert QueueOf([], k) == [];
  }

  lemma {:induction false} KeptInList(list: seq<Path>, k: Query)
    requires NoneEmpty(list)
    ensures Filter(list, Keeps(k, 0)) == Filter(list, Reached(k, 0))
  {
    forall path | path in list ensures Keeps(k, 0)(path) <==> Reached(k, 0)(path) { KeptIsReached(k, path, 0); }
    FilterCongruent(list, Keeps(k, 0), Reached(k, 0));
  }

  /** What a walker returns, cached or not: the listing of its search order, filtered. */
  lemma {:induction false} WalkIsListing(root: Node, search: Search, k: Query)
    ensures Walk(root, search, k)
            == match search
               case DepthFirst =>
                 (if k.depth.lo == 0 && k.p(root) then [root] else []) + Ends(Filter(Preorder([root], k.sort(root.children), k.sort), Keeps(k, 1)))
               case BreadthFirst => Ends(Filter(LevelOrder([[root]], k.sort), Keeps(k, 0)))
  {
    DfsIsListing(root, k);
    BfsIsListing(root, k);
  }

  // ---------------------------------------------------------------- deep searches find every match

  lemma {:induction false} FlatMapMembers<T, U>(s: seq<T>, f: T -> seq<U>, x: U)
    ensures x in FlatMap(s, f) <==> exists i :: 0 <= i < |s| && x in f(s[i])
    decreases |s|
  {
    if s != [] {
      var front := s[..|s| - 1];
      FlatMapMembers(front, f, x);
      if x in FlatMap(front, f) { var i :| 0 <= i < |front| && x in f(front[i]); assert x in f(s[i]); }
      if i :| 0 <= i < |s| && x in f(s[i]) { if i < |front| { assert x in f(front[i]); } }
    }
  }

  /** The path goes on from the end of `p`. */
  ghost predicate Prolongs(path: Path, p: Path) {
    p != [] && |p| <= |path| && path[..|p|] == p && Descends(path[|p| - 1..])
  }

  lemma {:induction false} ProlongsByOne(path: Path, p: Path)
    requires p != [] && |p| < |path|
    ensures Prolongs(path, p) <==> Prolongs(path, p + [path[|p|]]) && path[|p|] in EndOf(p).children
  {
    var n, q := |p|, p + [path[|p|]];
    var tail, rest := path[n - 1..], path[n..];
    if Prolongs(path, p) {
      assert path[..n + 1] == q;
      assert tail[1] in tail[0].children && tail[0] == path[..n][n - 1];
      forall i | 0 < i < |rest| ensures rest[i] in rest[i - 1].children { assert tail[i + 1] in tail[i].children; }
    }
    if Prolongs(path, q) && path[n] in EndOf(p).children {
      assert path[..n] == path[..n + 1][..n] == p;
      assert path[n - 1] == path[..n][n - 1];
      forall i | 0 < i < |tail| ensures tail[i] in tail[i - 1].children {
        if i > 1 { assert path[|q| - 1..] == rest; assert rest[i - 1] in rest[i - 2].children; }
      }
    }
  }

  ghost predicate FromRow(path: Path, row: seq<Path>) {
    exists i :: 0 <= i < |row| && Prolongs(path, row[i])
  }

  lemma {:induction false} NextRowGoesOn(row: seq<Path>, sort: Sort, path: Path)
    requires NoneEmpty(row)
    ensures FromRow(path, row) <==> path in row || FromRow(path, FlatMap(row, Extensions(sort)))
  {
    var next := FlatMap(row, Extensions(sort));
    if FromRow(path, row) && path !in row {
      var i :| 0 <= i < |row| && Prolongs(path, row[i]);
      GoesOn(row, sort, path, i);
    }
    if path in row { var i :| 0 <= i < |row| && row[i] == path; assert Prolongs(path, row[i]); }
    if j :| 0 <= j < |next| && Prolongs(path, next[j]) {
      FlatMapMembers(row, Extensions(sort), next[j]);
      var i :| 0 <= i < |row| && next[j] in Extensions(sort)(row[i]);
      ComesFrom(path, row[i], next[j], sort);
    }
  }

  lemma {:induction false} GoesOn(row: seq<Path>, sort: Sort, path: Path, i: nat)
    requires i < |row| && Prolongs(path, row[i]) && path != row[i]
    ensures FromRow(path, FlatMap(row, Extensions(sort)))
  {
    var p := row[i];
    assert path[..|path|] == path;
    ProlongsByOne(path, p);
    var c, nodes := path[|p|], sort(EndOf(p).children);
    SortKeepsMembers(sort, EndOf(p).children, c);
    var l :| 0 <= l < |nodes| && nodes[l] == c;
    assert Prolonged(p, nodes)[l] == p + [c];
    FlatMapMembers(row, Extensions(sort), p + [c]);
  }

  lemma {:induction false} ComesFrom(path: Path, p: Path, q: Path, sort: Sort)
    requires p != [] && q in Extensions(sort)(p) && Prolongs(path, q)
    ensures Prolongs(path, p)
  {
    var nodes := sort(EndOf(p).children);
    var l :| 0 <= l < |nodes| && q == p + [nodes[l]];
    SortKeepsMembers(sort, EndOf(p).children, nodes[l]);
    assert path[|p|] == path[..|q|][|p|] == nodes[l];
    ProlongsByOne(path, p);
  }

  /** The listing by levels has exactly the paths of the tree. */
  lemma {:induction false} LevelOrderIsComplete(row: seq<Path>, sort: Sort, path: Path)
    requires NoneEmpty(row)
    ensures path in LevelOrder(row, sort) <==> FromRow(path, row)
    decreases Weight(row)
  {
    if row != [] {
      RowsShrink(row, sort);
      NextRowNoneEmpty(row, sort);
      LevelOrderIsComplete(FlatMap(row, Extensions(sort)), sort, path);
      NextRowGoesOn(row, sort, path);
    }
  }

  /** A path of the tree that ends on `x` and matches. */
  ghost predicate LeadsTo(root: Node, k: Query, path: Path, x: Node) {
    path != [] && path[0] == root && Descends(path) && Matching(k, path) && EndOf(path) == x
  }

  lemma {:induction false} EndIsKept(list: seq<Path>, k: Query, from: nat, x: Node)
    requires k.deep
    ensures x in Ends(Filter(list, Keeps(k, from))) <==> exists path {:trigger Matching(k, path)} :: path in list && Matching(k, path) && EndOf(path) == x
  {
    var kept := Filter(list, Keeps(k, from));
    if x in Ends(kept) {
      var i :| 0 <= i < |kept| && Ends(kept)[i] == x;
      FilterMembers(list, Keeps(k, from), kept[i]);
      assert Matching(k, kept[i]);
    }
    if path :| path in list && Matching(k, path) && EndOf(path) == x {
      FilterMembers(list, Keeps(k, from), path);
      var i :| 0 <= i < |kept| && kept[i] == path;
      assert Ends(kept)[i] == x;
    }
  }

  /** A deep breadth first search finds exactly the nodes of the tree that match at a level of the window. */
  lemma {:induction false} DeepBfsFindsAll(root: Node, k: Query, x: Node)
    requires k.deep
    ensures x in Bfs([Entry(0, root)], k) <==> exists path :: LeadsTo(root, k, path, x)
  {
    var list := LevelOrder([[root]], k.sort);
    BfsIsListing(root, k);
    EndIsKept(list, k, 0, x);
    forall path ensures path in list <==> path != [] && path[0] == root && Descends(path) { PathOfRoot(root, k.sort, path); }
    if path :| path in list && Matching(k, path) && EndOf(path) == x { assert LeadsTo(root, k, path, x); }
    if path :| LeadsTo(root, k, path, x) { assert path in list && Matching(k, path); }
  }

  lemma {:induction false} PathOfRoot(root: Node, sort: Sort, path: Path)
    ensures path in LevelOrder([[root]], sort) <==> path != [] && path[0] == root && Descends(path)
  {
    LevelOrderIsComplete([[root]], sort, path);
    if path != [] {
      assert path[0..] == path && path[..1] == [path[0]];
      assert Prolongs(path, [root]) <==> path[0] == root && Descends(path);
    }
    if FromRow(path, [[root]]) { assert Prolongs(path, [root]); }
    if Prolongs(path, [root]) { assert Prolongs(path, [[root]][0]); }
  }

  /** A deep depth first search finds the root, if it matches and levels start at 0, and below it exactly what matches in the window. */
  lemma {:induction false} DeepDfsFindsAll(root: Node, k: Query, x: Node)
    requires k.deep
    ensures x in Dfs(root, k) <==> (k.depth.lo == 0 && k.p(root) && x == root) || exists path :: |path| > 1 && LeadsTo(root, k, path, x)
  {
    var nodes := k.sort(root.children);
    var list := Preorder([root], nodes, k.sort);
    DfsIsListing(root, k);
    EndIsKept(list, k, 1, x);
    forall path ensures path in list <==> |path| > 1 && path[0] == root && Descends(path) { PathBelowRoot(root, k.sort, path); }
    if path :| path in list && Matching(k, path) && EndOf(path) == x { assert |path| > 1 && LeadsTo(root, k, path, x); }
    if path :| |path| > 1 && LeadsTo(root, k, path, x) { assert path in list && Matching(k, path); }
  }

  lemma {:induction false} PathBelowRoot(root: Node, sort: Sort, path: Path)
    ensures path in Preorder([root], sort(root.children), sort) <==> |path| > 1 && path[0] == root && Descends(path)
  {
    var nodes := sort(root.children);
    PreorderIsComplete([root], nodes, sort, path);
    forall c ensures c in nodes <==> c in root.children { SortKeepsMembers(sort, root.children, c); }
    ContinuesBelow(path, [], root, nodes);
    assert [] + [root] == [root];
    if path != [] { assert path[0..] == path && path[..0] == []; }
  }
}

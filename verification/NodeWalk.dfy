/**
 Searching nodes in a tree (maia/pytree/walk/_node_parsers.py, maia/pytree/walk/nodes_walker.py).
 */
module NodeWalk {
  import opened Basics
  import opened Counting

  datatype Node = Node(name: string, lab: string, children: seq<Node>)

  type Predicate = Node -> bool

  ghost predicate SortsAt(f: seq<Node> -> seq<Node>, c: seq<Node>) {
    multiset(f(c)) == multiset(c)
  }

  ghost predicate IsSort(f: seq<Node> -> seq<Node>) {
    forall c {:trigger SortsAt(f, c)} :: SortsAt(f, c)
  }

  /** A reordering of children. */
  type Sort = f: seq<Node> -> seq<Node> | IsSort(f) ghost witness (c: seq<Node>) => c

  /** First and last level of interest; no last level when there is no limit. */
  datatype Depth = Depth(lo: int, hi: Option<int>)

  /** What is searched: selected nodes, levels, order of children, and whether to go on below a selected node. */
  datatype Query = Query(p: Predicate, depth: Depth, sort: Sort, deep: bool)

  predicate Below(k: Query, level: int) { k.depth.hi.None? || level < k.depth.hi.value }

  predicate Selected(k: Query, level: int, node: Node) { level >= k.depth.lo && k.p(node) }

  /** The search goes below the node. */
  predicate Enters(k: Query, level: int, node: Node) { Below(k, level) && (k.deep || !Selected(k, level, node)) }

  // ---------------------------------------------------------------- sizes

  function Size(n: Node): nat
    decreases n
  {
    1 + Sizes(n.children)
  }

  function Sizes(s: seq<Node>): nat
    decreases s
  {
    if s == [] then 0 else Sizes(s[..|s| - 1]) + Size(s[|s| - 1])
  }

  lemma {:induction false} SizesConcat(s: seq<Node>, t: seq<Node>)
    ensures Sizes(s + t) == Sizes(s) + Sizes(t)
    decreases |t|
  {
    if t == [] { assert s + t == s; }
    else {
      SizesConcat(s, t[..|t| - 1]);
      assert (s + t)[..|s + t| - 1] == s + t[..|t| - 1];
    }
  }

  lemma {:induction false} SizesOne(n: Node)
    ensures Sizes([n]) == Size(n)
  {
    assert [n][..0] == [];
  }

  lemma {:induction false} SizesWithout(s: seq<Node>, i: nat)
    requires i < |s|
    ensures Sizes(s) == Sizes(s[..i] + s[i + 1..]) + Size(s[i])
  {
    assert s == s[..i] + ([s[i]] + s[i + 1..]);
    SizesConcat(s[..i], [s[i]] + s[i + 1..]);
    SizesConcat([s[i]], s[i + 1..]);
    SizesConcat(s[..i], s[i + 1..]);
    SizesOne(s[i]);
  }

  lemma {:induction false} SizesReordered(s: seq<Node>, t: seq<Node>)
    requires multiset(s) == multiset(t)
    ensures Sizes(s) == Sizes(t)
    decreases |s|
  {
    if s == [] {
      assert |multiset(t)| == 0;
    } else {
      var x := s[|s| - 1];
      assert x in multiset(t);
      var i :| 0 <= i < |t| && t[i] == x;
      MultisetWithout(t, i);
      MultisetWithout(s, |s| - 1);
      assert s[..|s| - 1] + s[|s| - 1 + 1..] == s[..|s| - 1];
      SizesReordered(s[..|s| - 1], t[..i] + t[i + 1..]);
      SizesWithout(t, i);
    }
  }

  /** The children in the order of the search. */
  function Sorted(n: Node, k: Query): (s: seq<Node>)
    ensures Sizes(s) < Size(n)
  {
    assert SortsAt(k.sort, n.children);
    SizesReordered(k.sort(n.children), n.children);
    k.sort(n.children)
  }

  // ---------------------------------------------------------------- depth first

  /** What is found below, depth first: a selected node, then what is below it if the search goes there. */
  function Found(nodes: seq<Node>, k: Query, level: int): seq<Node>
    decreases Sizes(nodes), |nodes|
  {
    if nodes == [] then []
    else
      var child := nodes[|nodes| - 1];
      Found(nodes[..|nodes| - 1], k, level) + (Itself(child, k, level) + if Enters(k, level, child) then Found(Sorted(child, k), k, level + 1) else [])
  }

  function Itself(node: Node, k: Query, level: int): seq<Node> {
    if Selected(k, level, node) then [node] else []
  }

  /** What is found strictly below a node. */
  function FoundUnder(node: Node, k: Query, level: int): seq<Node> {
    if Enters(k, level, node) then Found(Sorted(node, k), k, level + 1) else []
  }

  /** Depth first search: the root is tested when levels start at 0, and is always gone through. */
  function Dfs(root: Node, k: Query): seq<Node> {
    (if k.depth.lo == 0 && k.p(root) then [root] else []) + if Below(k, 0) then Found(Sorted(root, k), k, 1) else []
  }

  lemma {:induction false} FoundOne(node: Node, k: Query, level: int)
    ensures Found([node], k, level) == Itself(node, k, level) + FoundUnder(node, k, level)
  {
    assert [node][..0] == [];
    assert Found([], k, level) == [];
  }

  ghost function FoundFrom(k: Query): Entry -> seq<Node> {
    (e: Entry) => Itself(e.node, k, e.level) + FoundUnder(e.node, k, e.level)
  }

  lemma {:induction false} FoundLast(nodes: seq<Node>, level: int, k: Query)
    requires nodes != []
    ensures Found(nodes, k, level) == Found(nodes[..|nodes| - 1], k, level) + FoundFrom(k)(Entry(level, nodes[|nodes| - 1]))
  {
  }

  ghost predicate NoWindow(k: Query) { k.depth == Depth(0, None) }

  /** Without a depth window the level plays no role: the searches without levels are a special case. */
  lemma {:induction false} LevelIsIdle(nodes: seq<Node>, k: Query, level: nat, other: nat)
    requires NoWindow(k)
    ensures Found(nodes, k, level) == Found(nodes, k, other)
    decreases Sizes(nodes), |nodes|
  {
    if nodes != [] {
      var child := nodes[|nodes| - 1];
      FoundLast(nodes, level, k);
      FoundLast(nodes, other, k);
      LevelIsIdle(nodes[..|nodes| - 1], k, level, other);
      if Enters(k, level, child) { LevelIsIdle(Sorted(child, k), k, level + 1, other + 1); }
    }
  }

  /** Only nodes that are not larger are found. */
  lemma {:induction false} FoundIsSmaller(nodes: seq<Node>, k: Query, level: int, x: Node)
    requires x in Found(nodes, k, level)
    ensures Size(x) <= Sizes(nodes)
    decreases Sizes(nodes), |nodes|
  {
    var front, child := nodes[..|nodes| - 1], nodes[|nodes| - 1];
    if x in Found(front, k, level) { FoundIsSmaller(front, k, level, x); }
    else if x !in Itself(child, k, level) { FoundIsSmaller(Sorted(child, k), k, level + 1, x); }
  }

  // ---------------------------------------------------------------- breadth first

  datatype Entry = Entry(level: int, node: Node)

  function Entries(nodes: seq<Node>, level: int): (r: seq<Entry>)
    ensures |r| == |nodes| && forall i :: 0 <= i < |r| ==> r[i] == Entry(level, nodes[i])
  {
    seq(|nodes|, i requires 0 <= i < |nodes| => Entry(level, nodes[i]))
  }

  /** Number of nodes that a queue holds, with what is below them. */
  function Load(q: seq<Entry>): nat {
    if q == [] then 0 else Load(q[..|q| - 1]) + Size(q[|q| - 1].node)
  }

  lemma {:induction false} LoadConcat(q: seq<Entry>, r: seq<Entry>)
    ensures Load(q + r) == Load(q) + Load(r)
    decreases |r|
  {
    if r == [] { assert q + r == q; }
    else {
      LoadConcat(q, r[..|r| - 1]);
      assert (q + r)[..|q + r| - 1] == q + r[..|r| - 1];
    }
  }

  lemma {:induction false} LoadEntries(nodes: seq<Node>, level: int)
    ensures Load(Entries(nodes, level)) == Sizes(nodes)
    decreases |nodes|
  {
    if nodes != [] {
      assert Entries(nodes, level)[..|nodes| - 1] == Entries(nodes[..|nodes| - 1], level);
      LoadEntries(nodes[..|nodes| - 1], level);
    }
  }

  lemma {:induction false} LoadFirst(q: seq<Entry>)
    requires q != []
    ensures Load(q) == Size(q[0].node) + Load(q[1..])
  {
    assert q == [q[0]] + q[1..];
    LoadConcat([q[0]], q[1..]);
    assert [q[0]][..0] == [];
  }

  /** What the first entry of a queue adds to its end. */
  function Added(e: Entry, k: Query): seq<Entry> {
    if Enters(k, e.level, e.node) then Entries(Sorted(e.node, k), e.level + 1) else []
  }

  lemma {:induction false} QueueShrinks(q: seq<Entry>, k: Query)
    requires q != []
    ensures Load(q[1..] + Added(q[0], k)) < Load(q)
  {
    LoadFirst(q);
    LoadConcat(q[1..], Added(q[0], k));
    if Enters(k, q[0].level, q[0].node) { LoadEntries(Sorted(q[0].node, k), q[0].level + 1); }
  }

  /** What a breadth first search yields from a queue. */
  function Bfs(q: seq<Entry>, k: Query): seq<Node>
    decreases Load(q)
  {
    if q == [] then []
    else
      QueueShrinks(q, k);
      Itself(q[0].node, k, q[0].level) + Bfs(q[1..] + Added(q[0], k), k)
  }

  lemma {:induction false} BfsStep(q: seq<Entry>, k: Query)
    requires q != []
    ensures Bfs(q, k) == Itself(q[0].node, k, q[0].level) + Bfs(q[1..] + Added(q[0], k), k)
    ensures Load(q[1..] + Added(q[0], k)) < Load(q)
  {
    QueueShrinks(q, k);
  }

  /** One turn of the loop, with what was found before. */
  lemma {:induction false} BfsTurn(out: seq<Node>, q: seq<Entry>, k: Query)
    requires q != []
    ensures (out + Itself(q[0].node, k, q[0].level)) + Bfs(q[1..] + Added(q[0], k), k) == out + Bfs(q, k)
    ensures Load(q[1..] + Added(q[0], k)) < Load(q)
  {
    BfsStep(q, k);
  }

  /** Take the first entry of the queue: what it yields, and the queue that is left. */
  method Turn(q: seq<Entry>, k: Query) returns (found: seq<Node>, next: seq<Entry>)
    requires q != []
    ensures found == Itself(q[0].node, k, q[0].level) && next == q[1..] + Added(q[0], k)
  {
    var e := q[0];
    found, next := [], q[1..];
    var selected := e.level >= k.depth.lo && k.p(e.node);
    if selected { found := [e.node]; }
    if Below(k, e.level) && (k.deep || !selected) { next := next + Entries(Sorted(e.node, k), e.level + 1); }
  }

  /** Search with a queue. */
  method SearchBfs(root: Node, k: Query) returns (out: seq<Node>)
    ensures out == Bfs([Entry(0, root)], k)
  {
    var queue := [Entry(0, root)];
    out := [];
    ghost var all := Bfs(queue, k);
    while queue != []
      invariant out + Bfs(queue, k) == all
      decreases Load(queue)
    {
      BfsTurn(out, queue, k);
      var found, next := Turn(queue, k);
      out, queue := out + found, next;
    }
  }

  // ---------------------------------------------------------------- both orders

  /** What is found from the entries of a queue, each on its own. */
  ghost function Pending(q: seq<Entry>, k: Query): seq<Node> {
    FlatMap(q, FoundFrom(k))
  }

  lemma {:induction false} PendingLast(nodes: seq<Node>, level: int, k: Query)
    requires nodes != []
    ensures Pending(Entries(nodes, level), k)
            == Pending(Entries(nodes[..|nodes| - 1], level), k) + FoundFrom(k)(Entry(level, nodes[|nodes| - 1]))
  {
    assert Entries(nodes, level)[..|nodes| - 1] == Entries(nodes[..|nodes| - 1], level);
  }

  lemma {:induction false} PendingEntries(nodes: seq<Node>, level: int, k: Query)
    ensures Pending(Entries(nodes, level), k) == Found(nodes, k, level)
    decreases |nodes|
  {
    if nodes != [] {
      PendingLast(nodes, level, k);
      FoundLast(nodes, level, k);
      PendingEntries(nodes[..|nodes| - 1], level, k);
    }
  }

  lemma {:induction false} PendingAdded(e: Entry, k: Query)
    ensures Pending(Added(e, k), k) == FoundUnder(e.node, k, e.level)
  {
    if Enters(k, e.level, e.node) { PendingEntries(Sorted(e.node, k), e.level + 1, k); }
  }

  /** Breadth first search yields what is found from each entry of its queue, in another order. */
  lemma {:induction false} BfsFindsPending(q: seq<Entry>, k: Query, x: Node)
    ensures Count(Bfs(q, k), Is(x)) == Count(Pending(q, k), Is(x))
    decreases Load(q)
  {
    if q != [] {
      var e, next := q[0], q[1..] + Added(q[0], k);
      BfsStep(q, k);
      BfsFindsPending(next, k, x);
      CountConcat(Itself(e.node, k, e.level), Bfs(next, k), Is(x));
      PendingCounts(q, k, x);
    }
  }

  lemma {:induction false} PendingCounts(q: seq<Entry>, k: Query, x: Node)
    requires q != []
    ensures Count(Pending(q, k), Is(x)) == Count(Itself(q[0].node, k, q[0].level), Is(x)) + Count(Pending(q[1..] + Added(q[0], k), k), Is(x))
  {
    var e, rest := q[0], q[1..];
    FlatMapFirst(q, FoundFrom(k));
    FlatMapConcat(rest, Added(e, k), FoundFrom(k));
    PendingAdded(e, k);
    CountConcat(FoundFrom(k)(e), Pending(rest, k), Is(x));
    CountConcat(Itself(e.node, k, e.level), FoundUnder(e.node, k, e.level), Is(x));
    CountConcat(Pending(rest, k), FoundUnder(e.node, k, e.level), Is(x));
  }

  ghost predicate SameNodes(a: seq<Node>, b: seq<Node>) {
    multiset(a) == multiset(b)
  }

  /** Breadth first search from the root, up to the order. */
  lemma {:induction false} BfsFromRoot(root: Node, k: Query)
    ensures SameNodes(Bfs([Entry(0, root)], k), Itself(root, k, 0) + FoundUnder(root, k, 0))
  {
    var q, all := [Entry(0, root)], Itself(root, k, 0) + FoundUnder(root, k, 0);
    FlatMapFirst(q, FoundFrom(k));
    assert all + [] == all;
    forall x ensures Count(Bfs(q, k), Is(x)) == Count(all, Is(x)) { BfsFindsPending(q, k, x); }
    SameCountsSameMultiset(Bfs(q, k), all);
  }

  lemma {:induction false} ExtraNode(x: Node, s: seq<Node>, t: seq<Node>)
    requires SameNodes(t, [x] + s)
    ensures !SameNodes(s, t)
  {
    assert |multiset([x] + s)| == 1 + |s|;
    assert |multiset(s)| == |s|;
  }

  /** Deep searches in both orders find the same nodes, unless the first level is negative and the root is of interest. */
  lemma {:induction false} DeepOrdersAgree(root: Node, k: Query)
    requires k.deep
    ensures SameNodes(Dfs(root, k), Bfs([Entry(0, root)], k)) <==> (k.depth.lo >= 0 || !k.p(root))
  {
    BfsFromRoot(root, k);
    var below := FoundUnder(root, k, 0);
    if k.depth.lo < 0 && k.p(root) {
      assert Dfs(root, k) == [] + below == below;
      ExtraNode(root, below, Bfs([Entry(0, root)], k));
    }
  }

  /** With a negative first level, the root that is of interest is found by one search only. */
  lemma {:induction false} NegativeLevelSplitsOrders()
    ensures var root := Node("Base", "CGNSBase_t", []);
            var k := Query((n: Node) => true, Depth(-1, None), (c: seq<Node>) => c, true);
            Dfs(root, k) == [] && Bfs([Entry(0, root)], k) == [root]
  {
    var root := Node("Base", "CGNSBase_t", []);
    var k := Query((n: Node) => true, Depth(-1, None), (c: seq<Node>) => c, true);
    BfsStep([Entry(0, root)], k);
    assert Added(Entry(0, root), k) == [];
    assert [Entry(0, root)][1..] + Added(Entry(0, root), k) == [];
  }

  /** What is found strictly below the root, if levels allow, whether the root is selected or not. */
  function BelowRoot(root: Node, k: Query): seq<Node> {
    if Below(k, 0) then Found(Sorted(root, k), k, 1) else []
  }

  lemma {:induction false} RootNotBelow(root: Node, k: Query)
    ensures root !in BelowRoot(root, k)
  {
    if root in BelowRoot(root, k) { FoundIsSmaller(Sorted(root, k), k, 1, root); }
  }

  predicate InWindow(d: Depth, level: int) { d.lo <= level && (d.hi.None? || level <= d.hi.value) }

  /** No node strictly below `n`, itself at the given level, is of interest at a level of the window. */
  ghost predicate NoMatchBelow(n: Node, k: Query, level: int)
    decreases n, 0
  {
    forall c :: c in n.children ==> NoMatchFrom(c, k, level + 1)
  }

  ghost predicate NoMatchFrom(n: Node, k: Query, level: int)
    decreases n, 1
  {
    !(InWindow(k.depth, level) && k.p(n)) && NoMatchBelow(n, k, level)
  }

  lemma {:induction false} BeyondWindow(n: Node, k: Query, level: int)
    requires !Below(k, level)
    ensures NoMatchBelow(n, k, level)
    decreases n
  {
    forall c | c in n.children ensures NoMatchFrom(c, k, level + 1) { BeyondWindow(c, k, level + 1); }
  }

  /** Nothing is found exactly when nothing at a level of the window is of interest. */
  lemma {:induction false} FoundNothing(nodes: seq<Node>, k: Query, level: int)
    requires k.depth.hi.None? || level <= k.depth.hi.value
    ensures Found(nodes, k, level) == [] <==> forall c :: c in nodes ==> NoMatchFrom(c, k, level)
    decreases Sizes(nodes), |nodes|, 1
  {
    if nodes != [] {
      var front, child := nodes[..|nodes| - 1], nodes[|nodes| - 1];
      FoundLast(nodes, level, k);
      FoundNothing(front, k, level);
      FoundNothingFrom(nodes, child, k, level);
      assert forall c :: c in nodes <==> c in front || c == child;
    }
  }

  lemma {:induction false} FoundNothingFrom(nodes: seq<Node>, child: Node, k: Query, level: int)
    requires k.depth.hi.None? || level <= k.depth.hi.value
    requires nodes != [] && child == nodes[|nodes| - 1]
    ensures FoundFrom(k)(Entry(level, child)) == [] <==> NoMatchFrom(child, k, level)
    decreases Sizes(nodes), |nodes|, 0
  {
    if Selected(k, level, child) {
    } else if Below(k, level) {
      FoundNothing(Sorted(child, k), k, level + 1);
      SortedMembers(child, k);
    } else {
      BeyondWindow(child, k, level);
    }
  }

  lemma {:induction false} SortedMembers(n: Node, k: Query)
    ensures forall c :: c in Sorted(n, k) <==> c in n.children
  {
    assert SortsAt(k.sort, n.children);
    forall c ensures c in Sorted(n, k) <==> c in n.children {
      assert c in Sorted(n, k) <==> c in multiset(Sorted(n, k));
      assert c in n.children <==> c in multiset(n.children);
    }
  }

  lemma {:induction false} NothingBelowRoot(root: Node, k: Query)
    ensures BelowRoot(root, k) == [] <==> NoMatchBelow(root, k, 0)
  {
    if Below(k, 0) {
      FoundNothing(Sorted(root, k), k, 1);
      SortedMembers(root, k);
    } else {
      BeyondWindow(root, k, 0);
    }
  }

  /**
   Shallow searches in both orders find the same nodes exactly when the root is not of interest, or it is out of the window,
   or it is selected and no node of the window below it is of interest.  The depth first search goes on below a selected root, the other does not.
   */
  lemma {:induction false} ShallowOrdersAgree(root: Node, k: Query)
    requires !k.deep
    ensures SameNodes(Dfs(root, k), Bfs([Entry(0, root)], k))
            <==> (!k.p(root) || k.depth.lo > 0 || (k.depth.lo == 0 && NoMatchBelow(root, k, 0)))
  {
    var dfs, bfs, below := Dfs(root, k), Bfs([Entry(0, root)], k), BelowRoot(root, k);
    BfsFromRoot(root, k);
    NothingBelowRoot(root, k);
    if k.p(root) && k.depth.lo <= 0 {
      assert FoundUnder(root, k, 0) == [] && [root] + [] == [root];
      assert SameNodes(bfs, [root]);
      if k.depth.lo == 0 { OneMore(root, below); } else { RootNotBelow(root, k); OneApart(root, below); assert [] + below == below; }
    } else {
      assert FoundUnder(root, k, 0) == below;
    }
  }

  /** A selected root with a child of interest: the depth first search finds both, the other only the root. */
  lemma {:induction false} SelectedRootSplitsOrders()
    ensures var child := Node("Zone", "Zone_t", []);
            var root := Node("Base", "CGNSBase_t", [child]);
            var k := Query((n: Node) => true, Depth(0, None), (c: seq<Node>) => c, false);
            Dfs(root, k) == [root, child] && Bfs([Entry(0, root)], k) == [root]
  {
    var child := Node("Zone", "Zone_t", []);
    var root := Node("Base", "CGNSBase_t", [child]);
    var k := Query((n: Node) => true, Depth(0, None), (c: seq<Node>) => c, false);
    assert Sorted(root, k) == [child];
    FoundOne(child, k, 1);
    BfsStep([Entry(0, root)], k);
    assert [Entry(0, root)][1..] + Added(Entry(0, root), k) == [];
  }

  lemma {:induction false} OneMore(x: Node, s: seq<Node>)
    ensures SameNodes([x] + s, [x]) <==> s == []
  {
    assert |multiset([x] + s)| == 1 + |s| && |multiset([x])| == 1;
    if s == [] { assert [x] + s == [x]; }
  }

  lemma {:induction false} OneApart(x: Node, s: seq<Node>)
    requires x !in s
    ensures !SameNodes(s, [x])
  {
    assert x in multiset([x]) && x !in multiset(s);
  }

  // ---------------------------------------------------------------- the first node

  function Head(s: seq<Node>): Option<Node> { if s == [] then None else Some(s[0]) }

  function OrElse(a: Option<Node>, b: Option<Node>): Option<Node> { if a.Some? then a else b }

  /** The first selected node below, searched without collecting the others. */
  function ParseList(nodes: seq<Node>, k: Query, level: int): Option<Node>
    decreases Sizes(nodes), |nodes|
  {
    if nodes == [] then None
    else
      var child := nodes[|nodes| - 1];
      OrElse(ParseList(nodes[..|nodes| - 1], k, level),
             if Selected(k, level, child) then Some(child) else if Below(k, level) then ParseList(Sorted(child, k), k, level + 1) else None)
  }

  function ParseDfs(root: Node, k: Query): Option<Node> {
    if k.depth.lo == 0 && k.p(root) then Some(root) else if Below(k, 0) then ParseList(Sorted(root, k), k, 1) else None
  }

  lemma {:induction false} HeadConcat(s: seq<Node>, t: seq<Node>)
    ensures Head(s + t) == OrElse(Head(s), Head(t))
  {
    if s == [] { assert s + t == t; }
  }

  lemma {:induction false} ParseListIsHead(nodes: seq<Node>, k: Query, level: int)
    ensures ParseList(nodes, k, level) == Head(Found(nodes, k, level))
    decreases Sizes(nodes), |nodes|
  {
    if nodes != [] {
      var front, child := nodes[..|nodes| - 1], nodes[|nodes| - 1];
      ParseListIsHead(front, k, level);
      ParseListIsHead(Sorted(child, k), k, level + 1);
      HeadConcat(Found(front, k, level), Itself(child, k, level) + FoundUnder(child, k, level));
      HeadConcat(Itself(child, k, level), FoundUnder(child, k, level));
    }
  }

  /** The single-node search returns the first node of the depth first iteration, deep or shallow. */
  lemma {:induction false} ParseIsHead(root: Node, k: Query)
    ensures ParseDfs(root, k) == Head(Dfs(root, k))
  {
    ParseListIsHead(Sorted(root, k), k, 1);
    HeadConcat(if k.depth.lo == 0 && k.p(root) then [root] else [], BelowRoot(root, k));
  }

  /** The single-node search with a queue returns the first node of the breadth first iteration, deep or shallow. */
  method ParseBfs(root: Node, k: Query) returns (found: Option<Node>)
    ensures found == Head(Bfs([Entry(0, root)], k))
  {
    var queue := [Entry(0, root)];
    ghost var all := Bfs(queue, k);
    while queue != []
      invariant Bfs(queue, k) == all
      decreases Load(queue)
    {
      BfsTurn([], queue, k);
      var selected, next := Turn(queue, k);
      if selected != [] { return Some(selected[0]); }
      queue := next;
      assert [] + Bfs(queue, k) == Bfs(queue, k);
    }
    return None;
  }

  // ---------------------------------------------------------------- the walker

  datatype Search = DepthFirst | BreadthFirst

  /** What an uncached walker yields. */
  function Walk(root: Node, search: Search, k: Query): seq<Node> {
    if search.DepthFirst? then Dfs(root, k) else Bfs([Entry(0, root)], k)
  }

  /** Values given as depth: nothing, a last level, a list of levels (`None` for no level), or something else. */
  datatype DepthArg = Unlimited | UpTo(last: int) | Levels(levels: seq<Option<int>>) | Unknown

  predicate AllLevels(v: seq<Option<int>>) { forall i :: 0 <= i < |v| ==> v[i].Some? }

  predicate AnyNegative(v: seq<Option<int>>) { exists i :: 0 <= i < |v| && v[i].Some? && v[i].value < 0 }

  /**
   A last level must not be negative.  A list needs a first level; a list of two is then accepted whatever its values,
   and a longer one, of which the first two levels are used, when they are no proper window.
   */
  predicate Accepted(value: DepthArg) {
    match value
    case Unlimited => true
    case UpTo(last) => last >= 0
    case Levels(v) =>
      && |v| >= 2 && v[0].Some?
      && (|v| == 2 || (if v[1].None? then v[0].value < 0 else v[0].value > v[1].value || (AllLevels(v) && AnyNegative(v))))
    case Unknown => false
  }

  function WindowOf(value: DepthArg): Depth
    requires Accepted(value)
  {
    match value
    case Unlimited => Depth(0, None)
    case UpTo(last) => Depth(0, Some(last))
    case Levels(v) => Depth(v[0].value, v[1])
  }

  /** Two levels are always accepted, whatever they are; other lists that begin with a proper window are refused. */
  lemma {:induction false} DepthRules(v: seq<Option<int>>, lo: int, hi: Option<int>)
    requires |v| >= 2 && v[0] == Some(lo) && v[1] == hi
    ensures |v| == 2 ==> Accepted(Levels(v)) && WindowOf(Levels(v)) == Depth(lo, hi)
    ensures |v| > 2 && 0 <= lo && hi.None? ==> !Accepted(Levels(v))
    ensures |v| > 2 && (forall i :: 0 <= i < |v| ==> v[i].Some? && 0 <= v[i].value) && lo <= v[1].value ==> !Accepted(Levels(v))
    ensures !Accepted(Levels([])) && !Accepted(Levels([v[0]])) && !Accepted(Levels([None, hi]))
    ensures Accepted(UpTo(lo)) <==> 0 <= lo
  {
  }

  class NodesWalker {
    var root: Node
    var p: Predicate
    var search: Search
    var deep: bool
    var depth: Depth
    var sort: Sort
    var caching: bool
    var cache: seq<Node>

    /** What the walker yields without a cache. */
    ghost function Result(): seq<Node>
      reads this
    {
      Walk(root, search, Query(p, depth, sort, deep))
    }

    /** The cache is empty or holds what the walker yields. */
    ghost predicate Valid()
      reads this
    {
      cache == [] || cache == Result()
    }

    constructor (root: Node, p: Predicate, search: Search, deep: bool, depth: Depth, sort: Sort, caching: bool)
      ensures Valid() && cache == [] && this.caching == caching
      ensures Result() == Walk(root, search, Query(p, depth, sort, deep))
    {
      this.root, this.p, this.search, this.deep, this.depth, this.sort, this.caching, this.cache :=
        root, p, search, deep, depth, sort, caching, [];
    }

    method SetRoot(value: Node)
      requires Valid()
      modifies this`root, this`cache
      ensures Valid() && root == value
    {
      root, cache := value, [];
    }

    method SetPredicate(value: Predicate)
      requires Valid()
      modifies this`p, this`cache
      ensures Valid() && p == value
    {
      p, cache := value, [];
    }

    /** Accepts "dfs" and "bfs"; any other value is refused and changes nothing. */
    method SetSearch(value: string) returns (ok: bool)
      requires Valid()
      modifies this`search, this`cache
      ensures Valid() && (ok <==> value == "dfs" || value == "bfs")
      ensures search == if value == "dfs" then DepthFirst else if value == "bfs" then BreadthFirst else old(search)
      ensures !ok ==> cache == old(cache)
    {
      ok := value == "bfs" || value == "dfs";
      if ok { search, cache := if value == "dfs" then DepthFirst else BreadthFirst, []; }
    }

    /** Accepts "deep" and "shallow"; any other value is refused and changes nothing. */
    method SetExplore(value: string) returns (ok: bool)
      requires Valid()
      modifies this`deep, this`cache
      ensures Valid() && (ok <==> value == "deep" || value == "shallow")
      ensures deep == if value == "deep" then true else if value == "shallow" then false else old(deep)
      ensures !ok ==> cache == old(cache)
    {
      ok := value == "deep" || value == "shallow";
      if ok { deep, cache := value == "deep", []; }
    }

    /** The bounds of a window are not compared with each other, nor with 0. */
    method SetDepth(value: DepthArg) returns (ok: bool)
      requires Valid()
      modifies this`depth, this`cache
      ensures Valid() && (ok <==> Accepted(value))
      ensures ok ==> depth == WindowOf(value)
      ensures !ok ==> depth == old(depth) && cache == old(cache)
    {
      match value
      case Unlimited => ok, depth, cache := true, Depth(0, None), [];
      case UpTo(last) =>
        ok := last >= 0;
        if ok { depth, cache := Depth(0, Some(last)), []; }
      case Levels(v) =>
        if |v| < 2 || v[0].None? { return false; }
        var check1, check2 := false, false;
        if v[1].Some? && v[0].value <= v[1].value {
          if !AllLevels(v) { return false; }
          check1 := !AnyNegative(v);
        }
        check2 := v[1].None? && v[0].value >= 0;
        ok := !(|v| != 2 && (check1 || check2));
        if ok { depth, cache := Depth(v[0].value, v[1]), []; }
      case Unknown => ok := false;
    }

    method SetSort(value: Sort)
      requires Valid()
      modifies this`sort, this`cache
      ensures Valid() && sort == value
    {
      sort, cache := value, [];
    }

    /** Turning the cache on or off keeps its contents. */
    method SetCaching(value: bool)
      requires Valid()
      modifies this`caching
      ensures Valid() && caching == value
    {
      caching := value;
    }

    method Clean()
      requires Valid()
      modifies this`cache
      ensures Valid() && cache == []
    {
      cache := [];
    }

    /** A call returns what an uncached walker would, whatever calls came before. */
    method Call() returns (out: seq<Node>)
      requires Valid()
      modifies this`cache
      ensures Valid() && out == Result()
      ensures cache == if caching then out else old(cache)
    {
      if caching && cache != [] { return cache; }
      var k := Query(p, depth, sort, deep);
      if search.DepthFirst? { out := Dfs(root, k); } else { out := SearchBfs(root, k); }
      if caching { cache := out; }
    }
  }
}

/**
 Building a tree while another one is traversed (maia/pytree/graph/build.py), and the
 forward/backward adjacency list built this way (maia/pytree/graph/fb_graph.py).
 */
module TreeBuild {
  import opened Basics
  import opened Traversal

  /** Builds a node from its source node and its built children; `S` is what the constructor remembers between calls. */
  type Constructor<!N, !T, !S> = (S, N, seq<T>) -> (S, T)

  // ---------------------------------------------------------------- recursive construction

  datatype Built<+T, +S> = Built(trees: seq<T>, state: S)

  /** The tree built from a node, under the answers the visitor gives during the traversal. */
  ghost function BuildNode<N(!new), T, S>(g: Graph<N>, rank: N -> nat, v: Visitor<N>, ctor: Constructor<N, T, S>,
                                          above: seq<N>, n: N, calls: seq<Event<N>>, state: S): (S, T)
    requires Finite(g, rank)
    decreases rank(n), 1, 0
  {
    var path := above + [n];
    var entered := calls + [Pre(path)];
    if v(entered) == Into then
      var kids := BuildChildren(g, rank, v, ctor, path, g.children(n), rank(n), entered, state);
      ctor(kids.state, n, kids.trees)
    else ctor(state, n, [])
  }

  /** Children are built in order, up to and including the one under which the visitor stopped the traversal. */
  ghost function BuildChildren<N(!new), T, S>(g: Graph<N>, rank: N -> nat, v: Visitor<N>, ctor: Constructor<N, T, S>,
                                              path: seq<N>, cs: seq<N>, bound: nat, calls: seq<Event<N>>, state: S): Built<T, S>
    requires Finite(g, rank)
    requires forall c :: c in cs ==> rank(c) < bound
    decreases bound, 0, |cs|
  {
    if cs == [] then Built([], state)
    else
      var down := calls + [Down(path + [cs[0]])];
      var o := VisitNode(g, rank, v, path, cs[0], down);
      var (s, t) := BuildNode(g, rank, v, ctor, path, cs[0], down, state);
      if o.stop.Some? then Built([t], s)
      else
        var rest := BuildChildren(g, rank, v, ctor, path, cs[1..], bound, o.calls + [Up(path + [cs[0]])], s);
        Built([t] + rest.trees, rest.state)
  }

  ghost function BuildRoots<N(!new), T, S>(g: Graph<N>, rank: N -> nat, v: Visitor<N>, ctor: Constructor<N, T, S>,
                                           roots: seq<N>, calls: seq<Event<N>>, state: S): Built<T, S>
    requires Finite(g, rank)
  {
    if roots == [] then Built([], state)
    else
      var o := VisitNode(g, rank, v, [], roots[0], calls);
      var (s, t) := BuildNode(g, rank, v, ctor, [], roots[0], calls, state);
      if o.stop.Some? then Built([t], s)
      else
        var rest := BuildRoots(g, rank, v, ctor, roots[1..], o.calls, s);
        Built([t] + rest.trees, rest.state)
  }

  // ---------------------------------------------------------------- the building visitor

  /** The partial trees of every open level, and the constructor's memory. */
  datatype Levels<+T, +S> = Levels(stack: seq<seq<T>>, state: S)

  /** What the building visitor does with one call. */
  function OnCall<N, T, S>(ctor: Constructor<N, T, S>, l: Levels<T, S>, e: Event<N>): Levels<T, S> {
    match e
    case Pre(_) => l.(stack := l.stack + [[]])
    case Post(path) =>
      if |l.stack| < 2 || path == [] then l
      else
        var (s, t) := ctor(l.state, Last(path), Last(l.stack));
        var below := Front(l.stack);
        Levels(Front(below) + [Last(below) + [t]], s)
    case Down(_) => l
    case Up(_) => l
  }

  ghost function Play<N, T, S>(ctor: Constructor<N, T, S>, state: S, calls: seq<Event<N>>): Levels<T, S> {
    if calls == [] then Levels([[]], state) else OnCall(ctor, Play(ctor, state, Front(calls)), Last(calls))
  }

  /** The result of adding built trees to the innermost open level. */
  ghost function Deposit<T, S>(l: Levels<T, S>, b: Built<T, S>): Levels<T, S>
    requires l.stack != []
  {
    Levels(Front(l.stack) + [Last(l.stack) + b.trees], b.state)
  }

  lemma {:induction false} PlayStep<N, T, S>(ctor: Constructor<N, T, S>, state: S, calls: seq<Event<N>>, e: Event<N>)
    ensures Play(ctor, state, calls + [e]) == OnCall(ctor, Play(ctor, state, calls), e)
  {
    assert Front(calls + [e]) == calls;
  }

  lemma {:induction false} DepositNothing<T, S>(l: Levels<T, S>)
    requires l.stack != []
    ensures Deposit(l, Built([], l.state)) == l
  {
    assert Last(l.stack) + [] == Last(l.stack);
    assert Front(l.stack) + [Last(l.stack)] == l.stack;
  }

  lemma {:induction false} DepositTwice<T, S>(l: Levels<T, S>, a: Built<T, S>, b: Built<T, S>)
    requires l.stack != []
    ensures Deposit(Deposit(l, a), b) == Deposit(l, Built(a.trees + b.trees, b.state))
  {
    assert Last(l.stack) + a.trees + b.trees == Last(l.stack) + (a.trees + b.trees);
  }

  lemma {:induction false} DepositInNewLevel<T, S>(l: Levels<T, S>, b: Built<T, S>)
    ensures Deposit(l.(stack := l.stack + [[]]), b) == Levels(l.stack + [b.trees], b.state)
  {
    assert Front(l.stack + [[]]) == l.stack;
    assert [] + b.trees == b.trees;
  }

  lemma {:induction false} PostDeposits<N, T, S>(ctor: Constructor<N, T, S>, l: Levels<T, S>, kids: Built<T, S>, path: seq<N>)
    requires l.stack != [] && path != []
    ensures var (s, t) := ctor(kids.state, Last(path), kids.trees);
            OnCall(ctor, Levels(l.stack + [kids.trees], kids.state), Post(path)) == Deposit(l, Built([t], s))
  {
    assert Front(l.stack + [kids.trees]) == l.stack;
  }

  lemma {:induction false} NodeIsBuilt<N(!new), T, S>(g: Graph<N>, rank: N -> nat, v: Visitor<N>, ctor: Constructor<N, T, S>,
                                                      above: seq<N>, n: N, calls: seq<Event<N>>, init: S)
    requires Finite(g, rank)
    requires Play(ctor, init, calls).stack != []
    ensures var l := Play(ctor, init, calls);
            var (s, t) := BuildNode(g, rank, v, ctor, above, n, calls, l.state);
            Play(ctor, init, VisitNode(g, rank, v, above, n, calls).calls) == Deposit(l, Built([t], s))
    decreases rank(n), 1, 0
  {
    var l := Play(ctor, init, calls);
    var path := above + [n];
    var entered := calls + [Pre(path)];
    PlayStep(ctor, init, calls, Pre(path));
    if v(entered) == Into {
      ChildrenAreBuilt(g, rank, v, ctor, path, g.children(n), rank(n), entered, init);
      var o := VisitChildren(g, rank, v, path, g.children(n), rank(n), entered);
      var kids := BuildChildren(g, rank, v, ctor, path, g.children(n), rank(n), entered, l.state);
      DepositInNewLevel(l, kids);
      PlayStep(ctor, init, o.calls, Post(path));
      PostDeposits(ctor, l, kids, path);
    } else {
      PlayStep(ctor, init, entered, Post(path));
      PostDeposits(ctor, l, Built([], l.state), path);
    }
  }

  lemma {:induction false} ChildIsBuilt<N(!new), T, S>(g: Graph<N>, rank: N -> nat, v: Visitor<N>, ctor: Constructor<N, T, S>,
                                                       path: seq<N>, c: N, calls: seq<Event<N>>, init: S)
    requires Finite(g, rank)
    requires Play(ctor, init, calls).stack != []
    ensures var l, down := Play(ctor, init, calls), calls + [Down(path + [c])];
            var (s, t) := BuildNode(g, rank, v, ctor, path, c, down, l.state);
            Play(ctor, init, VisitNode(g, rank, v, path, c, down).calls + [Up(path + [c])]) == Deposit(l, Built([t], s))
    decreases rank(c), 2, 0
  {
    var down := calls + [Down(path + [c])];
    PlayStep(ctor, init, calls, Down(path + [c]));
    NodeIsBuilt(g, rank, v, ctor, path, c, down, init);
    PlayStep(ctor, init, VisitNode(g, rank, v, path, c, down).calls, Up(path + [c]));
  }

  lemma {:induction false} ChildrenAreBuilt<N(!new), T, S>(g: Graph<N>, rank: N -> nat, v: Visitor<N>, ctor: Constructor<N, T, S>,
                                                           path: seq<N>, cs: seq<N>, bound: nat, calls: seq<Event<N>>, init: S)
    requires Finite(g, rank)
    requires forall c :: c in cs ==> rank(c) < bound
    requires Play(ctor, init, calls).stack != []
    ensures var l := Play(ctor, init, calls);
            Play(ctor, init, VisitChildren(g, rank, v, path, cs, bound, calls).calls)
            == Deposit(l, BuildChildren(g, rank, v, ctor, path, cs, bound, calls, l.state))
    decreases bound, 0, |cs|
  {
    var l := Play(ctor, init, calls);
    if cs == [] {
      DepositNothing(l);
    } else {
      ChildIsBuilt(g, rank, v, ctor, path, cs[0], calls, init);
      var down := calls + [Down(path + [cs[0]])];
      var o := VisitNode(g, rank, v, path, cs[0], down);
      var back := o.calls + [Up(path + [cs[0]])];
      if o.stop.None? {
        var (s, t) := BuildNode(g, rank, v, ctor, path, cs[0], down, l.state);
        ChildrenAreBuilt(g, rank, v, ctor, path, cs[1..], bound, back, init);
        DepositTwice(l, Built([t], s), BuildChildren(g, rank, v, ctor, path, cs[1..], bound, back, s));
      }
    }
  }

  lemma {:induction false} RootsAreBuilt<N(!new), T, S>(g: Graph<N>, rank: N -> nat, v: Visitor<N>, ctor: Constructor<N, T, S>,
                                                        roots: seq<N>, calls: seq<Event<N>>, init: S)
    requires Finite(g, rank)
    requires Play(ctor, init, calls).stack != []
    ensures var l := Play(ctor, init, calls);
            Play(ctor, init, VisitRoots(g, rank, v, roots, calls).calls)
            == Deposit(l, BuildRoots(g, rank, v, ctor, roots, calls, l.state))
    decreases |roots|
  {
    var l := Play(ctor, init, calls);
    if roots == [] {
      DepositNothing(l);
    } else {
      NodeIsBuilt(g, rank, v, ctor, [], roots[0], calls, init);
      var o := VisitNode(g, rank, v, [], roots[0], calls);
      if o.stop.None? {
        var (s, t) := BuildNode(g, rank, v, ctor, [], roots[0], calls, l.state);
        RootsAreBuilt(g, rank, v, ctor, roots[1..], o.calls, init);
        DepositTwice(l, Built([t], s), BuildRoots(g, rank, v, ctor, roots[1..], o.calls, s));
      }
    }
  }

  /** After any search, stopped or not, a single level is left and it holds the recursively built trees. */
  lemma {:induction false} SearchBuilds<N(!new), T, S>(g: Graph<N>, rank: N -> nat, v: Visitor<N>,
                                                       ctor: Constructor<N, T, S>, init: S)
    requires Finite(g, rank)
    ensures var b := BuildRoots(g, rank, v, ctor, g.roots, [], init);
            Play(ctor, init, Search(g, rank, v).calls) == Levels([b.trees], b.state)
  {
    RootsAreBuilt(g, rank, v, ctor, g.roots, [], init);
    var b := BuildRoots(g, rank, v, ctor, g.roots, [], init);
    assert [] + b.trees == b.trees;
  }

  class BuildVisitor<N, T, S> {
    const ctor: Constructor<N, T, S>
    ghost const init: S
    ghost var received: seq<Event<N>>
    var subTrees: seq<seq<T>>
    var memory: S

    ghost predicate Valid()
      reads this
    {
      Levels(subTrees, memory) == Play(ctor, init, received)
    }

    constructor (c: Constructor<N, T, S>, s: S)
      ensures Valid() && received == [] && ctor == c && init == s
    {
      ctor, init, received, subTrees, memory := c, s, [], [[]], s;
    }

    /** Add a level. */
    method OnPre(path: seq<N>)
      requires Valid()
      modifies this
      ensures Valid() && received == old(received) + [Pre(path)]
    {
      PlayStep(ctor, init, received, Pre(path));
      received := received + [Pre(path)];
      subTrees := subTrees + [[]];
    }

    /** A visitor without `down` and `up` ignores those calls. */
    ghost method Skip(e: Event<N>)
      requires Valid()
      requires e.Down? || e.Up?
      modifies this`received
      ensures Valid() && received == old(received) + [e]
    {
      PlayStep(ctor, init, received, e);
      received := received + [e];
    }

    /** Build the node from the children of the innermost level and deposit it one level up. */
    method OnPost(path: seq<N>)
      requires Valid()
      requires path != [] && |subTrees| >= 2
      modifies this
      ensures Valid() && received == old(received) + [Post(path)]
    {
      PlayStep(ctor, init, received, Post(path));
      received := received + [Post(path)];
      var (s, t) := ctor(memory, Last(path), Last(subTrees));
      memory := s;
      subTrees := Front(subTrees);
      subTrees := Front(subTrees) + [Last(subTrees) + [t]];
    }
  }

  ghost function OpenNodes<N>(open: seq<Event<N>>): nat {
    if open == [] then 0 else OpenNodes(Front(open)) + (if Last(open).Pre? then 1 else 0)
  }

  lemma {:induction false} OpenNodesStep<N>(open: seq<Event<N>>, e: Event<N>)
    ensures OpenNodes(open + [e]) == OpenNodes(open) + (if e.Pre? then 1 else 0)
  {
    assert Front(open + [e]) == open;
  }

  /** Opening a call adds a level for a node; closing one drops it. */
  lemma {:induction false} LevelsStep<N, T, S>(ctor: Constructor<N, T, S>, l: Levels<T, S>, open: seq<Event<N>>, e: Event<N>)
    requires |l.stack| == 1 + OpenNodes(open)
    ensures e.Pre? || e.Down? ==> |OnCall(ctor, l, e).stack| == 1 + OpenNodes(open + [e])
    ensures e.Post? && e.path != [] && open != [] && Last(open) == Pre(e.path) ==> |OnCall(ctor, l, e).stack| == 1 + OpenNodes(Front(open))
    ensures e.Up? && open != [] && Last(open) == Down(e.path) ==> |OnCall(ctor, l, e).stack| == 1 + OpenNodes(Front(open))
  {
    OpenNodesStep(open, e);
  }

  /** While calls nest properly, the visitor holds one level per open node, plus the bottom one. */
  lemma {:induction false} LevelsFollowCalls<N, T, S>(ctor: Constructor<N, T, S>, init: S, calls: seq<Event<N>>)
    requires Match(calls).Some?
    ensures |Play(ctor, init, calls).stack| == 1 + OpenNodes(Match(calls).value)
    decreases |calls|
  {
    if calls != [] {
      LevelsFollowCalls(ctor, init, Front(calls));
      LevelsStep(ctor, Play(ctor, init, Front(calls)), Match(Front(calls)).value, Last(calls));
    }
  }

  lemma {:induction false} MatchPrefix<N>(calls: seq<Event<N>>, k: nat)
    requires k <= |calls| && Match(calls).Some?
    ensures Match(calls[..k]).Some?
    decreases |calls|
  {
    if k == |calls| {
      assert calls[..k] == calls;
    } else {
      MatchPrefix(Front(calls), k);
      assert calls[..k] == Front(calls)[..k];
    }
  }

  lemma {:induction false} LevelsSuffice<N, T, S>(ctor: Constructor<N, T, S>, init: S, calls: seq<Event<N>>, i: nat)
    requires i < |calls| && Match(calls).Some?
    ensures calls[..i + 1] == calls[..i] + [calls[i]]
    ensures calls[i].Post? ==> calls[i].path != [] && |Play(ctor, init, calls[..i]).stack| >= 2
  {
    MatchPrefix(calls, i);
    MatchPrefix(calls, i + 1);
    LevelsFollowCalls(ctor, init, calls[..i]);
    assert Front(calls[..i + 1]) == calls[..i] && Last(calls[..i + 1]) == calls[i];
    if calls[i].Post? {
      var open := Match(calls[..i]).value;
      assert OpenNodes(open) == OpenNodes(Front(open)) + 1;
    }
  }

  /** Replay the calls of a search on the building visitor and take the only level that is left. */
  method BuildTrees<N(!new), T, S>(g: Graph<N>, ghost rank: N -> nat, v: Visitor<N>,
                                   ctor: Constructor<N, T, S>, init: S) returns (trees: seq<T>)
    requires Finite(g, rank)
    ensures trees == BuildRoots(g, rank, v, ctor, g.roots, [], init).trees
  {
    var calls, _ := DepthFirstSearch(g, rank, v);
    SearchIsBalanced(g, rank, v);
    var b := new BuildVisitor(ctor, init);
    for i := 0 to |calls|
      invariant b.Valid() && b.received == calls[..i] && b.ctor == ctor && b.init == init
    {
      LevelsSuffice(ctor, init, calls, i);
      match calls[i]
      case Pre(path) => b.OnPre(path);
      case Post(path) => b.OnPost(path);
      case Down(path) => b.Skip(Down(path));
      case Up(path) => b.Skip(Up(path));
    }
    assert calls[..|calls|] == calls;
    SearchBuilds(g, rank, v, ctor, init);
    assert |b.subTrees| == 1;
    trees := b.subTrees[0];
  }

  /** With a single root, a single tree is built. */
  method Build<N(!new), T, S>(g: Graph<N>, ghost rank: N -> nat, v: Visitor<N>,
                              ctor: Constructor<N, T, S>, init: S) returns (tree: T)
    requires Finite(g, rank)
    requires |g.roots| == 1
    ensures tree == BuildNode(g, rank, v, ctor, [], g.roots[0], [], init).1
  {
    var trees := BuildTrees(g, rank, v, ctor, init);
    assert |trees| == 1;
    tree := trees[0];
  }

  // ---------------------------------------------------------------- forward/backward trees

  /** An entry of a forward/backward adjacency list. */
  datatype Adjacency<+V> = Adjacency(value: V, forward: seq<nat>, backward: seq<nat>)

  type AdjacencyList<+V> = seq<Adjacency<V>>

  function Shift<V>(a: Adjacency<V>, offset: nat): Adjacency<V> {
    a.(forward := Shifted(a.forward, offset))
  }

  function ShiftAll<V>(l: AdjacencyList<V>, offset: nat): AdjacencyList<V> {
    seq(|l|, i requires 0 <= i < |l| => Shift(l[i], offset))
  }

  /** A sub-graph put after others: its root points back to `parent` and its forward indices are offset. */
  function Appended<V>(cat: AdjacencyList<V>, sub: AdjacencyList<V>, parent: nat): AdjacencyList<V>
    requires sub != []
  {
    cat + ShiftAll(sub[|sub| - 1 := Last(sub).(backward := [parent])], |cat|)
  }

  /** The sub-graphs put one after the other, their roots pointing back to index `parent`. */
  function Joined<V>(subs: seq<AdjacencyList<V>>, parent: nat): (r: (AdjacencyList<V>, seq<nat>))
    decreases |subs|
  {
    if subs == [] then ([], [])
    else
      var (cat, tops) := Joined(Front(subs), parent);
      var sub := Last(subs);
      if sub == [] then (cat, tops)
      else
        (Appended(cat, sub, parent), tops + [|cat| + |sub| - 1])
  }

  /** The constructor of forward/backward trees; its memory is the number of nodes built so far. */
  function FbNode<V>(count: nat, value: V, subs: seq<AdjacencyList<V>>): (nat, AdjacencyList<V>) {
    var (cat, tops) := Joined(subs, count);
    (count + 1, cat + [Adjacency(value, tops, [])])
  }

  /** The constructor as the source runs it: link each sub-graph root, offset its forward indices, append it. */
  class FbTreeConstructor {
    var count: nat

    constructor ()
      ensures count == 0
    {
      count := 0;
    }

    method Call<V>(value: V, subs: seq<AdjacencyList<V>>) returns (l: AdjacencyList<V>)
      requires forall sub :: sub in subs ==> sub != []
      modifies this
      ensures (count, l) == FbNode(old(count), value, subs)
    {
      var forwards := [];
      var cat := [];
      for i := 0 to |subs|
        invariant (cat, forwards) == Joined(subs[..i], count)
        invariant count == old(count)
      {
        assert Front(subs[..i + 1]) == subs[..i] && subs[i] in subs;
        var sub := subs[i];
        sub := sub[|sub| - 1 := Last(sub).(backward := [count])];
        var offset := |cat|;
        ghost var linked := sub;
        for k := 0 to |sub|
          invariant |sub| == |linked|
          invariant forall j :: 0 <= j < k ==> sub[j] == Shift(linked[j], offset)
          invariant forall j :: k <= j < |sub| ==> sub[j] == linked[j]
        {
          var adj := sub[k];
          for j := 0 to |adj.forward|
            invariant |adj.forward| == |sub[k].forward|
            invariant adj.(forward := sub[k].forward) == sub[k]
            invariant forall m :: 0 <= m < j ==> adj.forward[m] == sub[k].forward[m] + offset
            invariant forall m :: j <= m < |adj.forward| ==> adj.forward[m] == sub[k].forward[m]
          {
            adj := adj.(forward := adj.forward[j := adj.forward[j] + offset]);
          }
          assert adj.forward == Shift(sub[k], offset).forward;
          sub := sub[k := adj];
        }
        assert sub == ShiftAll(linked, offset);
        cat := cat + sub;
        forwards := forwards + [|cat| - 1];
      }
      assert subs[..|subs|] == subs;
      l := cat + [Adjacency(value, forwards, [])];
      count := count + 1;
    }
  }

  /** A plain tree of values. */
  datatype Tree<+V> = Tree(value: V, kids: seq<Tree<V>>)

  /** The tree obtained by following the children of a source node. */
  ghost function SourceTree<N(!new), V>(g: Graph<N>, rank: N -> nat, value: N -> V, n: N): Tree<V>
    requires Finite(g, rank)
    decreases rank(n), 1, 0
  {
    Tree(value(n), SourceTrees(g, rank, value, g.children(n), rank(n)))
  }

  ghost function SourceTrees<N(!new), V>(g: Graph<N>, rank: N -> nat, value: N -> V, cs: seq<N>, bound: nat): (ts: seq<Tree<V>>)
    requires Finite(g, rank)
    requires forall c :: c in cs ==> rank(c) < bound
    ensures |ts| == |cs|
    decreases bound, 0, |cs|
  {
    if cs == [] then []
    else [SourceTree(g, rank, value, cs[0])] + SourceTrees(g, rank, value, cs[1..], bound)
  }

  ghost function Postorder<V>(t: Tree<V>): seq<V>
    decreases t, 1, 0
  {
    PostorderAll(t.kids) + [t.value]
  }

  ghost function PostorderAll<V>(ts: seq<Tree<V>>): seq<V>
    decreases ts, 0, |ts|
  {
    if ts == [] then [] else PostorderAll(Front(ts)) + Postorder(Last(ts))
  }

  function Values<V>(l: AdjacencyList<V>): seq<V> {
    seq(|l|, i requires 0 <= i < |l| => l[i].value)
  }

  /** The tree obtained by following forward indices; an index that does not point to an earlier entry is ignored. */
  ghost function Unfold<V>(l: AdjacencyList<V>, k: nat): Tree<V>
    requires k < |l|
    decreases k, 1, 0
  {
    Tree(l[k].value, UnfoldAll(l, l[k].forward, k))
  }

  ghost function UnfoldAll<V>(l: AdjacencyList<V>, fs: seq<nat>, bound: nat): seq<Tree<V>>
    requires bound <= |l|
    decreases bound, 0, |fs|
  {
    if fs == [] then []
    else UnfoldAll(l, Front(fs), bound) + (if Last(fs) < bound then [Unfold(l, Last(fs))] else [])
  }

  ghost predicate Increasing(fs: seq<nat>) {
    forall i, j :: 0 <= i < j < |fs| ==> fs[i] < fs[j]
  }

  ghost predicate Below(fs: seq<nat>, bound: nat) {
    forall i :: 0 <= i < |fs| ==> fs[i] < bound
  }

  /** Entry `k` is the only backward entry of its forward entries, which it lists once each, in order. */
  ghost predicate ForwardAt<V>(l: AdjacencyList<V>, base: nat, k: nat)
    requires k < |l|
  {
    var fs := l[k].forward;
    && (forall i :: 0 <= i < |fs| ==> fs[i] < k && l[fs[i]].backward == [base + k])
    && Increasing(fs)
  }

  /** Entry `f` has one backward index, and is a forward entry of the entry found there. */
  ghost predicate BackwardAt<V>(l: AdjacencyList<V>, base: nat, f: nat)
    requires f < |l|
  {
    && |l[f].backward| == 1
    && base + f < l[f].backward[0] < base + |l|
    && f in l[l[f].backward[0] - base].forward
  }

  /**
   Forward and backward indices of a list whose first entry has absolute index `base` are inverse of each other,
   except for the entries in `tops`, whose backward indices are `parent`.
   */
  ghost predicate Linked<V>(l: AdjacencyList<V>, base: nat, tops: seq<nat>, parent: seq<nat>) {
    && (forall k: nat {:trigger ForwardAt(l, base, k)} :: k < |l| ==> ForwardAt(l, base, k))
    && (forall f: nat {:trigger BackwardAt(l, base, f)} :: f < |l| && f !in tops ==> BackwardAt(l, base, f))
    && (forall f: nat {:trigger TopAt(l, parent, f)} :: f in tops ==> TopAt(l, parent, f))
    && Increasing(tops)
  }

  ghost predicate TopAt<V>(l: AdjacencyList<V>, parent: seq<nat>, f: nat) {
    f < |l| && l[f].backward == parent
  }

  ghost function Total<V>(subs: seq<AdjacencyList<V>>): nat {
    if subs == [] then 0 else Total(Front(subs)) + |Last(subs)|
  }

  /** What a list built for a whole sub-tree satisfies, `base` being the number of nodes built before it. */
  ghost predicate Represents<V>(l: AdjacencyList<V>, base: nat, t: Tree<V>) {
    && l != []
    && Linked(l, base, [|l| - 1], [])
    && Unfold(l, |l| - 1) == t
    && Values(l) == Postorder(t)
  }

  ghost predicate RepresentAll<V>(subs: seq<AdjacencyList<V>>, base: nat, ts: seq<Tree<V>>) {
    && |subs| == |ts|
    && forall i: nat {:trigger RepresentsAt(subs, base, ts, i)} :: i < |subs| ==> RepresentsAt(subs, base, ts, i)
  }

  ghost predicate RepresentsAt<V>(subs: seq<AdjacencyList<V>>, base: nat, ts: seq<Tree<V>>, i: nat)
    requires i < |subs| == |ts|
  {
    Represents(subs[i], base + Total(subs[..i]), ts[i])
  }

  ghost predicate OccursAt<V>(l: AdjacencyList<V>, big: AdjacencyList<V>, offset: nat, j: nat)
    requires j < |l| && offset + |l| <= |big|
  {
    big[offset + j].value == l[j].value && big[offset + j].forward == Shifted(l[j].forward, offset)
  }

  /** The values and forward indices of `l` are found in `big` from index `offset` on. */
  ghost predicate Occurs<V>(l: AdjacencyList<V>, big: AdjacencyList<V>, offset: nat) {
    && offset + |l| <= |big|
    && forall j: nat {:trigger OccursAt(l, big, offset, j)} :: j < |l| ==> OccursAt(l, big, offset, j)
  }

  lemma {:induction false} OccursFirst<V>(cat: AdjacencyList<V>, big: AdjacencyList<V>)
    requires cat <= big
    ensures Occurs(cat, big, 0)
  {
    forall j: nat | j < |cat| ensures OccursAt(cat, big, 0, j) {
      assert Shifted(cat[j].forward, 0) == cat[j].forward;
    }
  }

  /** Following forward indices sees neither what comes after, nor backward indices, nor a common offset. */
  lemma {:induction false} UnfoldMoves<V>(l: AdjacencyList<V>, big: AdjacencyList<V>, offset: nat, k: nat)
    requires k < |l| && Occurs(l, big, offset)
    ensures Unfold(big, offset + k) == Unfold(l, k)
    decreases k, 1, 0
  {
    assert OccursAt(l, big, offset, k);
    UnfoldAllMoves(l, big, offset, l[k].forward, k);
  }

  lemma {:induction false} UnfoldAllMoves<V>(l: AdjacencyList<V>, big: AdjacencyList<V>, offset: nat, fs: seq<nat>, bound: nat)
    requires bound <= |l| && Occurs(l, big, offset)
    ensures UnfoldAll(big, Shifted(fs, offset), offset + bound) == UnfoldAll(l, fs, bound)
    decreases bound, 0, |fs|
  {
    if fs != [] {
      UnfoldAllMoves(l, big, offset, Front(fs), bound);
      if Last(fs) < bound { UnfoldMoves(l, big, offset, Last(fs)); }
      assert Front(Shifted(fs, offset)) == Shifted(Front(fs), offset);
    }
  }

  /** The bound of a list of indices is irrelevant. */
  lemma {:induction false} UnfoldAllBound<V>(l: AdjacencyList<V>, fs: seq<nat>, b1: nat, b2: nat)
    requires b1 <= |l| && b2 <= |l| && Below(fs, b1) && Below(fs, b2)
    ensures UnfoldAll(l, fs, b1) == UnfoldAll(l, fs, b2)
    decreases |fs|
  {
    if fs != [] { UnfoldAllBound(l, Front(fs), b1, b2); }
  }

  lemma {:induction false} AppendedAt<V>(cat: AdjacencyList<V>, sub: AdjacencyList<V>, parent: nat)
    requires sub != []
    ensures var l := Appended(cat, sub, parent);
            && |l| == |cat| + |sub|
            && (forall k :: 0 <= k < |cat| ==> l[k] == cat[k])
            && (forall k :: 0 <= k < |sub| ==>
                  && l[|cat| + k].value == sub[k].value
                  && l[|cat| + k].forward == Shift(sub[k], |cat|).forward
                  && l[|cat| + k].backward == if k == |sub| - 1 then [parent] else sub[k].backward)
  {
  }

  lemma {:induction false} AppendForward<V>(cat: AdjacencyList<V>, base: nat, parent: nat, sub: AdjacencyList<V>, k: nat)
    requires sub != [] && k < |cat| + |sub|
    requires if k < |cat| then ForwardAt(cat, base, k) else ForwardAt(sub, base + |cat|, k - |cat|)
    ensures ForwardAt(Appended(cat, sub, parent), base, k)
  {
    var l, c := Appended(cat, sub, parent), |cat|;
    AppendedAt(cat, sub, parent);
    if k >= c {
      assert l[k] == l[c + (k - c)];
      forall i | 0 <= i < |l[k].forward| ensures l[k].forward[i] < k && l[l[k].forward[i]].backward == [base + k] {
        var f := sub[k - c].forward[i];
        assert l[c + f].backward == sub[f].backward;
      }
    }
  }

  lemma {:induction false} AppendBackwardInside<V>(cat: AdjacencyList<V>, base: nat, parent: nat, sub: AdjacencyList<V>, f: nat)
    requires sub != [] && f < |sub| - 1 && BackwardAt(sub, base + |cat|, f)
    ensures BackwardAt(Appended(cat, sub, parent), base, |cat| + f)
  {
    var l, c := Appended(cat, sub, parent), |cat|;
    AppendedAt(cat, sub, parent);
    var k := sub[f].backward[0] - (base + c);
    var i :| 0 <= i < |sub[k].forward| && sub[k].forward[i] == f;
    assert l[c + f].backward == [base + (c + k)];
    assert l[c + k].forward[i] == c + f;
  }

  lemma {:induction false} AppendBackward<V>(cat: AdjacencyList<V>, base: nat, parent: nat, sub: AdjacencyList<V>, f: nat)
    requires sub != [] && f < |cat| + |sub| - 1
    requires if f < |cat| then BackwardAt(cat, base, f) else BackwardAt(sub, base + |cat|, f - |cat|)
    ensures BackwardAt(Appended(cat, sub, parent), base, f)
  {
    var l, c := Appended(cat, sub, parent), |cat|;
    AppendedAt(cat, sub, parent);
    if f >= c {
      AppendBackwardInside(cat, base, parent, sub, f - c);
    } else {
      assert l[f] == cat[f] && l[cat[f].backward[0] - base] == cat[cat[f].backward[0] - base];
    }
  }

  lemma {:induction false} AppendTops<V>(cat: AdjacencyList<V>, base: nat, tops: seq<nat>, parent: nat, sub: AdjacencyList<V>)
    requires sub != [] && Linked(cat, base, tops, [parent])
    ensures Increasing(tops + [|cat| + |sub| - 1])
    ensures forall f: nat {:trigger TopAt(Appended(cat, sub, parent), [parent], f)} ::
              f in tops + [|cat| + |sub| - 1] ==> TopAt(Appended(cat, sub, parent), [parent], f)
  {
    var l, c := Appended(cat, sub, parent), |cat|;
    AppendedAt(cat, sub, parent);
    TopsAreBelow(cat, base, tops, [parent]);
    forall f: nat | f in tops + [c + |sub| - 1] ensures TopAt(l, [parent], f) {
      if f in tops { assert TopAt(cat, [parent], f); } else { assert l[c + (|sub| - 1)].backward == [parent]; }
    }
  }

  /** Appending a sub-graph keeps forward and backward indices inverse of each other. */
  lemma {:induction false} AppendKeepsLinks<V>(cat: AdjacencyList<V>, base: nat, tops: seq<nat>, parent: nat, sub: AdjacencyList<V>)
    requires Linked(cat, base, tops, [parent])
    requires sub != [] && Linked(sub, base + |cat|, [|sub| - 1], [])
    ensures Linked(Appended(cat, sub, parent), base, tops + [|cat| + |sub| - 1], [parent])
  {
    var l, c := Appended(cat, sub, parent), |cat|;
    var tops' := tops + [c + |sub| - 1];
    forall k: nat | k < |l| ensures ForwardAt(l, base, k) {
      if k < c { assert ForwardAt(cat, base, k); } else { assert ForwardAt(sub, base + c, k - c); }
      AppendForward(cat, base, parent, sub, k);
    }
    forall f: nat | f < |l| && f !in tops' ensures BackwardAt(l, base, f) {
      assert f !in tops && f != tops'[|tops|];
      if f < c { assert BackwardAt(cat, base, f); } else { assert BackwardAt(sub, base + c, f - c); }
      AppendBackward(cat, base, parent, sub, f);
    }
    AppendTops(cat, base, tops, parent, sub);
  }

  lemma {:induction false} TopsAreBelow<V>(l: AdjacencyList<V>, base: nat, tops: seq<nat>, parent: seq<nat>)
    requires Linked(l, base, tops, parent)
    ensures Below(tops, |l|)
  {
    forall i | 0 <= i < |tops| ensures tops[i] < |l| { assert TopAt(l, parent, tops[i]); }
  }

  /** The forest represented by the entries `tops` of a list, which wait for their parent. */
  ghost predicate Forest<V>(cat: AdjacencyList<V>, base: nat, tops: seq<nat>, parent: nat, ts: seq<Tree<V>>) {
    && Linked(cat, base, tops, [parent])
    && UnfoldAll(cat, tops, |cat|) == ts
    && Values(cat) == PostorderAll(ts)
  }

  lemma {:induction false} RepresentFront<V>(subs: seq<AdjacencyList<V>>, base: nat, ts: seq<Tree<V>>)
    requires RepresentAll(subs, base, ts) && subs != []
    ensures RepresentAll(Front(subs), base, Front(ts))
    ensures Represents(Last(subs), base + Total(Front(subs)), Last(ts))
  {
    forall i: nat | i < |Front(subs)| ensures RepresentsAt(Front(subs), base, Front(ts), i) {
      assert RepresentsAt(subs, base, ts, i);
      assert Front(subs)[..i] == subs[..i];
    }
    assert RepresentsAt(subs, base, ts, |subs| - 1);
    assert subs[..|subs| - 1] == Front(subs);
  }

  lemma {:induction false} JoinedLast<V>(subs: seq<AdjacencyList<V>>, parent: nat)
    requires subs != [] && Last(subs) != []
    ensures var (cat, tops) := Joined(Front(subs), parent);
            Joined(subs, parent) == (Appended(cat, Last(subs), parent), tops + [|cat| + |Last(subs)| - 1])
  {
    AppendedAt(Joined(Front(subs), parent).0, Last(subs), parent);
  }

  lemma {:induction false} JoinedSize<V>(subs: seq<AdjacencyList<V>>, parent: nat)
    ensures |Joined(subs, parent).0| == Total(subs)
    decreases |subs|
  {
    if subs != [] {
      JoinedSize(Front(subs), parent);
      if Last(subs) != [] { AppendedAt(Joined(Front(subs), parent).0, Last(subs), parent); }
    }
  }

  lemma {:induction false} NothingRepresents<V>(base: nat, parent: nat)
    ensures Forest<V>([], base, [], parent, [])
  {
  }

  /** The children put one after the other represent the child trees. */
  lemma {:induction false} JoinedRepresents<V>(subs: seq<AdjacencyList<V>>, base: nat, parent: nat, ts: seq<Tree<V>>)
    requires RepresentAll(subs, base, ts)
    ensures Forest(Joined(subs, parent).0, base, Joined(subs, parent).1, parent, ts)
    decreases |subs|
  {
    if subs == [] {
      NothingRepresents<V>(base, parent);
    } else {
      RepresentFront(subs, base, ts);
      JoinedRepresents(Front(subs), base, parent, Front(ts));
      JoinedSize(Front(subs), parent);
      JoinedStep(subs, base, parent, Front(ts), Last(ts));
      assert Front(ts) + [Last(ts)] == ts;
    }
  }

  lemma {:induction false} JoinedStep<V>(subs: seq<AdjacencyList<V>>, base: nat, parent: nat, ts: seq<Tree<V>>, t: Tree<V>)
    requires subs != [] && Represents(Last(subs), base + |Joined(Front(subs), parent).0|, t)
    requires Forest(Joined(Front(subs), parent).0, base, Joined(Front(subs), parent).1, parent, ts)
    ensures Forest(Joined(subs, parent).0, base, Joined(subs, parent).1, parent, ts + [t])
  {
    var (cat, tops) := Joined(Front(subs), parent);
    JoinedLast(subs, parent);
    AppendRepresents(cat, base, tops, parent, Last(subs), ts, t);
  }

  lemma {:induction false} AppendUnfolds<V>(cat: AdjacencyList<V>, tops: seq<nat>, parent: nat, sub: AdjacencyList<V>)
    requires sub != [] && Below(tops, |cat|)
    ensures var l := Appended(cat, sub, parent);
            UnfoldAll(l, tops + [|cat| + |sub| - 1], |l|) == UnfoldAll(cat, tops, |cat|) + [Unfold(sub, |sub| - 1)]
  {
    var l := Appended(cat, sub, parent);
    AppendedAt(cat, sub, parent);
    assert Front(tops + [|cat| + |sub| - 1]) == tops;
    OccursFirst(cat, l);
    UnfoldAllMoves(cat, l, 0, tops, |cat|);
    assert Shifted(tops, 0) == tops;
    UnfoldAllBound(l, tops, |cat|, |l|);
    forall j: nat | j < |sub| ensures OccursAt(sub, l, |cat|, j) {}
    UnfoldMoves(sub, l, |cat|, |sub| - 1);
  }

  lemma {:induction false} AppendRepresents<V>(cat: AdjacencyList<V>, base: nat, tops: seq<nat>, parent: nat,
                            sub: AdjacencyList<V>, ts: seq<Tree<V>>, t: Tree<V>)
    requires Forest(cat, base, tops, parent, ts)
    requires Represents(sub, base + |cat|, t)
    ensures Forest(Appended(cat, sub, parent), base, tops + [|cat| + |sub| - 1], parent, ts + [t])
  {
    var l := Appended(cat, sub, parent);
    AppendKeepsLinks(cat, base, tops, parent, sub);
    TopsAreBelow(cat, base, tops, [parent]);
    AppendUnfolds(cat, tops, parent, sub);
    AppendedAt(cat, sub, parent);
    assert Values(l) == Values(cat) + Values(sub);
    assert Front(ts + [t]) == ts;
  }

  lemma {:induction false} TopKeepsLinks<V>(value: V, cat: AdjacencyList<V>, base: nat, tops: seq<nat>)
    requires Linked(cat, base, tops, [base + |cat|])
    ensures Linked(cat + [Adjacency(value, tops, [])], base, [|cat|], [])
  {
    var l := cat + [Adjacency(value, tops, [])];
    forall k: nat | k < |l| ensures ForwardAt(l, base, k) {
      if k < |cat| {
        assert ForwardAt(cat, base, k);
      } else {
        forall i | 0 <= i < |tops| ensures tops[i] < k && l[tops[i]].backward == [base + k] {
          assert TopAt(cat, [base + |cat|], tops[i]);
        }
      }
    }
    forall f: nat | f < |l| && f !in [|cat|] ensures BackwardAt(l, base, f) {
      assert f != |cat| by { assert [|cat|][0] == |cat|; }
      if f in tops {
        assert TopAt(cat, [base + |cat|], f);
      } else {
        assert BackwardAt(cat, base, f);
      }
    }
  }

  /** One node on top of its joined children represents the tree. */
  lemma {:induction false} FbNodeRepresents<V>(value: V, subs: seq<AdjacencyList<V>>, base: nat, ts: seq<Tree<V>>)
    requires RepresentAll(subs, base, ts)
    ensures var (count, l) := FbNode(base + Total(subs), value, subs);
            Represents(l, base, Tree(value, ts)) && count == base + |l|
  {
    var parent := base + Total(subs);
    JoinedRepresents(subs, base, parent, ts);
    JoinedSize(subs, parent);
    var (cat, tops) := Joined(subs, parent);
    TopRepresents(value, cat, base, tops, ts);
  }

  lemma {:induction false} TopUnfolds<V>(value: V, cat: AdjacencyList<V>, tops: seq<nat>)
    ensures Unfold(cat + [Adjacency(value, tops, [])], |cat|) == Tree(value, UnfoldAll(cat, tops, |cat|))
  {
    var l := cat + [Adjacency(value, tops, [])];
    OccursFirst(cat, l);
    UnfoldAllMoves(cat, l, 0, tops, |cat|);
    assert Shifted(tops, 0) == tops;
  }

  lemma {:induction false} TopRepresents<V>(value: V, cat: AdjacencyList<V>, base: nat, tops: seq<nat>, ts: seq<Tree<V>>)
    requires Forest(cat, base, tops, base + |cat|, ts)
    ensures Represents(cat + [Adjacency(value, tops, [])], base, Tree(value, ts))
  {
    var l := cat + [Adjacency(value, tops, [])];
    TopKeepsLinks(value, cat, base, tops);
    TopUnfolds(value, cat, tops);
    assert Values(l) == Values(cat) + [value];
  }

  /** A visitor that explores everything. */
  function ExploreAll<N(!new)>(): Visitor<N> {
    (calls: seq<Event<N>>) => Into
  }

  function FbConstructor<N, V>(value: N -> V): Constructor<N, AdjacencyList<V>, nat> {
    (count: nat, n: N, subs: seq<AdjacencyList<V>>) => FbNode(count, value(n), subs)
  }

  lemma {:induction false} TotalPrepend<V>(l: AdjacencyList<V>, subs: seq<AdjacencyList<V>>)
    ensures Total([l] + subs) == |l| + Total(subs)
  {
    if subs == [] {
      assert [l] + subs == [l] && Front([l]) == [];
    } else {
      TotalPrepend(l, Front(subs));
      assert Front([l] + subs) == [l] + Front(subs);
    }
  }

  lemma {:induction false} RepresentPrepend<V>(l: AdjacencyList<V>, subs: seq<AdjacencyList<V>>, base: nat, t: Tree<V>, ts: seq<Tree<V>>)
    requires Represents(l, base, t)
    requires RepresentAll(subs, base + |l|, ts)
    ensures RepresentAll([l] + subs, base, [t] + ts)
  {
    var all := [l] + subs;
    forall i: nat | i < |all| ensures RepresentsAt(all, base, [t] + ts, i) {
      if i == 0 {
        assert all[..0] == [];
      } else {
        assert all[..i] == [l] + subs[..i - 1];
        TotalPrepend(l, subs[..i - 1]);
        assert RepresentsAt(subs, base + |l|, ts, i - 1);
      }
    }
  }

  lemma {:induction false} FbBuildNode<N(!new), V>(g: Graph<N>, rank: N -> nat, value: N -> V, above: seq<N>, n: N,
                                                   calls: seq<Event<N>>, base: nat)
    requires Finite(g, rank)
    ensures VisitNode(g, rank, ExploreAll(), above, n, calls).stop.None?
    ensures var (count, l) := BuildNode(g, rank, ExploreAll(), FbConstructor(value), above, n, calls, base);
            Represents(l, base, SourceTree(g, rank, value, n)) && count == base + |l|
    decreases rank(n), 1, 0
  {
    var path := above + [n];
    var entered := calls + [Pre(path)];
    FbBuildChildren(g, rank, value, path, g.children(n), rank(n), entered, base);
    var kids := BuildChildren(g, rank, ExploreAll(), FbConstructor(value), path, g.children(n), rank(n), entered, base);
    FbNodeRepresents(value(n), kids.trees, base, SourceTrees(g, rank, value, g.children(n), rank(n)));
  }

  lemma {:induction false} FbBuildChildren<N(!new), V>(g: Graph<N>, rank: N -> nat, value: N -> V, path: seq<N>, cs: seq<N>,
                                                       bound: nat, calls: seq<Event<N>>, base: nat)
    requires Finite(g, rank)
    requires forall c :: c in cs ==> rank(c) < bound
    ensures VisitChildren(g, rank, ExploreAll(), path, cs, bound, calls).stop.None?
    ensures var b := BuildChildren(g, rank, ExploreAll(), FbConstructor(value), path, cs, bound, calls, base);
            RepresentAll(b.trees, base, SourceTrees(g, rank, value, cs, bound)) && b.state == base + Total(b.trees)
    decreases bound, 0, |cs|
  {
    if cs != [] {
      var down := calls + [Down(path + [cs[0]])];
      FbBuildNode(g, rank, value, path, cs[0], down, base);
      var o := VisitNode(g, rank, ExploreAll(), path, cs[0], down);
      var (count, l) := BuildNode(g, rank, ExploreAll(), FbConstructor(value), path, cs[0], down, base);
      var back := o.calls + [Up(path + [cs[0]])];
      FbBuildChildren(g, rank, value, path, cs[1..], bound, back, count);
      var rest := BuildChildren(g, rank, ExploreAll(), FbConstructor(value), path, cs[1..], bound, back, count);
      RepresentPrepend(l, rest.trees, base, SourceTree(g, rank, value, cs[0]), SourceTrees(g, rank, value, cs[1..], bound));
      TotalPrepend(l, rest.trees);
    }
  }

  /** The forward/backward tree of a rooted graph: postorder, root last, forward and backward indices inverse of each other. */
  method BuildFbTree<N(!new), V>(g: Graph<N>, ghost rank: N -> nat, value: N -> V) returns (l: AdjacencyList<V>)
    requires Finite(g, rank)
    requires |g.roots| == 1
    ensures l != [] && Linked(l, 0, [|l| - 1], [])
    ensures Unfold(l, |l| - 1) == SourceTree(g, rank, value, g.roots[0])
    ensures Values(l) == Postorder(SourceTree(g, rank, value, g.roots[0]))
  {
    l := Build(g, rank, ExploreAll(), FbConstructor(value), 0);
    FbBuildNode(g, rank, value, [], g.roots[0], [], 0);
  }
}

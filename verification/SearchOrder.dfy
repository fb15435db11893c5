/**
 The order in which a depth first search (maia/pytree/graph/algo.py) enters nodes and moves between them, told without following
 the search.
 */
module SearchOrder {
  import opened Basics
  import opened Traversal

  // ---------------------------------------------------------------- the order of a search

  /** The visitor that goes below a node exactly when its path is told to, and never stops. */
  function Policy<N(!new)>(into: seq<N> -> bool): Visitor<N> {
    (calls: seq<Event<N>>) => if calls == [] || into(Last(calls).path) then Into else Over
  }

  /** The paths of a forest: a node, then what is below it if the search goes there, then its next siblings. */
  ghost function Listing<N(!new)>(g: Graph<N>, rank: N -> nat, into: seq<N> -> bool, above: seq<N>, cs: seq<N>, bound: nat): seq<seq<N>>
    requires Finite(g, rank)
    requires forall c :: c in cs ==> rank(c) < bound
    decreases bound, |cs|
  {
    if cs == [] then []
    else
      var here := above + [cs[0]];
      [here] + (if into(here) then Listing(g, rank, into, here, g.children(cs[0]), rank(cs[0])) else [])
      + Listing(g, rank, into, above, cs[1..], bound)
  }

  /** The paths of the nodes entered, in order. */
  ghost function Entered<N>(calls: seq<Event<N>>): seq<seq<N>> {
    if calls == [] then [] else Entered(Front(calls)) + if Last(calls).Pre? then [Last(calls).path] else []
  }

  lemma {:induction false} EnteredStep<N>(calls: seq<Event<N>>, e: Event<N>)
    ensures Entered(calls + [e]) == Entered(calls) + if e.Pre? then [e.path] else []
  {
    assert Front(calls + [e]) == calls;
  }

  /** What is entered below a node. */
  ghost function ListedBelow<N(!new)>(g: Graph<N>, rank: N -> nat, into: seq<N> -> bool, above: seq<N>, n: N): seq<seq<N>>
    requires Finite(g, rank)
  {
    if into(above + [n]) then Listing(g, rank, into, above + [n], g.children(n), rank(n)) else []
  }

  lemma {:induction false} ListingStep<N(!new)>(g: Graph<N>, rank: N -> nat, into: seq<N> -> bool, above: seq<N>, cs: seq<N>, bound: nat)
    requires Finite(g, rank) && cs != []
    requires forall c :: c in cs ==> rank(c) < bound
    ensures Listing(g, rank, into, above, cs, bound)
            == ([above + [cs[0]]] + ListedBelow(g, rank, into, above, cs[0])) + Listing(g, rank, into, above, cs[1..], bound)
  {
  }

  lemma {:induction false} NodeEnters<N(!new)>(g: Graph<N>, rank: N -> nat, into: seq<N> -> bool, above: seq<N>, n: N, calls: seq<Event<N>>)
    requires Finite(g, rank)
    ensures var o := VisitNode(g, rank, Policy(into), above, n, calls);
            o.stop.None? && Entered(o.calls) == Entered(calls) + ([above + [n]] + ListedBelow(g, rank, into, above, n))
    decreases rank(n), 1, 0
  {
    var path := above + [n];
    var entered := calls + [Pre(path)];
    EnteredStep(calls, Pre(path));
    assert Last(entered) == Pre(path);
    Regrouped(Entered(calls), [path], ListedBelow(g, rank, into, above, n));
    if into(path) {
      ChildrenEnter(g, rank, into, path, g.children(n), rank(n), entered);
      EnteredStep(VisitChildren(g, rank, Policy(into), path, g.children(n), rank(n), entered).calls, Post(path));
    } else {
      EnteredStep(entered, Post(path));
    }
  }

  lemma {:induction false} ChildrenEnter<N(!new)>(g: Graph<N>, rank: N -> nat, into: seq<N> -> bool, path: seq<N>, cs: seq<N>, bound: nat,
                                                  calls: seq<Event<N>>)
    requires Finite(g, rank)
    requires forall c :: c in cs ==> rank(c) < bound
    ensures var o := VisitChildren(g, rank, Policy(into), path, cs, bound, calls);
            o.stop.None? && Entered(o.calls) == Entered(calls) + Listing(g, rank, into, path, cs, bound)
    decreases bound, 0, |cs|
  {
    if cs != [] {
      var back := ChildEnters(g, rank, into, path, cs[0], bound, calls);
      ChildrenEnter(g, rank, into, path, cs[1..], bound, back);
      ListingStep(g, rank, into, path, cs, bound);
      Regrouped(Entered(calls), [path + [cs[0]]] + ListedBelow(g, rank, into, path, cs[0]), Listing(g, rank, into, path, cs[1..], bound));
    }
  }

  /** The calls made for a child, and what they enter. */
  lemma {:induction false} ChildEnters<N(!new)>(g: Graph<N>, rank: N -> nat, into: seq<N> -> bool, path: seq<N>, c: N, bound: nat, calls: seq<Event<N>>)
    returns (back: seq<Event<N>>)
    requires Finite(g, rank) && rank(c) < bound
    ensures var o := VisitNode(g, rank, Policy(into), path, c, calls + [Down(path + [c])]);
            o.stop.None? && back == o.calls + [Up(path + [c])]
    ensures Entered(back) == Entered(calls) + ([path + [c]] + ListedBelow(g, rank, into, path, c))
    decreases bound, 0, 0
  {
    var down := calls + [Down(path + [c])];
    EnteredStep(calls, Down(path + [c]));
    NodeEnters(g, rank, into, path, c, down);
    var o := VisitNode(g, rank, Policy(into), path, c, down);
    back := o.calls + [Up(path + [c])];
    EnteredStep(o.calls, Up(path + [c]));
    assert Entered(calls) + [] == Entered(calls);
  }

  lemma {:induction false} RootsEnter<N(!new)>(g: Graph<N>, rank: N -> nat, into: seq<N> -> bool, roots: seq<N>, bound: nat, calls: seq<Event<N>>)
    requires Finite(g, rank)
    requires forall c :: c in roots ==> rank(c) < bound
    ensures var o := VisitRoots(g, rank, Policy(into), roots, calls);
            o.stop.None? && Entered(o.calls) == Entered(calls) + Listing(g, rank, into, [], roots, bound)
    decreases |roots|
  {
    if roots != [] {
      NodeEnters(g, rank, into, [], roots[0], calls);
      var o := VisitNode(g, rank, Policy(into), [], roots[0], calls);
      RootsEnter(g, rank, into, roots[1..], bound, o.calls);
      ListingStep(g, rank, into, [], roots, bound);
      Regrouped(Entered(calls), [[] + [roots[0]]] + ListedBelow(g, rank, into, [], roots[0]), Listing(g, rank, into, [], roots[1..], bound));
    }
  }

  /** The nodes are entered in preorder: roots and children in the order in which the graph enumerates them. */
  lemma {:induction false} SearchIsPreorder<N(!new)>(g: Graph<N>, rank: N -> nat, into: seq<N> -> bool)
    requires Finite(g, rank)
    ensures var o := Search(g, rank, Policy(into));
            o.stop.None? && Entered(o.calls) == Listing(g, rank, into, [], g.roots, RootBound(rank, g.roots))
  {
    RootsEnter(g, rank, into, g.roots, RootBound(rank, g.roots), []);
  }

  // ---------------------------------------------------------------- moves between nodes

  /** A move down is followed by the entry in the child, a move up preceded by its exit; only roots are entered without a move. */
  ghost predicate Neighbours<N>(c: seq<Event<N>>, i: nat)
    requires i < |c|
  {
    match c[i]
    case Down(p) => i + 1 < |c| && c[i + 1] == Pre(p)
    case Up(p) => i > 0 && c[i - 1] == Post(p)
    case Pre(p) => p != [] && (|p| > 1 ==> i > 0 && c[i - 1] == Down(p))
    case Post(p) => true
  }

  ghost predicate MovesOk<N>(c: seq<Event<N>>, from: nat) {
    forall i: nat {:trigger Neighbours(c, i)} :: from <= i < |c| ==> Neighbours(c, i)
  }

  lemma {:induction false} MovesExtend<N>(c: seq<Event<N>>, d: seq<Event<N>>, from: nat)
    requires c <= d && from <= |c| && MovesOk(c, from) && MovesOk(d, |c|)
    ensures MovesOk(d, from)
  {
    forall i: nat | from <= i < |d| ensures Neighbours(d, i) { if i < |c| { assert Neighbours(c, i); } }
  }

  lemma {:induction false} NodeMoves<N(!new)>(g: Graph<N>, rank: N -> nat, v: Visitor<N>, above: seq<N>, n: N, calls: seq<Event<N>>)
    requires Finite(g, rank) && (above == [] || (calls != [] && Last(calls) == Down(above + [n])))
    ensures var o := VisitNode(g, rank, v, above, n, calls);
            && calls <= o.calls && |calls| < |o.calls| && o.calls[|calls|] == Pre(above + [n]) && Last(o.calls) == Post(above + [n])
            && MovesOk(o.calls, |calls|)
    decreases rank(n), 1, 0
  {
    var path := above + [n];
    var entered := calls + [Pre(path)];
    assert Neighbours(entered, |calls|);
    assert MovesOk(entered, |calls|);
    var inside := entered;
    if v(entered) == Into {
      ChildrenMove(g, rank, v, path, g.children(n), rank(n), entered);
      inside := VisitChildren(g, rank, v, path, g.children(n), rank(n), entered).calls;
      MovesExtend(entered, inside, |calls|);
    }
    assert Neighbours(inside + [Post(path)], |inside|);
    MovesExtend(inside, inside + [Post(path)], |calls|);
  }

  lemma {:induction false} ChildrenMove<N(!new)>(g: Graph<N>, rank: N -> nat, v: Visitor<N>, path: seq<N>, cs: seq<N>, bound: nat,
                                                 calls: seq<Event<N>>)
    requires Finite(g, rank) && path != []
    requires forall c :: c in cs ==> rank(c) < bound
    ensures var o := VisitChildren(g, rank, v, path, cs, bound, calls);
            calls <= o.calls && MovesOk(o.calls, |calls|)
    decreases bound, 0, |cs|
  {
    if cs != [] {
      var child := path + [cs[0]];
      var down := calls + [Down(child)];
      NodeMoves(g, rank, v, path, cs[0], down);
      var o := VisitNode(g, rank, v, path, cs[0], down);
      DownThenPre(calls, o.calls, child);
      var back := o.calls + [Up(child)];
      assert Neighbours(back, |o.calls|);
      MovesExtend(o.calls, back, |calls|);
      if o.stop.None? {
        ChildrenMove(g, rank, v, path, cs[1..], bound, back);
        MovesExtend(back, VisitChildren(g, rank, v, path, cs[1..], bound, back).calls, |calls|);
      }
    }
  }

  lemma {:induction false} DownThenPre<N>(calls: seq<Event<N>>, after: seq<Event<N>>, child: seq<N>)
    requires calls + [Down(child)] <= after && |calls| + 1 < |after| && after[|calls| + 1] == Pre(child) && MovesOk(after, |calls| + 1)
    ensures MovesOk(after, |calls|)
  {
    forall i: nat | |calls| <= i < |after| ensures Neighbours(after, i) { if i == |calls| { assert after[i] == Down(child); } }
  }

  lemma {:induction false} RootsMove<N(!new)>(g: Graph<N>, rank: N -> nat, v: Visitor<N>, roots: seq<N>, calls: seq<Event<N>>)
    requires Finite(g, rank)
    ensures var o := VisitRoots(g, rank, v, roots, calls); calls <= o.calls && MovesOk(o.calls, |calls|)
    decreases |roots|
  {
    if roots != [] {
      NodeMoves(g, rank, v, [], roots[0], calls);
      var o := VisitNode(g, rank, v, [], roots[0], calls);
      if o.stop.None? {
        RootsMove(g, rank, v, roots[1..], o.calls);
        MovesExtend(o.calls, VisitRoots(g, rank, v, roots[1..], o.calls).calls, |calls|);
      }
    }
  }

  /** In every search, moves and visits alternate as they should, on the same branch. */
  lemma {:induction false} SearchMoves<N(!new)>(g: Graph<N>, rank: N -> nat, v: Visitor<N>)
    requires Finite(g, rank)
    ensures MovesOk(Search(g, rank, v).calls, 0)
  {
    RootsMove(g, rank, v, g.roots, []);
  }
}

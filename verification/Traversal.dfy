/**
 Depth-first graph traversal driven by an explicit stack (maia/pytree/graph/algo.py).

 The traversal machine keeps a stack of levels.  Every level holds the current sibling (or nothing
 when the level is exhausted) and the siblings that remain.  A visitor is told about every move and
 answers each `pre` with a step.  Here a visitor is a function from the calls it has received so far
 to its answer, which covers every deterministic visitor, with or without internal state.

 The machine is proved to issue exactly the calls of a plain recursive traversal, to return the node
 on which the visitor asked to stop, and to leave every call paired with its closing call.
 */
module Traversal {
  import opened Basics

  datatype Step = Into | Over | Out

  /** One call received by the visitor, with the list of ancestors down to the current node. */
  datatype Event<+N> =
    | Pre(path: seq<N>)
    | Post(path: seq<N>)
    | Down(path: seq<N>)
    | Up(path: seq<N>)

  /** A rooted graph, given by what its root iterator and its child iterator enumerate. */
  datatype Graph<!N> = Graph(roots: seq<N>, children: N -> seq<N>)

  /** The visitor: its answer to the `pre` call that ends the given history. */
  type Visitor<!N> = seq<Event<N>> -> Step

  /** The graph unfolds to a finite forest: `rank` decreases along every edge. */
  ghost predicate Finite<N(!new)>(g: Graph<N>, rank: N -> nat) {
    forall n, c {:trigger c in g.children(n)} :: c in g.children(n) ==> rank(c) < rank(n)
  }

  // ---------------------------------------------------------------- recursive traversal

  /** The calls made so far, and the node that asked to stop, if any. */
  datatype Outcome<+N> = Outcome(calls: seq<Event<N>>, stop: Option<N>)

  ghost function VisitNode<N(!new)>(g: Graph<N>, rank: N -> nat, v: Visitor<N>,
                                    above: seq<N>, n: N, calls: seq<Event<N>>): Outcome<N>
    requires Finite(g, rank)
    decreases rank(n), 1, 0
  {
    var path := above + [n];
    var entered := calls + [Pre(path)];
    match v(entered)
    case Out => Outcome(entered + [Post(path)], Some(n))
    case Over => Outcome(entered + [Post(path)], None)
    case Into =>
      var o := VisitChildren(g, rank, v, path, g.children(n), rank(n), entered);
      Outcome(o.calls + [Post(path)], o.stop)
  }

  ghost function VisitChildren<N(!new)>(g: Graph<N>, rank: N -> nat, v: Visitor<N>,
                                        path: seq<N>, cs: seq<N>, bound: nat, calls: seq<Event<N>>): Outcome<N>
    requires Finite(g, rank)
    requires forall c :: c in cs ==> rank(c) < bound
    decreases bound, 0, |cs|
  {
    if cs == [] then Outcome(calls, None)
    else
      var o := VisitNode(g, rank, v, path, cs[0], calls + [Down(path + [cs[0]])]);
      var back := o.calls + [Up(path + [cs[0]])];
      if o.stop.Some? then Outcome(back, o.stop)
      else VisitChildren(g, rank, v, path, cs[1..], bound, back)
  }

  ghost function VisitRoots<N(!new)>(g: Graph<N>, rank: N -> nat, v: Visitor<N>,
                                     roots: seq<N>, calls: seq<Event<N>>): Outcome<N>
    requires Finite(g, rank)
  {
    if roots == [] then Outcome(calls, None)
    else
      var o := VisitNode(g, rank, v, [], roots[0], calls);
      if o.stop.Some? then o else VisitRoots(g, rank, v, roots[1..], o.calls)
  }

  /** The specification of a whole search. */
  ghost function Search<N(!new)>(g: Graph<N>, rank: N -> nat, v: Visitor<N>): Outcome<N>
    requires Finite(g, rank)
  {
    VisitRoots(g, rank, v, g.roots, [])
  }

  // ---------------------------------------------------------------- meaning of a machine state

  function Last<T>(s: seq<T>): T
    requires s != []
  {
    s[|s| - 1]
  }

  function Front<T>(s: seq<T>): seq<T>
    requires s != []
  {
    s[..|s| - 1]
  }

  /** The calls that close the levels above a node which stopped the search and was left. */
  ghost function CloseAbove<N>(path: seq<N>, calls: seq<Event<N>>): seq<Event<N>>
    requires path != []
    decreases |path|
  {
    if |path| == 1 then calls
    else CloseAbove(Front(path), calls + [Up(path), Post(Front(path))])
  }

  ghost predicate Pending<N(!new)>(g: Graph<N>, rank: N -> nat, path: seq<N>, its: seq<seq<N>>) {
    && |its| == |path|
    && forall i: nat {:trigger ChildrenAt(rank, path, its, i)} :: 1 <= i < |its| ==> ChildrenAt(rank, path, its, i)
  }

  ghost predicate ChildrenAt<N(!new)>(rank: N -> nat, path: seq<N>, its: seq<seq<N>>, i: nat)
    requires |its| == |path| && 1 <= i < |its|
  {
    forall c {:trigger c in its[i]} :: c in its[i] ==> rank(c) < rank(path[i - 1])
  }

  lemma {:induction false} PendingFront<N(!new)>(g: Graph<N>, rank: N -> nat, path: seq<N>, its: seq<seq<N>>)
    requires path != [] && Pending(g, rank, path, its)
    ensures Pending(g, rank, Front(path), Front(its))
  {
    forall i: nat | 1 <= i < |Front(its)| ensures ChildrenAt(rank, Front(path), Front(its), i) {
      assert ChildrenAt(rank, path, its, i);
    }
  }

  /** What happens after the last node of `path` was left without a stop. */
  ghost function Resume<N(!new)>(g: Graph<N>, rank: N -> nat, v: Visitor<N>,
                                 path: seq<N>, its: seq<seq<N>>, calls: seq<Event<N>>): Outcome<N>
    requires Finite(g, rank)
    requires path != [] && Pending(g, rank, path, its)
    decreases |path|
  {
    if |path| == 1 then VisitRoots(g, rank, v, its[0], calls)
    else
      assert ChildrenAt(rank, path, its, |its| - 1);
      PendingFront(g, rank, path, its);
      var parent := Front(path);
      var o := VisitChildren(g, rank, v, parent, Last(its), rank(Last(parent)), calls + [Up(path)]);
      var closed := o.calls + [Post(parent)];
      if o.stop.Some? then Outcome(CloseAbove(parent, closed), o.stop)
      else Resume(g, rank, v, parent, Front(its), closed)
  }

  /** What happens when the machine is about to enter the last node of `path`. */
  ghost function Enter<N(!new)>(g: Graph<N>, rank: N -> nat, v: Visitor<N>,
                                path: seq<N>, its: seq<seq<N>>, calls: seq<Event<N>>): Outcome<N>
    requires Finite(g, rank)
    requires path != [] && Pending(g, rank, path, its)
  {
    var o := VisitNode(g, rank, v, Front(path), Last(path), calls);
    if o.stop.Some? then Outcome(CloseAbove(path, o.calls), o.stop)
    else Resume(g, rank, v, path, its, o.calls)
  }

  lemma {:induction false} CloseOneLevel<N>(path: seq<N>, calls: seq<Event<N>>)
    requires |path| > 1
    ensures CloseAbove(path, calls) == CloseAbove(Front(path), calls + [Up(path)] + [Post(Front(path))])
  {
    assert calls + [Up(path)] + [Post(Front(path))] == calls + [Up(path), Post(Front(path))];
  }

  /** Leaving the last sibling also leaves its parent. */
  lemma {:induction false} ResumeAndClose<N(!new)>(g: Graph<N>, rank: N -> nat, v: Visitor<N>,
                                                   path: seq<N>, its: seq<seq<N>>, calls: seq<Event<N>>)
    requires Finite(g, rank)
    requires path != [] && Pending(g, rank, path, its)
    requires Last(its) == []
    ensures |path| == 1 ==> Resume(g, rank, v, path, its, calls) == Outcome(calls, None)
    ensures |path| > 1 ==>
              && Pending(g, rank, Front(path), Front(its))
              && Resume(g, rank, v, path, its, calls)
                 == Resume(g, rank, v, Front(path), Front(its), calls + [Up(path)] + [Post(Front(path))])
  {
    PendingFront(g, rank, path, its);
  }

  /** Leaving a node that has a next sibling enters the sibling. */
  lemma {:induction false} ResumeAndEnter<N(!new)>(g: Graph<N>, rank: N -> nat, v: Visitor<N>,
                                                   path: seq<N>, its: seq<seq<N>>, calls: seq<Event<N>>)
    requires Finite(g, rank)
    requires path != [] && Pending(g, rank, path, its)
    requires Last(its) != []
    ensures var next := Front(path) + [Last(its)[0]];
            var its' := Front(its) + [Last(its)[1..]];
            && Pending(g, rank, next, its')
            && Resume(g, rank, v, path, its, calls)
               == Enter(g, rank, v, next, its', if |path| == 1 then calls else calls + [Up(path)] + [Down(next)])
  {
    var c := Last(its)[0];
    var next := Front(path) + [c];
    var its' := Front(its) + [Last(its)[1..]];
    PendingFront(g, rank, path, its);
    forall i: nat | 1 <= i < |its'| ensures ChildrenAt(rank, next, its', i) {
      assert ChildrenAt(rank, path, its, i);
      assert next[i - 1] == path[i - 1] && forall d :: d in its'[i] ==> d in its[i];
    }
    assert Front(next) == Front(path) && Last(next) == c;
    assert Last(its') == Last(its)[1..] && Front(its') == Front(its);
    if |path| == 1 {
      assert Front(path) == [];
      assert its'[0] == its[0][1..];
    } else {
      var o := VisitNode(g, rank, v, Front(path), c, calls + [Up(path)] + [Down(next)]);
      CloseOneLevel(next, o.calls);
    }
  }

  /** Entering a node whose visitor says `Into`, seen from the machine. */
  lemma {:induction false} EnterIsPush<N(!new)>(g: Graph<N>, rank: N -> nat, v: Visitor<N>,
                             path: seq<N>, its: seq<seq<N>>, calls: seq<Event<N>>)
    requires Finite(g, rank)
    requires path != [] && Pending(g, rank, path, its)
    requires v(calls + [Pre(path)]) == Into
    ensures var cs := g.children(Last(path));
            var entered := calls + [Pre(path)];
            if cs == [] then Enter(g, rank, v, path, its, calls) == Resume(g, rank, v, path, its, entered + [Post(path)])
            else
              && Pending(g, rank, path + [cs[0]], its + [cs[1..]])
              && Enter(g, rank, v, path, its, calls)
                 == Enter(g, rank, v, path + [cs[0]], its + [cs[1..]], entered + [Down(path + [cs[0]])])
  {
    var cs := g.children(Last(path));
    var entered := calls + [Pre(path)];
    assert Front(path) + [Last(path)] == path;
    var whole := VisitChildren(g, rank, v, path, cs, rank(Last(path)), entered);
    assert VisitNode(g, rank, v, Front(path), Last(path), calls) == Outcome(whole.calls + [Post(path)], whole.stop);
    if cs != [] {
      var down := path + [cs[0]];
      var its' := its + [cs[1..]];
      assert Front(down) == path && Last(down) == cs[0];
      assert Front(its') == its && Last(its') == cs[1..];
      assert Pending(g, rank, down, its') by {
        forall i: nat | 1 <= i < |its'| ensures ChildrenAt(rank, down, its', i) {
          if i < |its| { assert ChildrenAt(rank, path, its, i); }
        }
      }
      var o := VisitNode(g, rank, v, path, cs[0], entered + [Down(down)]);
      CloseOneLevel(down, o.calls);
    }
  }

  /** A node that is not explored is entered and left at once. */
  lemma {:induction false} EnterIsSkip<N(!new)>(g: Graph<N>, rank: N -> nat, v: Visitor<N>,
                             path: seq<N>, its: seq<seq<N>>, calls: seq<Event<N>>)
    requires Finite(g, rank)
    requires path != [] && Pending(g, rank, path, its)
    requires v(calls + [Pre(path)]) != Into
    ensures var left := calls + [Pre(path)] + [Post(path)];
            Enter(g, rank, v, path, its, calls)
            == if v(calls + [Pre(path)]) == Out then Outcome(CloseAbove(path, left), Some(Last(path)))
               else Resume(g, rank, v, path, its, left)
  {
    assert Front(path) + [Last(path)] == path;
  }

  // ---------------------------------------------------------------- termination

  /** An upper bound on the machine steps spent below and on the given siblings. */
  ghost function Work<N(!new)>(g: Graph<N>, rank: N -> nat, cs: seq<N>, bound: nat): nat
    requires Finite(g, rank)
    requires forall c :: c in cs ==> rank(c) < bound
    decreases bound, |cs|
  {
    if cs == [] then 0
    else 2 + Work(g, rank, g.children(cs[0]), rank(cs[0])) + Work(g, rank, cs[1..], bound)
  }

  ghost function RootBound<N(!new)>(rank: N -> nat, cs: seq<N>): (b: nat)
    ensures forall c :: c in cs ==> rank(c) < b
  {
    if cs == [] then 0
    else
      var r := RootBound(rank, cs[1..]);
      if rank(cs[0]) < r then r else rank(cs[0]) + 1
  }

  lemma {:induction false} WorkIgnoresBound<N(!new)>(g: Graph<N>, rank: N -> nat, cs: seq<N>, b1: nat, b2: nat)
    requires Finite(g, rank)
    requires forall c :: c in cs ==> rank(c) < b1 && rank(c) < b2
    ensures Work(g, rank, cs, b1) == Work(g, rank, cs, b2)
    decreases |cs|
  {
    if cs != [] { WorkIgnoresBound(g, rank, cs[1..], b1, b2); }
  }

  ghost function SiblingWork<N(!new)>(g: Graph<N>, rank: N -> nat, cs: seq<N>): nat
    requires Finite(g, rank)
  {
    Work(g, rank, cs, RootBound(rank, cs))
  }

  lemma {:induction false} SiblingWorkStep<N(!new)>(g: Graph<N>, rank: N -> nat, cs: seq<N>)
    requires Finite(g, rank)
    requires cs != []
    ensures SiblingWork(g, rank, cs) == 2 + SiblingWork(g, rank, g.children(cs[0])) + SiblingWork(g, rank, cs[1..])
  {
    var b := RootBound(rank, cs);
    WorkIgnoresBound(g, rank, cs[1..], b, RootBound(rank, cs[1..]));
    WorkIgnoresBound(g, rank, g.children(cs[0]), rank(cs[0]), RootBound(rank, g.children(cs[0])));
  }

  ghost function StackWork<N(!new)>(g: Graph<N>, rank: N -> nat, its: seq<seq<N>>): nat
    requires Finite(g, rank)
  {
    if its == [] then 0 else StackWork(g, rank, Front(its)) + SiblingWork(g, rank, Last(its))
  }

  lemma {:induction false} StackWorkPush<N(!new)>(g: Graph<N>, rank: N -> nat, its: seq<seq<N>>, cs: seq<N>)
    requires Finite(g, rank)
    ensures StackWork(g, rank, its + [cs]) == StackWork(g, rank, its) + SiblingWork(g, rank, cs)
  {
    assert Front(its + [cs]) == its;
  }

  // ---------------------------------------------------------------- machine states

  /** The nodes of a branch, without the end marker of an exhausted level. */
  function Branch<N>(nodes: seq<Option<N>>): (p: seq<N>)
    requires forall i :: 0 <= i < |nodes| - 1 ==> nodes[i].Some?
    ensures |p| == if nodes != [] && Last(nodes).None? then |nodes| - 1 else |nodes|
    ensures forall i :: 0 <= i < |p| ==> nodes[i].Some? && p[i] == nodes[i].value
  {
    seq(if nodes != [] && Last(nodes).None? then |nodes| - 1 else |nodes|,
        i requires 0 <= i < |nodes| && nodes[i].Some? => nodes[i].value)
  }

  ghost predicate StateOk<N(!new)>(g: Graph<N>, rank: N -> nat, nodes: seq<Option<N>>, its: seq<seq<N>>) {
    && Finite(g, rank)
    && nodes != [] && |its| == |nodes|
    && (forall i :: 0 <= i < |nodes| - 1 ==> nodes[i].Some?)
    && (Last(nodes).None? ==> Last(its) == [])
    && Pending(g, rank, Branch(nodes), its[..|Branch(nodes)|])
  }

  /** What the rest of a search does from a state of the machine. */
  ghost function FutureOf<N(!new)>(g: Graph<N>, rank: N -> nat, v: Visitor<N>, nodes: seq<Option<N>>,
                                   its: seq<seq<N>>, calls: seq<Event<N>>): Outcome<N>
    requires StateOk(g, rank, nodes, its)
  {
    var path := Branch(nodes);
    if path == [] then Outcome(calls, None)
    else if Last(nodes).None? then Resume(g, rank, v, path, its[..|path|], calls + [Post(path)])
    else Enter(g, rank, v, path, its[..|path|], calls)
  }

  /** Steps that remain, counting one per open level. */
  ghost function RemainingOf<N(!new)>(g: Graph<N>, rank: N -> nat, nodes: seq<Option<N>>, its: seq<seq<N>>): nat
    requires StateOk(g, rank, nodes, its)
  {
    |nodes| + StackWork(g, rank, its) + if Last(nodes).None? then 0 else SiblingWork(g, rank, [Last(nodes).value])
  }

  /** The level opened on the given siblings. */
  function Opened<N>(siblings: seq<N>): (Option<N>, seq<N>) {
    if siblings == [] then (None, []) else (Some(siblings[0]), siblings[1..])
  }

  /** Entering the current node and opening its children, or an exhausted level, follows the recursive search. */
  lemma {:induction false} EnterStep<N(!new)>(g: Graph<N>, rank: N -> nat, v: Visitor<N>, nodes: seq<Option<N>>,
                           its: seq<seq<N>>, calls: seq<Event<N>>)
    requires StateOk(g, rank, nodes, its) && Last(nodes).Some?
    requires v(calls + [Pre(Branch(nodes))]) != Out
    ensures var entered := calls + [Pre(Branch(nodes))];
            var (node, rest) := Opened(if v(entered) == Over then [] else g.children(Last(nodes).value));
            var nodes', its' := nodes + [node], its + [rest];
            && StateOk(g, rank, nodes', its')
            && FutureOf(g, rank, v, nodes, its, calls)
               == FutureOf(g, rank, v, nodes', its', if node.None? then entered else entered + [Down(Branch(nodes'))])
  {
    var path := Branch(nodes);
    var n := Last(path);
    var entered := calls + [Pre(path)];
    var siblings := if v(entered) == Over then [] else g.children(n);
    assert its[..|path|] == its;
    var nodes', its' := nodes + [Opened(siblings).0], its + [Opened(siblings).1];
    if v(entered) == Over {
      EnterIsSkip(g, rank, v, path, its, calls);
    } else {
      EnterIsPush(g, rank, v, path, its, calls);
    }
    if siblings == [] {
      assert Branch(nodes') == path && its'[..|path|] == its;
    } else {
      assert Branch(nodes') == path + [siblings[0]] && its'[..|path| + 1] == its';
    }
  }

  lemma {:induction false} EnterWork<N(!new)>(g: Graph<N>, rank: N -> nat, nodes: seq<Option<N>>, its: seq<seq<N>>, siblings: seq<N>)
    requires StateOk(g, rank, nodes, its) && Last(nodes).Some?
    requires siblings == [] || siblings == g.children(Last(nodes).value)
    requires StateOk(g, rank, nodes + [Opened(siblings).0], its + [Opened(siblings).1])
    ensures RemainingOf(g, rank, nodes + [Opened(siblings).0], its + [Opened(siblings).1])
            < RemainingOf(g, rank, nodes, its)
  {
    SiblingWorkStep(g, rank, [Last(nodes).value]);
    StackWorkPush(g, rank, its, Opened(siblings).1);
    if siblings != [] {
      SiblingWorkStep(g, rank, siblings);
      SiblingWorkStep(g, rank, [siblings[0]]);
    }
  }

  /** The state once the exhausted level is popped and the level below moved to its next sibling. */
  function NextNodes<N>(nodes: seq<Option<N>>, its: seq<seq<N>>): seq<Option<N>>
    requires |its| == |nodes| > 1
  {
    Front(Front(nodes)) + [Opened(Last(Front(its))).0]
  }

  function NextIterators<N>(its: seq<seq<N>>): seq<seq<N>>
    requires |its| > 1
  {
    Front(Front(its)) + [Opened(Last(Front(its))).1]
  }

  lemma {:induction false} NextBranch<N>(nodes: seq<Option<N>>, its: seq<seq<N>>)
    requires |its| == |nodes| > 1 && Last(nodes).None?
    requires forall i :: 0 <= i < |nodes| - 1 ==> nodes[i].Some?
    ensures var path, popped, nodes', its' := Branch(nodes), Front(its), NextNodes(nodes, its), NextIterators(its);
            && (forall i :: 0 <= i < |nodes'| - 1 ==> nodes'[i].Some?)
            && its[..|path|] == popped
            && Branch(Front(nodes)) == path
            && if Last(popped) == [] then Branch(nodes') == Front(path) && its'[..|path| - 1] == Front(popped)
               else Branch(nodes') == Front(path) + [Last(popped)[0]] && its'[..|path|] == Front(popped) + [Last(popped)[1..]]
  {
  }

  /** The calls made when the parent of an exhausted level is left: none towards or from a root. */
  ghost function CallsOnLeave<N>(nodes: seq<Option<N>>, nodes': seq<Option<N>>, calls: seq<Event<N>>): seq<Event<N>>
    requires forall i :: 0 <= i < |nodes| - 1 ==> nodes[i].Some?
    requires nodes' != [] && forall i :: 0 <= i < |nodes'| - 1 ==> nodes'[i].Some?
  {
    var left := calls + [Post(Branch(nodes))];
    if |nodes| <= 2 then left
    else if Last(nodes').None? then left + [Up(Branch(nodes))]
    else left + [Up(Branch(nodes))] + [Down(Branch(nodes'))]
  }

  /** The last sibling is left: the level below is exhausted too. */
  lemma {:induction false} LeaveLast<N(!new)>(g: Graph<N>, rank: N -> nat, v: Visitor<N>, nodes: seq<Option<N>>,
                                              its: seq<seq<N>>, calls: seq<Event<N>>)
    requires StateOk(g, rank, nodes, its) && Last(nodes).None? && |nodes| > 1 && Last(Front(its)) == []
    ensures StateOk(g, rank, NextNodes(nodes, its), NextIterators(its))
    ensures FutureOf(g, rank, v, nodes, its, calls)
            == FutureOf(g, rank, v, NextNodes(nodes, its), NextIterators(its), CallsOnLeave(nodes, NextNodes(nodes, its), calls))
  {
    NextBranch(nodes, its);
    ResumeAndClose(g, rank, v, Branch(nodes), Front(its), calls + [Post(Branch(nodes))]);
  }

  /** A node is left for its next sibling. */
  lemma {:induction false} LeaveForNext<N(!new)>(g: Graph<N>, rank: N -> nat, v: Visitor<N>, nodes: seq<Option<N>>,
                                                 its: seq<seq<N>>, calls: seq<Event<N>>)
    requires StateOk(g, rank, nodes, its) && Last(nodes).None? && |nodes| > 1 && Last(Front(its)) != []
    ensures StateOk(g, rank, NextNodes(nodes, its), NextIterators(its))
    ensures FutureOf(g, rank, v, nodes, its, calls)
            == FutureOf(g, rank, v, NextNodes(nodes, its), NextIterators(its), CallsOnLeave(nodes, NextNodes(nodes, its), calls))
  {
    NextBranch(nodes, its);
    ResumeAndEnter(g, rank, v, Branch(nodes), Front(its), calls + [Post(Branch(nodes))]);
  }

  /** Leaving the parent of an exhausted level and moving to its next sibling follows the recursive search. */
  lemma {:induction false} LeaveStep<N(!new)>(g: Graph<N>, rank: N -> nat, v: Visitor<N>, nodes: seq<Option<N>>,
                                              its: seq<seq<N>>, calls: seq<Event<N>>)
    requires StateOk(g, rank, nodes, its) && Last(nodes).None? && |nodes| > 1
    ensures StateOk(g, rank, NextNodes(nodes, its), NextIterators(its))
    ensures FutureOf(g, rank, v, nodes, its, calls)
            == FutureOf(g, rank, v, NextNodes(nodes, its), NextIterators(its), CallsOnLeave(nodes, NextNodes(nodes, its), calls))
  {
    if Last(Front(its)) == [] { LeaveLast(g, rank, v, nodes, its, calls); } else { LeaveForNext(g, rank, v, nodes, its, calls); }
  }

  lemma {:induction false} LeaveWork<N(!new)>(g: Graph<N>, rank: N -> nat, nodes: seq<Option<N>>, its: seq<seq<N>>)
    requires StateOk(g, rank, nodes, its) && Last(nodes).None? && |nodes| > 1
    requires StateOk(g, rank, NextNodes(nodes, its), NextIterators(its))
    ensures RemainingOf(g, rank, NextNodes(nodes, its), NextIterators(its)) < RemainingOf(g, rank, nodes, its)
  {
    var below, rest := Front(Front(its)), Last(Front(its));
    assert its == below + [rest] + [[]];
    StackWorkPush(g, rank, below + [rest], []);
    StackWorkPush(g, rank, below, rest);
    if rest != [] {
      SiblingWorkStep(g, rank, rest);
      SiblingWorkStep(g, rank, [rest[0]]);
      StackWorkPush(g, rank, below, rest[1..]);
    }
  }

  /** A search that starts is a search of the roots. */
  lemma {:induction false} StartState<N(!new)>(g: Graph<N>, rank: N -> nat, v: Visitor<N>)
    requires Finite(g, rank)
    ensures var (node, rest) := Opened(g.roots);
            StateOk(g, rank, [node], [rest]) && FutureOf(g, rank, v, [node], [rest], []) == Search(g, rank, v)
  {
    if g.roots != [] {
      assert Branch([Some(g.roots[0])]) == [g.roots[0]];
      assert Front([g.roots[0]]) == [];
      assert [g.roots[1..]][..1] == [g.roots[1..]];
    }
  }

  // ---------------------------------------------------------------- the machine

  class TraversalStack<N(!new)> {
    const graph: Graph<N>
    ghost const rank: N -> nat
    /** Siblings that remain to be visited on each level. */
    var iterators: seq<seq<N>>
    /** Current node of each level; nothing once the level is exhausted. */
    var nodes: seq<Option<N>>

    ghost predicate Valid()
      reads this
    {
      StateOk(graph, rank, nodes, iterators)
    }

    /** The list of nodes handed to the visitor. */
    function Path(): (p: seq<N>)
      requires forall i :: 0 <= i < |nodes| - 1 ==> nodes[i].Some?
      reads this
    {
      Branch(nodes)
    }

    predicate LevelIsDone()
      requires nodes != []
      reads this
    {
      Last(nodes).None?
    }

    predicate IsAtRootLevel()
      reads this
    {
      |nodes| == 1
    }

    predicate IsDone()
      requires nodes != []
      reads this
    {
      IsAtRootLevel() && LevelIsDone()
    }

    ghost function Future(v: Visitor<N>, calls: seq<Event<N>>): Outcome<N>
      requires Valid()
      reads this
    {
      FutureOf(graph, rank, v, nodes, iterators, calls)
    }

    constructor (g: Graph<N>, ghost r: N -> nat)
      requires Finite(g, r)
      ensures Valid() && graph == g && rank == r
      ensures forall v: Visitor<N> :: Future(v, []) == Search(g, r, v)
    {
      graph, rank := g, r;
      iterators, nodes := [], [];
      new;
      PushSiblings(g.roots);
      forall v: Visitor<N> ensures Valid() && Future(v, []) == Search(g, r, v) {
        StartState(g, r, v);
      }
      StartState(g, r, (h: seq<Event<N>>) => Into);
    }

    /** Open a level on the given siblings and place it on the first one. */
    method PushSiblings(siblings: seq<N>)
      modifies this
      ensures iterators == old(iterators) + [Opened(siblings).1]
      ensures nodes == old(nodes) + [Opened(siblings).0]
    {
      if siblings == [] {
        iterators, nodes := iterators + [[]], nodes + [None];
      } else {
        iterators, nodes := iterators + [siblings[1..]], nodes + [Some(siblings[0])];
      }
    }

    method PopLevel()
      requires nodes != [] && |iterators| == |nodes|
      modifies this
      ensures iterators == Front(old(iterators)) && nodes == Front(old(nodes))
    {
      iterators, nodes := Front(iterators), Front(nodes);
    }

    /** Move the current level to its next sibling. */
    method AdvanceNodeRange()
      requires nodes != [] && |iterators| == |nodes|
      modifies this
      ensures nodes == Front(old(nodes)) + [Opened(Last(old(iterators))).0]
      ensures iterators == Front(old(iterators)) + [Opened(Last(old(iterators))).1]
    {
      var rest := Last(iterators);
      if rest == [] {
        nodes, iterators := Front(nodes) + [None], Front(iterators) + [[]];
      } else {
        nodes, iterators := Front(nodes) + [Some(rest[0])], Front(iterators) + [rest[1..]];
      }
    }
  }

  /** The current level is exhausted: leave its parent and move to the next sibling. */
  method LeaveNode<N(!new)>(s: TraversalStack<N>, before: seq<Event<N>>) returns (calls: seq<Event<N>>)
    requires |s.iterators| == |s.nodes| > 1 && s.LevelIsDone()
    requires forall i :: 0 <= i < |s.nodes| - 1 ==> s.nodes[i].Some?
    modifies s
    ensures s.nodes == NextNodes(old(s.nodes), old(s.iterators))
    ensures s.iterators == NextIterators(old(s.iterators))
    ensures calls == CallsOnLeave(old(s.nodes), s.nodes, before)
  {
    ghost var branch := s.Path();
    s.PopLevel();
    assert s.Path() == branch;
    calls := before + [Post(s.Path())];
    if !s.IsAtRootLevel() {
      calls := calls + [Up(s.Path())];
      s.AdvanceNodeRange();
      if !s.LevelIsDone() {
        calls := calls + [Down(s.Path())];
      }
    } else {
      s.AdvanceNodeRange();
    }
  }

  /** Search until the stack is exhausted or the visitor answers `Out`. */
  method RunStack<N(!new)>(s: TraversalStack<N>, v: Visitor<N>) returns (done: bool, calls: seq<Event<N>>)
    requires s.Valid()
    modifies s
    ensures s.Valid()
    ensures done ==> old(s.Future(v, [])) == Outcome(calls, None)
    ensures !done ==>
              && !s.LevelIsDone()
              && old(s.Future(v, [])) == Outcome(CloseAbove(s.Path(), calls + [Post(s.Path())]), Some(Last(s.Path())))
  {
    calls := [];
    while !s.IsDone()
      invariant s.Valid()
      invariant s.Future(v, calls) == old(s.Future(v, []))
      decreases RemainingOf(s.graph, s.rank, s.nodes, s.iterators)
    {
      if !s.LevelIsDone() {
        ghost var before := calls;
        calls := calls + [Pre(s.Path())];
        var step := v(calls);
        if step == Out {
          EnterIsSkip(s.graph, s.rank, v, s.Path(), s.iterators[..|s.Path()|], before);
          return false, calls;
        }
        EnterStep(s.graph, s.rank, v, s.nodes, s.iterators, before);
        var siblings := if step == Over then [] else s.graph.children(Last(s.nodes).value);
        EnterWork(s.graph, s.rank, s.nodes, s.iterators, siblings);
        s.PushSiblings(siblings);
        if !s.LevelIsDone() {
          calls := calls + [Down(s.Path())];
        }
      } else {
        LeaveStep(s.graph, s.rank, v, s.nodes, s.iterators, calls);
        LeaveWork(s.graph, s.rank, s.nodes, s.iterators);
        calls := LeaveNode(s, calls);
      }
    }
    done := true;
  }

  /** End a stopped search: leave every open level up to the roots. */
  method Unwind<N(!new)>(s: TraversalStack<N>, before: seq<Event<N>>) returns (calls: seq<Event<N>>)
    requires s.Valid() && !s.LevelIsDone()
    modifies s
    ensures calls == CloseAbove(old(s.Path()), before + [Post(old(s.Path()))])
  {
    calls := before;
    while !s.IsAtRootLevel()
      invariant s.Valid() && !s.LevelIsDone()
      invariant CloseAbove(s.Path(), calls + [Post(s.Path())])
                == CloseAbove(old(s.Path()), before + [Post(old(s.Path()))])
      decreases |s.nodes|
    {
      label Level:
      ghost var path := s.Path();
      CloseOneLevel(path, calls + [Post(path)]);
      calls := calls + [Post(s.Path())];
      calls := calls + [Up(s.Path())];
      s.PopLevel();
      assert s.Path() == Front(path);
      PendingFront(s.graph, s.rank, path, old@Level(s.iterators[..|path|]));
      assert s.iterators[..|s.Path()|] == Front(old@Level(s.iterators[..|path|]));
    }
    calls := calls + [Post(s.Path())];
  }

  /** The whole search: the calls received by the visitor and the node it stopped on. */
  method DepthFirstSearch<N(!new)>(g: Graph<N>, ghost rank: N -> nat, v: Visitor<N>)
    returns (calls: seq<Event<N>>, stop: Option<N>)
    requires Finite(g, rank)
    ensures Outcome(calls, stop) == Search(g, rank, v)
  {
    var s := new TraversalStack(g, rank);
    var done;
    done, calls := RunStack(s, v);
    stop := None;
    if !done {
      stop := Last(s.nodes);
      calls := Unwind(s, calls);
    }
  }

  // ---------------------------------------------------------------- what a search guarantees

  /**
   Match calls as brackets: `Pre` and `Down` open, `Post` and `Up` close the innermost open call on the same branch.
   A node has a branch of its own, a move has a parent and a child.  The result is what stays open.
   */
  ghost function Match<N>(calls: seq<Event<N>>): Option<seq<Event<N>>>
  {
    if calls == [] then Some([])
    else
      var open := Match(Front(calls));
      if open.None? then None
      else match Last(calls)
      case Pre(p) => if p == [] then None else Some(open.value + [Pre(p)])
      case Down(p) => if |p| < 2 then None else Some(open.value + [Down(p)])
      case Post(p) => if p != [] && open.value != [] && Last(open.value) == Pre(p) then Some(Front(open.value)) else None
      case Up(p) => if open.value != [] && Last(open.value) == Down(p) then Some(Front(open.value)) else None
  }

  lemma {:induction false} MatchStep<N>(calls: seq<Event<N>>, e: Event<N>)
    ensures Front(calls + [e]) == calls && Last(calls + [e]) == e
  {
  }

  /** A visited node leaves the open calls as it found them. */
  lemma {:induction false} NodeIsBalanced<N(!new)>(g: Graph<N>, rank: N -> nat, v: Visitor<N>,
                                                   above: seq<N>, n: N, calls: seq<Event<N>>)
    requires Finite(g, rank)
    requires Match(calls).Some?
    ensures Match(VisitNode(g, rank, v, above, n, calls).calls) == Match(calls)
    decreases rank(n), 1, 0
  {
    var path := above + [n];
    var entered := calls + [Pre(path)];
    MatchStep(calls, Pre(path));
    var inside := entered;
    if v(entered) == Into {
      ChildrenAreBalanced(g, rank, v, path, g.children(n), rank(n), entered);
      inside := VisitChildren(g, rank, v, path, g.children(n), rank(n), entered).calls;
    }
    MatchStep(inside, Post(path));
    var open := Match(calls).value;
    assert Front(open + [Pre(path)]) == open;
  }

  lemma {:induction false} ChildrenAreBalanced<N(!new)>(g: Graph<N>, rank: N -> nat, v: Visitor<N>, path: seq<N>,
                                                        cs: seq<N>, bound: nat, calls: seq<Event<N>>)
    requires Finite(g, rank)
    requires forall c :: c in cs ==> rank(c) < bound
    requires path != [] && Match(calls).Some?
    ensures Match(VisitChildren(g, rank, v, path, cs, bound, calls).calls) == Match(calls)
    decreases bound, 0, |cs|
  {
    if cs != [] {
      var down := Down(path + [cs[0]]);
      MatchStep(calls, down);
      NodeIsBalanced(g, rank, v, path, cs[0], calls + [down]);
      var o := VisitNode(g, rank, v, path, cs[0], calls + [down]);
      MatchStep(o.calls, Up(path + [cs[0]]));
      var open := Match(calls).value;
      assert Front(open + [down]) == open;
      if o.stop.None? {
        ChildrenAreBalanced(g, rank, v, path, cs[1..], bound, o.calls + [Up(path + [cs[0]])]);
      }
    }
  }

  /** Every call of a search is closed, even when the search was stopped. */
  lemma {:induction false} SearchIsBalanced<N(!new)>(g: Graph<N>, rank: N -> nat, v: Visitor<N>)
    requires Finite(g, rank)
    ensures Match(Search(g, rank, v).calls) == Some([])
  {
    RootsAreBalanced(g, rank, v, g.roots, []);
  }

  lemma {:induction false} RootsAreBalanced<N(!new)>(g: Graph<N>, rank: N -> nat, v: Visitor<N>,
                                                     roots: seq<N>, calls: seq<Event<N>>)
    requires Finite(g, rank)
    requires Match(calls) == Some([])
    ensures Match(VisitRoots(g, rank, v, roots, calls).calls) == Some([])
    decreases |roots|
  {
    if roots != [] {
      NodeIsBalanced(g, rank, v, [], roots[0], calls);
      RootsAreBalanced(g, rank, v, roots[1..], VisitNode(g, rank, v, [], roots[0], calls).calls);
    }
  }

  /** The position `i` holds a `pre` call that was answered by `Out`. */
  ghost predicate AsksToStop<N(!new)>(v: Visitor<N>, calls: seq<Event<N>>, i: nat) {
    i < |calls| && calls[i].Pre? && v(calls[..i + 1]) == Out
  }

  /** From position `from` on: no `pre` asks to stop, or only the last one does, and it is on the returned node. */
  ghost predicate StopsAtFirst<N(!new)>(v: Visitor<N>, calls: seq<Event<N>>, from: nat, stop: Option<N>) {
    match stop
    case None => forall i: nat :: from <= i ==> !AsksToStop(v, calls, i)
    case Some(n) =>
      exists i: nat ::
        && from <= i
        && AsksToStop(v, calls, i) && calls[i].path != [] && Last(calls[i].path) == n
        && forall j: nat :: from <= j < |calls| && calls[j].Pre? && j != i ==> j < i && v(calls[..j + 1]) != Out
  }

  /** Calls made after `a` which extend it to `b`, then to `c`. */
  lemma {:induction false} StopsCompose<N(!new)>(v: Visitor<N>, a: seq<Event<N>>, b: seq<Event<N>>, c: seq<Event<N>>, stop: Option<N>)
    requires a <= b <= c
    requires StopsAtFirst(v, b, |a|, None)
    requires StopsAtFirst(v, c, |b|, stop)
    ensures StopsAtFirst(v, c, |a|, stop)
  {
    forall i: nat | |a| <= i < |b| && c[i].Pre? ensures v(c[..i + 1]) != Out {
      assert c[..i + 1] == b[..i + 1] && !AsksToStop(v, b, i);
    }
    if stop.Some? {
      var i: nat :| |b| <= i && AsksToStop(v, c, i) && c[i].path != [] && Last(c[i].path) == stop.value
                    && forall j: nat :: |b| <= j < |c| && c[j].Pre? && j != i ==> j < i && v(c[..j + 1]) != Out;
      forall j: nat | |a| <= j < |c| && c[j].Pre? && j != i ensures j < i && v(c[..j + 1]) != Out {
      }
    }
  }

  /** Closing calls do not change which `pre` asked to stop. */
  lemma {:induction false} StopsThenClose<N(!new)>(v: Visitor<N>, calls: seq<Event<N>>, from: nat, stop: Option<N>, e: Event<N>)
    requires StopsAtFirst(v, calls, from, stop)
    requires !e.Pre?
    ensures StopsAtFirst(v, calls + [e], from, stop)
  {
    var c := calls + [e];
    forall i: nat | i < |calls| ensures c[i] == calls[i] && c[..i + 1] == calls[..i + 1] {}
    if stop.Some? {
      var i: nat :| from <= i && AsksToStop(v, calls, i) && calls[i].path != [] && Last(calls[i].path) == stop.value
                    && forall j: nat :: from <= j < |calls| && calls[j].Pre? && j != i ==> j < i && v(calls[..j + 1]) != Out;
      assert AsksToStop(v, c, i);
    } else {
      forall i: nat | from <= i ensures !AsksToStop(v, c, i) {
        if i < |calls| { assert !AsksToStop(v, calls, i); }
      }
    }
  }

  lemma {:induction false} NodeStops<N(!new)>(g: Graph<N>, rank: N -> nat, v: Visitor<N>,
                                              above: seq<N>, n: N, calls: seq<Event<N>>)
    requires Finite(g, rank)
    ensures var o := VisitNode(g, rank, v, above, n, calls);
            calls <= o.calls && StopsAtFirst(v, o.calls, |calls|, o.stop)
    decreases rank(n), 1, 0
  {
    var path := above + [n];
    var entered := calls + [Pre(path)];
    assert entered[..|entered|] == entered;
    if v(entered) == Out {
      assert AsksToStop(v, entered, |calls|);
      StopsThenClose(v, entered, |calls|, Some(n), Post(path));
    } else {
      assert StopsAtFirst(v, entered, |calls|, None);
      if v(entered) == Into {
        ChildrenStop(g, rank, v, path, g.children(n), rank(n), entered);
        var o := VisitChildren(g, rank, v, path, g.children(n), rank(n), entered);
        StopsCompose(v, calls, entered, o.calls, o.stop);
        StopsThenClose(v, o.calls, |calls|, o.stop, Post(path));
      } else {
        StopsThenClose(v, entered, |calls|, None, Post(path));
      }
    }
  }

  lemma {:induction false} ChildrenStop<N(!new)>(g: Graph<N>, rank: N -> nat, v: Visitor<N>, path: seq<N>,
                                                 cs: seq<N>, bound: nat, calls: seq<Event<N>>)
    requires Finite(g, rank)
    requires forall c :: c in cs ==> rank(c) < bound
    ensures var o := VisitChildren(g, rank, v, path, cs, bound, calls);
            calls <= o.calls && StopsAtFirst(v, o.calls, |calls|, o.stop)
    decreases bound, 0, |cs|
  {
    if cs != [] {
      var down := calls + [Down(path + [cs[0]])];
      NodeStops(g, rank, v, path, cs[0], down);
      var o := VisitNode(g, rank, v, path, cs[0], down);
      StopsCompose(v, calls, down, o.calls, o.stop);
      var back := o.calls + [Up(path + [cs[0]])];
      StopsThenClose(v, o.calls, |calls|, o.stop, Up(path + [cs[0]]));
      if o.stop.None? {
        ChildrenStop(g, rank, v, path, cs[1..], bound, back);
        StopsCompose(v, calls, back, VisitChildren(g, rank, v, path, cs[1..], bound, back).calls,
                     VisitChildren(g, rank, v, path, cs[1..], bound, back).stop);
      }
    }
  }

  lemma {:induction false} RootsStop<N(!new)>(g: Graph<N>, rank: N -> nat, v: Visitor<N>,
                                              roots: seq<N>, calls: seq<Event<N>>)
    requires Finite(g, rank)
    ensures var o := VisitRoots(g, rank, v, roots, calls);
            calls <= o.calls && StopsAtFirst(v, o.calls, |calls|, o.stop)
    decreases |roots|
  {
    if roots != [] {
      NodeStops(g, rank, v, [], roots[0], calls);
      var o := VisitNode(g, rank, v, [], roots[0], calls);
      if o.stop.None? {
        RootsStop(g, rank, v, roots[1..], o.calls);
        StopsCompose(v, calls, o.calls, VisitRoots(g, rank, v, roots[1..], o.calls).calls,
                     VisitRoots(g, rank, v, roots[1..], o.calls).stop);
      }
    }
  }

  /** The returned node is the first one, in the order of the `pre` calls, that asked to stop; no node is entered after it. */
  lemma {:induction false} SearchStopsAtFirst<N(!new)>(g: Graph<N>, rank: N -> nat, v: Visitor<N>)
    requires Finite(g, rank)
    ensures StopsAtFirst(v, Search(g, rank, v).calls, 0, Search(g, rank, v).stop)
  {
    RootsStop(g, rank, v, g.roots, []);
  }
}

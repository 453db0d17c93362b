/** Paths in finite graphs given by adjacency lists, and what a closed set says about them. */
module Reachability {
  import opened Sequences

  function Successors<N>(graph: map<N, seq<N>>, n: N): seq<N> {
    if n in graph then graph[n] else []
  }

  ghost predicate IsPath<N>(graph: map<N, seq<N>>, path: seq<N>) {
    |path| > 0 && forall i :: 0 < i < |path| ==> path[i] in Successors(graph, path[i - 1])
  }

  /** Some path of the graph joins `from` to `to`; every node reaches itself. */
  ghost predicate Reaches<N(!new)>(graph: map<N, seq<N>>, from: N, to: N) {
    exists path :: IsPath(graph, path) && path[0] == from && path[|path| - 1] == to
  }

  ghost predicate ReachedFrom<N(!new)>(graph: map<N, seq<N>>, roots: seq<N>, to: N) {
    exists root :: root in roots && Reaches(graph, root, to)
  }

  lemma ReachesSelf<N(!new)>(graph: map<N, seq<N>>, n: N)
    ensures Reaches(graph, n, n)
  {
    assert IsPath(graph, [n]) && [n][0] == n;
  }

  lemma ReachesOneMore<N(!new)>(graph: map<N, seq<N>>, from: N, via: N, to: N)
    requires Reaches(graph, from, via) && to in Successors(graph, via)
    ensures Reaches(graph, from, to)
  {
    var path :| IsPath(graph, path) && path[0] == from && path[|path| - 1] == via;
    var longer := path + [to];
    assert IsPath(graph, longer) && longer[0] == from && longer[|longer| - 1] == to;
  }

  /** `inside` holds every successor of its members. */
  ghost predicate Closed<N(!new)>(graph: map<N, seq<N>>, inside: set<N>) {
    forall n, m :: n in inside && m in Successors(graph, n) ==> m in inside
  }

  /** A closed set that holds the start of a path holds all of it. */
  lemma {:induction false} ClosedHoldsPath<N(!new)>(graph: map<N, seq<N>>, inside: set<N>, path: seq<N>, k: nat)
    requires Closed(graph, inside)
    requires IsPath(graph, path) && k < |path| && path[0] in inside
    ensures path[k] in inside
  {
    if k > 0 {
      ClosedHoldsPath(graph, inside, path, k - 1);
    }
  }

  lemma ClosedHoldsReachable<N(!new)>(graph: map<N, seq<N>>, inside: set<N>, from: N, to: N)
    requires Closed(graph, inside)
    requires from in inside && Reaches(graph, from, to)
    ensures to in inside
  {
    var path :| IsPath(graph, path) && path[0] == from && path[|path| - 1] == to;
    ClosedHoldsPath(graph, inside, path, |path| - 1);
  }

  /**
   What a worklist keeps: only reachable nodes are expanded or waiting, and every root and
   every successor of an expanded node is one or the other.
   */
  ghost predicate Progress<N(!new)>(graph: map<N, seq<N>>, roots: seq<N>, expanded: set<N>, waiting: seq<N>) {
    && (forall n :: n in expanded ==> ReachedFrom(graph, roots, n))
    && (forall n :: n in waiting ==> ReachedFrom(graph, roots, n))
    && (forall n :: n in roots ==> n in expanded || n in waiting)
    && (forall n, m :: n in expanded && m in Successors(graph, n) ==> m in expanded || m in waiting)
  }

  lemma ProgressStarts<N(!new)>(graph: map<N, seq<N>>, roots: seq<N>)
    ensures Progress(graph, roots, {}, roots)
  {
    forall n | n in roots
      ensures ReachedFrom(graph, roots, n)
    {
      ReachesSelf(graph, n);
    }
  }

  /** Taking `n` off the list may drop it when already expanded. */
  lemma SkipKeeps<N(!new)>(graph: map<N, seq<N>>, roots: seq<N>, expanded: set<N>, waiting: seq<N>, n: N)
    requires Progress(graph, roots, expanded, waiting + [n]) && n in expanded
    ensures Progress(graph, roots, expanded, waiting)
  {
    assert forall m :: m in waiting + [n] <==> m in waiting || m == n;
  }

  /** Expanding `n` puts each successor on the list unless it is already accounted for. */
  lemma ExpandKeeps<N(!new)>(graph: map<N, seq<N>>, roots: seq<N>, expanded: set<N>, waiting: seq<N>, n: N,
                             next: seq<N>)
    requires Progress(graph, roots, expanded, waiting + [n])
    requires forall m :: m in waiting ==> m in next
    requires forall m :: m in next ==> m in waiting || m in Successors(graph, n)
    requires forall m :: m in Successors(graph, n) ==> m in expanded || m == n || m in next
    ensures Progress(graph, roots, expanded + {n}, next)
  {
    assert forall m :: m in waiting + [n] <==> m in waiting || m == n;
    assert ReachedFrom(graph, roots, n) by {
      assert n in waiting + [n];
    }
    var root :| root in roots && Reaches(graph, root, n);
    forall m | m in Successors(graph, n)
      ensures ReachedFrom(graph, roots, m)
    {
      ReachesOneMore(graph, root, n, m);
    }
  }

  /** With nothing waiting, the expanded nodes are exactly those reached from a root. */
  lemma ProgressEnds<N(!new)>(graph: map<N, seq<N>>, roots: seq<N>, expanded: set<N>)
    requires Progress(graph, roots, expanded, [])
    ensures forall n :: n in expanded <==> ReachedFrom(graph, roots, n)
  {
    assert Closed(graph, expanded);
    forall n | ReachedFrom(graph, roots, n)
      ensures n in expanded
    {
      var root :| root in roots && Reaches(graph, root, n);
      ClosedHoldsReachable(graph, expanded, root, n);
    }
  }

  // ------------------------------------------------------------------ marking when pushed

  /** The marked nodes are those expanded and those waiting, and none is both. */
  ghost predicate Marked<N(!new)>(marked: set<N>, expanded: set<N>, waiting: seq<N>) {
    && (forall n :: n in marked <==> n in expanded || n in waiting)
    && (forall n :: n in waiting ==> n !in expanded)
    && NoRepeats(waiting)
  }

  ghost function Mentioned<N(!new)>(graph: map<N, seq<N>>, root: N): set<N> {
    {root} + set n, i | n in graph && 0 <= i < |graph[n]| :: graph[n][i]
  }

  /** Pushes the unmarked nodes of `targets`. */
  method PushUnmarked<N(==, !new)>(targets: seq<N>, ghost expanded: set<N>, marked: set<N>, waiting: seq<N>)
    returns (marked': set<N>, waiting': seq<N>)
    requires Marked(marked, expanded, waiting)
    ensures Marked(marked', expanded, waiting')
    ensures forall m :: m in waiting ==> m in waiting'
    ensures forall m :: m in waiting' ==> m in waiting || m in targets
    ensures forall m :: m in targets ==> m in expanded || m in waiting'
    ensures forall m :: m in marked' <==> m in marked || m in targets
  {
    marked', waiting' := marked, waiting;
    for i := 0 to |targets|
      invariant Marked(marked', expanded, waiting')
      invariant forall m :: m in waiting ==> m in waiting'
      invariant forall m :: m in waiting' ==> m in waiting || m in targets
      invariant forall m :: m in marked' <==> m in marked || m in targets[..i]
    {
      if targets[i] !in marked' {
        marked' := marked' + {targets[i]};
        waiting' := waiting' + [targets[i]];
      }
      assert targets[..i + 1] == targets[..i] + [targets[i]];
    }
    assert targets[..|targets|] == targets;
  }

  /** Pops a node, pushes and marks its unmarked successors, until nothing waits. */
  method Follow<N(==, !new)>(graph: map<N, seq<N>>, root: N) returns (reachable: set<N>)
    ensures forall n :: n in reachable <==> Reaches(graph, root, n)
  {
    reachable := {root};
    var pending := [root];
    ghost var expanded: set<N> := {};
    TracingStarts(graph, root);
    while |pending| > 0
      invariant Tracing(graph, root, expanded, reachable, pending)
      decreases |Mentioned(graph, root) - expanded|
    {
      var n, rest := pending[|pending| - 1], pending[..|pending| - 1];
      TracingPops(graph, root, expanded, reachable, pending);
      var marked, waiting := PushUnmarked(Successors(graph, n), expanded + {n}, reachable, rest);
      TracingPushes(graph, root, expanded, reachable, pending, marked, waiting);
      reachable, pending, expanded := marked, waiting, expanded + {n};
    }
    TracingEnds(graph, root, expanded, reachable, pending);
  }

  /** The loop's invariant. */
  ghost predicate Tracing<N(!new)>(graph: map<N, seq<N>>, root: N, expanded: set<N>, marked: set<N>, waiting: seq<N>) {
    Progress(graph, [root], expanded, waiting) && Marked(marked, expanded, waiting) && marked <= Mentioned(graph, root)
  }

  lemma TracingStarts<N(!new)>(graph: map<N, seq<N>>, root: N)
    ensures Tracing(graph, root, {}, {root}, [root])
  {
    ProgressStarts(graph, [root]);
  }

  lemma TracingPops<N(!new)>(graph: map<N, seq<N>>, root: N, expanded: set<N>, marked: set<N>, waiting: seq<N>)
    requires Tracing(graph, root, expanded, marked, waiting) && |waiting| > 0
    ensures Marked(marked, expanded + {waiting[|waiting| - 1]}, waiting[..|waiting| - 1])
    ensures waiting[|waiting| - 1] in marked && waiting[|waiting| - 1] !in expanded
  {
    LastSplits(waiting);
    PopKeeps(marked, expanded, waiting[..|waiting| - 1], waiting[|waiting| - 1]);
  }

  lemma TracingPushes<N(!new)>(graph: map<N, seq<N>>, root: N, expanded: set<N>, marked: set<N>, waiting: seq<N>,
                               marked': set<N>, waiting': seq<N>)
    requires Tracing(graph, root, expanded, marked, waiting) && |waiting| > 0
    requires var n, rest := waiting[|waiting| - 1], waiting[..|waiting| - 1];
             && n in marked && n !in expanded
             && Marked(marked', expanded + {n}, waiting')
             && (forall m :: m in rest ==> m in waiting')
             && (forall m :: m in waiting' ==> m in rest || m in Successors(graph, n))
             && (forall m :: m in Successors(graph, n) ==> m in expanded + {n} || m in waiting')
             && (forall m :: m in marked' <==> m in marked || m in Successors(graph, n))
    ensures var n := waiting[|waiting| - 1];
            && Tracing(graph, root, expanded + {n}, marked', waiting')
            && |Mentioned(graph, root) - (expanded + {n})| < |Mentioned(graph, root) - expanded|
  {
    var n, rest := waiting[|waiting| - 1], waiting[..|waiting| - 1];
    LastSplits(waiting);
    ExpandKeeps(graph, [root], expanded, rest, n, waiting');
    SuccessorsMentioned(graph, root, n);
    OneLessLeft(Mentioned(graph, root), expanded, n);
  }

  lemma SuccessorsMentioned<N(!new)>(graph: map<N, seq<N>>, root: N, n: N)
    ensures forall m :: m in Successors(graph, n) ==> m in Mentioned(graph, root)
  {
    forall m | m in Successors(graph, n)
      ensures m in Mentioned(graph, root)
    {
      var i :| 0 <= i < |graph[n]| && graph[n][i] == m;
    }
  }

  lemma TracingEnds<N(!new)>(graph: map<N, seq<N>>, root: N, expanded: set<N>, marked: set<N>, waiting: seq<N>)
    requires Tracing(graph, root, expanded, marked, waiting) && |waiting| == 0
    ensures forall n :: n in marked <==> Reaches(graph, root, n)
  {
    assert waiting == [];
    ProgressEnds(graph, [root], expanded);
    forall n
      ensures ReachedFrom(graph, [root], n) <==> Reaches(graph, root, n)
    {
      if Reaches(graph, root, n) {
        assert root in [root];
      }
    }
  }

  lemma PopKeeps<N(!new)>(marked: set<N>, expanded: set<N>, waiting: seq<N>, n: N)
    requires Marked(marked, expanded, waiting + [n])
    ensures Marked(marked, expanded + {n}, waiting)
    ensures n in marked && n !in expanded
  {
    var all := waiting + [n];
    assert forall m :: m in all <==> m in waiting || m == n;
    assert all[|waiting|] == n;
    forall m | m in waiting
      ensures m != n
    {
      var i :| 0 <= i < |waiting| && waiting[i] == m;
      assert all[i] != all[|waiting|];
    }
    forall i, j | 0 <= i < j < |waiting|
      ensures waiting[i] != waiting[j]
    {
      assert all[i] != all[j];
    }
  }

  lemma OneLessLeft<N>(all: set<N>, done: set<N>, x: N)
    requires x in all && x !in done
    ensures |all - (done + {x})| < |all - done|
  {
    assert all - (done + {x}) == all - done - {x};
  }
}

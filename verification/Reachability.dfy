/** Reachability in a finite graph, and what a depth-first marking establishes. */
module Reachability {

  type Graph<T> = map<T, set<T>>

  /** Nodes at most `n` edges away from `from`. */
  ghost function ReachIn<T>(g: Graph<T>, from: set<T>, n: nat): set<T> {
    if n == 0 then from
    else
      var r := ReachIn(g, from, n - 1);
      r + (set x, y | x in r && x in g && y in g[x] :: y)
  }

  ghost predicate Reachable<T>(g: Graph<T>, from: set<T>, node: T) {
    exists n: nat :: node in ReachIn(g, from, n)
  }

  lemma {:induction false} ReachMonotone<T>(g: Graph<T>, from: set<T>, from': set<T>, n: nat)
    requires from <= from'
    ensures ReachIn(g, from, n) <= ReachIn(g, from', n)
  {
    if n > 0 { ReachMonotone(g, from, from', n - 1); }
  }

  /** Starting one edge further takes one step more. */
  lemma {:induction false} ReachFromEdges<T>(g: Graph<T>, x: T, n: nat)
    requires x in g
    ensures ReachIn(g, g[x], n) <= ReachIn(g, {x}, n + 1)
  {
    if n == 0 {
      assert ReachIn(g, {x}, 0) == {x};
    } else {
      ReachFromEdges(g, x, n - 1);
    }
  }

  /** A set that holds the start and every edge out of it holds all that is reachable. */
  lemma {:induction false} ClosedHoldsReach<T>(g: Graph<T>, from: set<T>, closed: set<T>, n: nat)
    requires from <= closed && forall x | x in closed && x in g :: g[x] <= closed
    ensures ReachIn(g, from, n) <= closed
  {
    if n > 0 { ClosedHoldsReach(g, from, closed, n - 1); }
  }

  /** Marking from `starts` led from the marks `m0` to `m1`: every start is marked,
      and every new mark is justified and has its successors marked. */
  ghost predicate Traversed<T>(g: Graph<T>, starts: set<T>, m0: set<T>, m1: set<T>) {
    && m0 <= m1 && starts <= m1
    && forall x | x in m1 && x !in m0 :: x in g && g[x] <= m1 && Reachable(g, starts, x)
  }

  lemma TraversedThen<T>(g: Graph<T>, s1: set<T>, s2: set<T>, m0: set<T>, m1: set<T>, m2: set<T>)
    requires Traversed(g, s1, m0, m1) && Traversed(g, s2, m1, m2)
    ensures Traversed(g, s1 + s2, m0, m2)
  {
    forall x | x in m2 && x !in m0 ensures x in g && g[x] <= m2 && Reachable(g, s1 + s2, x) {
      var s := if x in m1 then s1 else s2;
      var n: nat :| x in ReachIn(g, s, n);
      ReachMonotone(g, s, s1 + s2, n);
    }
  }

  /** Marking a node and then everything it leads to. */
  lemma TraversedNode<T>(g: Graph<T>, node: T, m0: set<T>, m1: set<T>)
    requires node in g && node !in m0 && Traversed(g, g[node], m0 + {node}, m1)
    ensures Traversed(g, {node}, m0, m1)
  {
    assert node in ReachIn(g, {node}, 0);
    forall x | x in m1 && x !in m0 && x != node ensures Reachable(g, {node}, x) {
      var n: nat :| x in ReachIn(g, g[node], n);
      ReachFromEdges(g, node, n);
    }
  }

  /** Marking from nothing marks exactly what is reachable. */
  lemma TraversedExact<T>(g: Graph<T>, starts: set<T>, m: set<T>, x: T)
    requires Traversed(g, starts, {}, m)
    ensures x in m <==> Reachable(g, starts, x)
  {
    if Reachable(g, starts, x) {
      var n: nat :| x in ReachIn(g, starts, n);
      ClosedHoldsReach(g, starts, m, n);
    }
  }

  /** A traversal that stays among the `young` misses none of them that can be
      reached, if it also starts from every young node that a node outside leads to:
      a path through nodes outside comes back only through one of those. */
  lemma {:induction false} YoungCovered<T>(full: Graph<T>, g: Graph<T>, young: set<T>, roots: set<T>, m: set<T>, n: nat)
    requires g.Keys == full.Keys && forall x | x in full :: g[x] == full[x] * young
    requires roots * young <= m && forall x | x in m && x in g :: g[x] <= m
    requires forall x | x in full && x !in young :: full[x] * young <= m
    ensures ReachIn(full, roots, n) * young <= m
  {
    if n > 0 { YoungCovered(full, g, young, roots, m, n - 1); }
  }

  /** What a traversal among the `young` marks is young. */
  lemma MarksYoung<T>(g: Graph<T>, starts: set<T>, young: set<T>, m: set<T>)
    requires Traversed(g, starts, {}, m) && starts <= young && forall x | x in g :: g[x] <= young
    ensures m <= young
  {
    forall x | x in m ensures x in young {
      var n: nat :| x in ReachIn(g, starts, n);
      ClosedHoldsReach(g, starts, young, n);
    }
  }

  /** `g` is `full` seen among the `young`, and a traversal that begins at `starts`
      misses no young node that a root or a node outside leads to. */
  ghost predicate Covered<T>(full: Graph<T>, g: Graph<T>, young: set<T>, roots: set<T>, starts: set<T>) {
    && g.Keys == full.Keys && (forall x | x in full :: full[x] <= full.Keys && g[x] == full[x] * young)
    && young <= full.Keys && roots <= full.Keys && starts <= young && roots * young <= starts
    && forall x | x in full && x !in young :: full[x] * young <= starts
  }

  ghost predicate ClosedUnder<T>(full: Graph<T>, roots: set<T>, kept: set<T>) {
    roots <= kept && forall x | x in kept :: x in full && full[x] <= kept
  }

  /** What survives when the traversal decides about the young. */
  ghost function Survivors<T>(g: Graph<T>, young: set<T>, starts: set<T>): set<T> {
    set x | x in g && (x !in young || Reachable(g, starts, x))
  }

  /** Keeping what is outside `young` and what was marked inside loses nothing that
      something kept leads to, and nothing that can be reached. */
  lemma KeptIsClosed<T>(full: Graph<T>, g: Graph<T>, young: set<T>, roots: set<T>, starts: set<T>, m: set<T>)
    requires Covered(full, g, young, roots, starts) && Traversed(g, starts, {}, m)
    ensures m <= young && full.Keys - young + m == Survivors(g, young, starts)
    ensures ClosedUnder(full, roots, full.Keys - young + m)
    ensures forall x | x in full && Reachable(full, roots, x) :: x in full.Keys - young + m
  {
    MarksYoung(g, starts, young, m);
    var kept := full.Keys - young + m;
    forall x | x in full ensures x in kept <==> x in Survivors(g, young, starts) {
      TraversedExact(g, starts, m, x);
    }
    forall x | x in full && Reachable(full, roots, x) ensures x in kept {
      var n: nat :| x in ReachIn(full, roots, n);
      YoungCovered(full, g, young, roots, m, n);
      ClosedHoldsReach(full, roots, full.Keys, n);
    }
  }
}

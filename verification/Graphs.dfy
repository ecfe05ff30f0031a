/** Directed graphs over task ids, as used by the dependency audits: paths,
    reachability, cycles, and the two facts every graph algorithm below rests on.
    A relation that strictly climbs along some rank has no cycle, and a finite
    non-empty set in which every node has a predecessor inside the set has one. */
module Graphs {
  import opened Collections

  /** Task ids are "T0", "T1", ...; the model keeps the number. */
  type Node = nat

  type Rel = set<(Node, Node)>

  datatype EdgeKind = DependsOn | OtherKind

  /** A graph edge; for DependsOn, source depends on target. */
  datatype Edge = Edge(kind: EdgeKind, source: Node, target: Node)

  ghost predicate Linked(e: Rel, p: seq<Node>, i: nat)
    requires i + 1 < |p|
  {
    (p[i], p[i + 1]) in e
  }

  ghost predicate IsPath(e: Rel, p: seq<Node>)
  {
    && |p| > 0
    && forall i: nat | i + 1 < |p| :: Linked(e, p, i)
  }

  ghost predicate Connects(e: Rel, p: seq<Node>, a: Node, b: Node)
  {
    IsPath(e, p) && p[0] == a && p[|p| - 1] == b
  }

  ghost predicate Reach(e: Rel, a: Node, b: Node)
  {
    exists p :: Connects(e, p, a, b)
  }

  /** A directed cycle is a path with at least one edge that returns to its start. */
  ghost predicate IsCycle(e: Rel, p: seq<Node>)
  {
    IsPath(e, p) && |p| >= 2 && p[0] == p[|p| - 1]
  }

  ghost predicate Acyclic(e: Rel)
  {
    forall p :: !IsCycle(e, p)
  }

  lemma ReachSelf(e: Rel, a: Node)
    ensures Reach(e, a, a)
  {
    assert Connects(e, [a], a, a);
  }

  lemma ReachStep(e: Rel, a: Node, b: Node, c: Node)
    requires Reach(e, a, b) && (b, c) in e
    ensures Reach(e, a, c)
  {
    var p :| Connects(e, p, a, b);
    var q := p + [c];
    forall i: nat | i + 1 < |q| ensures Linked(e, q, i) {
      assert i + 1 < |p| ==> Linked(e, p, i);
    }
    assert Connects(e, q, a, c);
  }

  /** Everything on a path from inside a set closed under e stays inside. */
  lemma {:induction false} ClosedPath(e: Rel, s: set<Node>, p: seq<Node>)
    requires IsPath(e, p) && p[0] in s
    requires forall u, v | u in s && (u, v) in e :: v in s
    ensures p[|p| - 1] in s
  {
    if |p| > 1 {
      assert Linked(e, p, 0);
      var q := p[1..];
      forall i: nat | i + 1 < |q| ensures Linked(e, q, i) {
        assert Linked(e, p, i + 1);
      }
      ClosedPath(e, s, q);
    }
  }

  lemma ClosedReach(e: Rel, s: set<Node>, a: Node, b: Node)
    requires Reach(e, a, b) && a in s
    requires forall u, v | u in s && (u, v) in e :: v in s
    ensures b in s
  {
    var p :| Connects(e, p, a, b);
    ClosedPath(e, s, p);
  }

  lemma PathMonotone(e: Rel, f: Rel, p: seq<Node>)
    requires IsPath(e, p) && e <= f
    ensures IsPath(f, p)
  {
    forall i: nat | i + 1 < |p| ensures Linked(f, p, i) {
      assert Linked(e, p, i);
    }
  }

  lemma ReachMonotone(e: Rel, f: Rel, a: Node, b: Node)
    requires Reach(e, a, b) && e <= f
    ensures Reach(f, a, b)
  {
    var p :| Connects(e, p, a, b);
    PathMonotone(e, f, p);
    assert Connects(f, p, a, b);
  }

  lemma AcyclicMonotone(e: Rel, f: Rel)
    requires e <= f && Acyclic(f)
    ensures Acyclic(e)
  {
    forall p ensures !IsCycle(e, p) {
      if IsCycle(e, p) {
        PathMonotone(e, f, p);
        assert IsCycle(f, p);
      }
    }
  }

  // ---- acyclic from a rank ----

  /** Position of a node in a list, or the list's length when absent. */
  function Position(order: seq<Node>, x: Node): (k: nat)
    ensures k <= |order|
    ensures k < |order| ==> order[k] == x
    ensures k == |order| <==> x !in order
  {
    if order == [] then 0
    else if order[0] == x then 0
    else 1 + Position(order[1..], x)
  }

  lemma {:induction false} PositionAppend(s: seq<Node>, x: Node, y: Node)
    ensures Position(s + [x], y) == if y in s then Position(s, y) else if x == y then |s| else |s| + 1
  {
    if s != [] {
      assert (s + [x])[1..] == s[1..] + [x];
      PositionAppend(s[1..], x, y);
    }
  }

  ghost predicate Climbs(e: Rel, rank: Node -> int)
  {
    forall u, v | (u, v) in e :: rank(u) < rank(v)
  }

  lemma {:induction false} PathClimbs(e: Rel, rank: Node -> int, p: seq<Node>, k: nat)
    requires Climbs(e, rank) && IsPath(e, p) && 1 <= k < |p|
    ensures rank(p[0]) < rank(p[k])
  {
    assert Linked(e, p, k - 1);
    if k > 1 {
      PathClimbs(e, rank, p, k - 1);
    }
  }

  lemma ClimbingIsAcyclic(e: Rel, rank: Node -> int)
    requires Climbs(e, rank)
    ensures Acyclic(e)
  {
    forall p ensures !IsCycle(e, p) {
      if IsCycle(e, p) {
        PathClimbs(e, rank, p, |p| - 1);
      }
    }
  }

  // ---- a cycle from a stuck set ----

  lemma {:induction false} DistinctFits(p: seq<Node>, s: set<Node>)
    requires NoRepeat(p) && forall x | x in p :: x in s
    ensures |p| <= |s|
    ensures |p| == |s| ==> forall x | x in s :: x in p
  {
    if p != [] {
      var q := p[1..];
      assert forall x | x in q :: x in s - {p[0]} by {
        forall x | x in q ensures x in s - {p[0]} {
          var i :| 0 <= i < |q| && q[i] == x;
          assert p[0] != p[i + 1];
        }
      }
      DistinctFits(q, s - {p[0]});
      if |p| == |s| {
        forall x | x in s ensures x in p {
          assert x == p[0] || x in q;
        }
      }
    }
  }

  ghost predicate HasPredecessor(e: Rel, r: set<Node>, v: Node)
  {
    exists u | u in r :: (u, v) in e
  }

  /** Every node of r has a predecessor in r. */
  ghost predicate Stuck(e: Rel, r: set<Node>)
  {
    r != {} && forall v {:trigger HasPredecessor(e, r, v)} | v in r :: HasPredecessor(e, r, v)
  }

  /** Walking backwards inside a stuck set never has to stop. */
  lemma {:induction false} BackwardWalk(e: Rel, r: set<Node>, n: nat) returns (p: seq<Node>)
    requires Stuck(e, r)
    ensures |p| == n + 1 && IsPath(e, p) && forall x | x in p :: x in r
  {
    if n == 0 {
      var v :| v in r;
      p := [v];
    } else {
      var q := BackwardWalk(e, r, n - 1);
      assert q[0] in q;
      assert HasPredecessor(e, r, q[0]);
      var u :| u in r && (u, q[0]) in e;
      p := [u] + q;
      forall i: nat | i + 1 < |p| ensures Linked(e, p, i) {
        assert i > 0 ==> Linked(e, q, i - 1);
      }
    }
  }

  lemma StuckHasCycle(e: Rel, r: set<Node>)
    requires Stuck(e, r)
    ensures !Acyclic(e)
  {
    var p := BackwardWalk(e, r, |r|);
    if NoRepeat(p) {
      DistinctFits(p, r);
      assert false;
    }
    var i, j :| 0 <= i < j < |p| && p[i] == p[j];
    var c := p[i..j + 1];
    forall k: nat | k + 1 < |c| ensures Linked(e, c, k) {
      assert Linked(e, p, i + k);
    }
    assert IsCycle(e, c);
  }
}

/** Kahn's acyclicity test and the random DAG generator built on it
    (scripts/d3_heavy_audit.py). */
module Kahn {
  import opened Collections
  import opened Graphs

  predicate Inner(nodes: seq<Node>, e: Edge)
  {
    e.kind == DependsOn && e.source in nodes && e.target in nodes
  }

  /** The depends_on edges whose two ends are both listed nodes. */
  ghost function InnerRel(nodes: seq<Node>, edges: seq<Edge>): Rel
  {
    set e | e in edges && e.kind == DependsOn && e.source in nodes && e.target in nodes :: (e.source, e.target)
  }

  /** The adjacency list of u: one entry per inner edge leaving u, in edge order. */
  function Targets(nodes: seq<Node>, edges: seq<Edge>, u: Node): seq<Node>
  {
    if edges == [] then []
    else
      var rest := Targets(nodes, edges[..|edges| - 1], u);
      var e := edges[|edges| - 1];
      if Inner(nodes, e) && e.source == u then rest + [e.target] else rest
  }

  /** How many inner edges enter v from outside `popped`, duplicates counted. */
  ghost function Pending(nodes: seq<Node>, edges: seq<Edge>, popped: set<Node>, v: Node): nat
  {
    if edges == [] then 0
    else
      var e := edges[|edges| - 1];
      Pending(nodes, edges[..|edges| - 1], popped, v)
      + if Inner(nodes, e) && e.target == v && e.source !in popped then 1 else 0
  }

  lemma {:induction false} PendingSplit(nodes: seq<Node>, edges: seq<Edge>, popped: set<Node>, u: Node, v: Node)
    requires u !in popped
    ensures Pending(nodes, edges, popped, v)
         == Pending(nodes, edges, popped + {u}, v) + multiset(Targets(nodes, edges, u))[v]
  {
    if edges != [] {
      PendingSplit(nodes, edges[..|edges| - 1], popped, u, v);
    }
  }

  lemma {:induction false} PendingZero(nodes: seq<Node>, edges: seq<Edge>, popped: set<Node>, v: Node)
    ensures Pending(nodes, edges, popped, v) == 0
       <==> forall e | e in edges && Inner(nodes, e) && e.target == v :: e.source in popped
  {
    if edges != [] {
      var init, last := edges[..|edges| - 1], edges[|edges| - 1];
      PendingZero(nodes, init, popped, v);
      assert forall e :: e in edges <==> e in init || e == last;
    }
  }

  lemma {:induction false} TargetsInside(nodes: seq<Node>, edges: seq<Edge>, u: Node)
    ensures forall v | v in Targets(nodes, edges, u) :: v in nodes
  {
    if edges != [] {
      TargetsInside(nodes, edges[..|edges| - 1], u);
    }
  }

  // ---- the counters of the main loop ----

  /** indeg counts what is pending, and the zero entries are exactly the nodes
      already popped or queued. */
  ghost predicate Counted(nodes: seq<Node>, edges: seq<Edge>, popped: seq<Node>, q: seq<Node>,
                          extra: multiset<Node>, indeg: map<Node, int>)
  {
    && indeg.Keys == Elements(nodes)
    && NoRepeat(popped + q)
    && (forall x | x in popped + q :: x in nodes)
    && (forall v | v in indeg :: indeg[v] == Pending(nodes, edges, Elements(popped), v) + extra[v])
    && (forall v | v in indeg :: indeg[v] == 0 <==> v in popped + q)
  }

  /** Popped nodes come after all their predecessors. */
  ghost predicate Ordered(rel: Rel, popped: seq<Node>)
  {
    forall u, v | (u, v) in rel && v in popped :: Position(popped, u) < Position(popped, v)
  }

  lemma OrderedPop(nodes: seq<Node>, edges: seq<Edge>, popped: seq<Node>, u: Node)
    requires Ordered(InnerRel(nodes, edges), popped)
    requires u !in popped && Pending(nodes, edges, Elements(popped), u) == 0
    ensures Ordered(InnerRel(nodes, edges), popped + [u])
  {
    PendingZero(nodes, edges, Elements(popped), u);
    var rel := InnerRel(nodes, edges);
    forall a, b | (a, b) in rel && b in popped + [u]
      ensures Position(popped + [u], a) < Position(popped + [u], b)
    {
      PositionAppend(popped, u, a);
      PositionAppend(popped, u, b);
      var e :| e in edges && Inner(nodes, e) && a == e.source && b == e.target;
    }
  }

  lemma PopOne(nodes: seq<Node>, edges: seq<Edge>, popped: seq<Node>, q: seq<Node>, indeg: map<Node, int>)
    requires q != [] && Counted(nodes, edges, popped, q, multiset{}, indeg)
    ensures Pending(nodes, edges, Elements(popped), q[0]) == 0 && q[0] in nodes && q[0] !in popped
    ensures Counted(nodes, edges, popped + [q[0]], q[1..], multiset(Targets(nodes, edges, q[0])), indeg)
  {
    var u := q[0];
    assert (popped + q)[|popped|] == u;
    assert popped + [u] + q[1..] == popped + q;
    assert Elements(popped + [u]) == Elements(popped) + {u};
    forall i | 0 <= i < |popped| ensures popped[i] != u {
      assert (popped + q)[i] != (popped + q)[|popped|];
    }
    forall v | v in nodes
      ensures indeg[v] == Pending(nodes, edges, Elements(popped + [u]), v) + multiset(Targets(nodes, edges, u))[v]
    {
      PendingSplit(nodes, edges, Elements(popped), u, v);
    }
  }

  lemma AllPopped(nodes: seq<Node>, edges: seq<Edge>, popped: seq<Node>)
    requires NoRepeat(nodes) && NoRepeat(popped) && |popped| == |nodes|
    requires forall x | x in popped :: x in nodes
    requires Ordered(InnerRel(nodes, edges), popped)
    ensures Acyclic(InnerRel(nodes, edges))
  {
    DistinctFits(nodes, Elements(nodes));
    SameSize(nodes);
    DistinctFits(popped, Elements(nodes));
    ClimbingIsAcyclic(InnerRel(nodes, edges), (x: Node) => Position(popped, x));
  }

  lemma StuckRemainder(nodes: seq<Node>, edges: seq<Edge>, popped: seq<Node>, indeg: map<Node, int>)
    requires NoRepeat(nodes) && |popped| != |nodes|
    requires Counted(nodes, edges, popped, [], multiset{}, indeg)
    ensures !Acyclic(InnerRel(nodes, edges))
  {
    var rel, rest := InnerRel(nodes, edges), Elements(nodes) - Elements(popped);
    assert popped + [] == popped;
    assert Elements(popped) <= Elements(nodes);
    SameSize(nodes);
    SameSize(popped);
    assert Elements(popped) != Elements(nodes);
    var x :| x in Elements(nodes) && x !in Elements(popped);
    assert x in rest;
    forall v | v in rest ensures HasPredecessor(rel, rest, v) {
      PendingZero(nodes, edges, Elements(popped), v);
      var e :| e in edges && Inner(nodes, e) && e.target == v && e.source !in popped;
      assert (e.source, v) in rel;
    }
    StuckHasCycle(rel, rest);
  }

  ghost predicate Listed(nodes: seq<Node>, edges: seq<Edge>, adj: map<Node, seq<Node>>)
  {
    adj.Keys == Elements(nodes) && forall n | n in adj :: adj[n] == Targets(nodes, edges, n)
  }

  ghost predicate Tallied(nodes: seq<Node>, edges: seq<Edge>, indeg: map<Node, int>)
  {
    indeg.Keys == Elements(nodes) && forall n | n in indeg :: indeg[n] == Pending(nodes, edges, {}, n)
  }

  lemma OneMoreEdge(nodes: seq<Node>, edges: seq<Edge>, e: Edge, n: Node)
    ensures Targets(nodes, edges + [e], n)
         == if Inner(nodes, e) && e.source == n then Targets(nodes, edges, n) + [e.target] else Targets(nodes, edges, n)
    ensures Pending(nodes, edges + [e], {}, n)
         == if Inner(nodes, e) && e.target == n then Pending(nodes, edges, {}, n) + 1 else Pending(nodes, edges, {}, n)
  {
    assert (edges + [e])[..|edges|] == edges;
  }

  lemma OuterEdge(nodes: seq<Node>, edges: seq<Edge>, e: Edge, adj: map<Node, seq<Node>>, indeg: map<Node, int>)
    requires Listed(nodes, edges, adj) && Tallied(nodes, edges, indeg) && !Inner(nodes, e)
    ensures Listed(nodes, edges + [e], adj) && Tallied(nodes, edges + [e], indeg)
  {
    forall n
      ensures Targets(nodes, edges + [e], n) == Targets(nodes, edges, n)
      ensures Pending(nodes, edges + [e], {}, n) == Pending(nodes, edges, {}, n)
    {
      OneMoreEdge(nodes, edges, e, n);
    }
  }

  lemma ListedNext(nodes: seq<Node>, edges: seq<Edge>, e: Edge, adj: map<Node, seq<Node>>, adj': map<Node, seq<Node>>)
    requires Listed(nodes, edges, adj) && Inner(nodes, e) && adj' == adj[e.source := adj[e.source] + [e.target]]
    ensures Listed(nodes, edges + [e], adj')
  {
    assert e.source in adj.Keys;
    assert adj'.Keys == adj.Keys;
    forall n | n in adj' ensures adj'[n] == Targets(nodes, edges + [e], n) {
      OneMoreEdge(nodes, edges, e, n);
    }
  }

  lemma TalliedNext(nodes: seq<Node>, edges: seq<Edge>, e: Edge, indeg: map<Node, int>, indeg': map<Node, int>)
    requires Tallied(nodes, edges, indeg) && Inner(nodes, e) && indeg' == indeg[e.target := indeg[e.target] + 1]
    ensures Tallied(nodes, edges + [e], indeg')
  {
    assert e.target in indeg.Keys;
    assert indeg'.Keys == indeg.Keys;
    forall n | n in indeg' ensures indeg'[n] == Pending(nodes, edges + [e], {}, n) {
      OneMoreEdge(nodes, edges, e, n);
    }
  }

  lemma NoEdges(nodes: seq<Node>, edges: seq<Edge>, adj: map<Node, seq<Node>>, indeg: map<Node, int>)
    requires edges == [] && adj == (map n | n in nodes :: []) && indeg == (map n | n in nodes :: 0)
    ensures Listed(nodes, edges, adj) && Tallied(nodes, edges, indeg)
  {
    assert adj.Keys == Elements(nodes) && indeg.Keys == Elements(nodes);
  }

  /** The adjacency lists and in-degree counters, built edge by edge. */
  method BuildCounters(nodes: seq<Node>, edges: seq<Edge>)
    returns (adj: map<Node, seq<Node>>, indeg: map<Node, int>)
    ensures adj.Keys == indeg.Keys == Elements(nodes)
    ensures forall n | n in nodes :: adj[n] == Targets(nodes, edges, n)
    ensures forall n | n in nodes :: indeg[n] == Pending(nodes, edges, {}, n)
  {
    adj := map n | n in nodes :: [];
    indeg := map n | n in nodes :: 0;
    NoEdges(nodes, edges[..0], adj, indeg);
    for i := 0 to |edges|
      invariant Listed(nodes, edges[..i], adj) && Tallied(nodes, edges[..i], indeg)
    {
      adj, indeg := CountEdge(nodes, edges[..i], edges[i], adj, indeg);
      assert edges[..i + 1] == edges[..i] + [edges[i]];
    }
    assert edges[..|edges|] == edges;
  }

  /** One edge of the counting loop. */
  method CountEdge(nodes: seq<Node>, ghost edges: seq<Edge>, e: Edge, adj: map<Node, seq<Node>>, indeg: map<Node, int>)
    returns (adj': map<Node, seq<Node>>, indeg': map<Node, int>)
    requires Listed(nodes, edges, adj) && Tallied(nodes, edges, indeg)
    ensures Listed(nodes, edges + [e], adj') && Tallied(nodes, edges + [e], indeg')
  {
    adj', indeg' := adj, indeg;
    if Inner(nodes, e) {
      adj' := adj[e.source := adj[e.source] + [e.target]];
      indeg' := indeg[e.target := indeg[e.target] + 1];
      ListedNext(nodes, edges, e, adj, adj');
      TalliedNext(nodes, edges, e, indeg, indeg');
    } else {
      OuterEdge(nodes, edges, e, adj, indeg);
    }
  }

  /** Returns true exactly when the depends_on edges inside the node list have no
      directed cycle. Repeated edges, self-loops and foreign ends are all allowed. */
  method ValidTopo(nodes: seq<Node>, edges: seq<Edge>) returns (ok: bool)
    requires NoRepeat(nodes)
    ensures ok <==> Acyclic(InnerRel(nodes, edges))
  {
    var adj, indeg := BuildCounters(nodes, edges);
    var q := Sources(nodes, indeg);
    var seen := 0;
    ghost var popped: seq<Node> := [];
    StartCounted(nodes, edges, q, indeg);
    while q != []
      invariant seen == |popped| && |popped| + |q| <= |nodes|
      invariant Counted(nodes, edges, popped, q, multiset{}, indeg)
      invariant Ordered(InnerRel(nodes, edges), popped)
      decreases |nodes| - seen
    {
      var u := q[0];
      PopOne(nodes, edges, popped, q, indeg);
      OrderedPop(nodes, edges, popped, u);
      TargetsInside(nodes, edges, u);
      popped, q := popped + [u], q[1..];
      seen := seen + 1;
      q, indeg := Relax(nodes, edges, popped, q, adj[u], indeg);
      StillRoom(nodes, popped, q);
    }
    Finished(nodes, edges, popped, indeg);
    return seen == |nodes|;
  }

  lemma StartCounted(nodes: seq<Node>, edges: seq<Edge>, q: seq<Node>, indeg: map<Node, int>)
    requires NoRepeat(nodes) && indeg.Keys == Elements(nodes)
    requires forall n | n in nodes :: indeg[n] == Pending(nodes, edges, {}, n)
    requires NoRepeat(q) && forall n :: n in q <==> n in nodes && indeg[n] == 0
    ensures Counted(nodes, edges, [], q, multiset{}, indeg) && |q| <= |nodes|
  {
    assert [] + q == q;
    assert Elements<Node>([]) == {};
    StillRoom(nodes, [], q);
  }

  lemma Finished(nodes: seq<Node>, edges: seq<Edge>, popped: seq<Node>, indeg: map<Node, int>)
    requires NoRepeat(nodes) && Counted(nodes, edges, popped, [], multiset{}, indeg)
    requires Ordered(InnerRel(nodes, edges), popped)
    ensures |popped| == |nodes| <==> Acyclic(InnerRel(nodes, edges))
  {
    assert popped + [] == popped;
    if |popped| == |nodes| {
      AllPopped(nodes, edges, popped);
    } else {
      StuckRemainder(nodes, edges, popped, indeg);
    }
  }

  lemma StillRoom(nodes: seq<Node>, popped: seq<Node>, q: seq<Node>)
    requires NoRepeat(nodes) && NoRepeat(popped + q) && forall x | x in popped + q :: x in nodes
    ensures |popped| + |q| <= |nodes|
  {
    DistinctFits(popped + q, Elements(nodes));
    SameSize(nodes);
  }

  /** The initial queue: listed nodes of in-degree zero, in list order. */
  method Sources(nodes: seq<Node>, indeg: map<Node, int>) returns (q: seq<Node>)
    requires NoRepeat(nodes) && forall n | n in nodes :: n in indeg
    ensures NoRepeat(q) && forall n :: n in q <==> n in nodes && indeg[n] == 0
  {
    q := [];
    for i := 0 to |nodes|
      invariant NoRepeat(q) && forall n :: n in q <==> n in nodes[..i] && indeg[n] == 0
    {
      if indeg[nodes[i]] == 0 {
        q := q + [nodes[i]];
      }
    }
  }

  lemma RelaxOne(nodes: seq<Node>, edges: seq<Edge>, popped: seq<Node>, q: seq<Node>, extra: multiset<Node>,
                 indeg: map<Node, int>, v: Node)
    requires Counted(nodes, edges, popped, q, extra, indeg) && v in indeg && v in extra
    ensures var less := indeg[v := indeg[v] - 1];
      Counted(nodes, edges, popped, if less[v] == 0 then q + [v] else q, extra - multiset{v}, less)
  {
    var less := indeg[v := indeg[v] - 1];
    assert less.Keys == indeg.Keys;
    assert v !in popped + q;
    assert popped + (q + [v]) == popped + q + [v];
  }

  /** The inner loop: one decrement per outgoing edge, queueing what reaches zero. */
  method Relax(nodes: seq<Node>, edges: seq<Edge>, ghost popped: seq<Node>, q0: seq<Node>,
               out: seq<Node>, indeg0: map<Node, int>)
    returns (q: seq<Node>, indeg: map<Node, int>)
    requires forall v | v in out :: v in nodes
    requires Counted(nodes, edges, popped, q0, multiset(out), indeg0)
    ensures Counted(nodes, edges, popped, q, multiset{}, indeg)
  {
    q, indeg := q0, indeg0;
    assert out[0..] == out;
    for j := 0 to |out|
      invariant Counted(nodes, edges, popped, q, multiset(out[j..]), indeg)
    {
      var v := out[j];
      assert out[j..] == [v] + out[j + 1..];
      assert v in nodes;
      RelaxOne(nodes, edges, popped, q, multiset(out[j..]), indeg, v);
      indeg := indeg[v := indeg[v] - 1];
      if indeg[v] == 0 {
        q := q + [v];
      }
    }
  }
}

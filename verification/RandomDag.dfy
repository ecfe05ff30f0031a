/** random_dag (scripts/d3_heavy_audit.py): chains that point to higher indices,
    extra edges that point to lower ones, removal of repeats, then a greedy pass
    that drops every edge closing a cycle. Each draw of the random generator is an
    arbitrary value in its range. */
module RandomDag {
  import opened Collections
  import opened Graphs
  import opened Kahn

  /** First occurrences, in order. */
  function Dedup(edges: seq<Edge>): seq<Edge>
  {
    if edges == [] then []
    else
      var init, last := Dedup(edges[..|edges| - 1]), edges[|edges| - 1];
      if last in init then init else init + [last]
  }

  /** Keep an edge when it closes no cycle with the edges kept before it. */
  ghost function Greedy(nodes: seq<Node>, edges: seq<Edge>): seq<Edge>
  {
    if edges == [] then []
    else
      var kept, last := Greedy(nodes, edges[..|edges| - 1]), edges[|edges| - 1];
      if Acyclic(InnerRel(nodes, kept + [last])) then kept + [last] else kept
  }

  lemma {:induction false} DedupExact(edges: seq<Edge>)
    ensures NoRepeat(Dedup(edges)) && forall e :: e in Dedup(edges) <==> e in edges
  {
    if edges != [] {
      DedupExact(edges[..|edges| - 1]);
      assert edges == edges[..|edges| - 1] + [edges[|edges| - 1]];
    }
  }

  /** The place of the first occurrence. */
  ghost function First(s: seq<Edge>, e: Edge): (k: nat)
    requires e in s
    ensures k < |s| && s[k] == e && forall j | 0 <= j < k :: s[j] != e
  {
    if s[0] == e then 0 else 1 + First(s[1..], e)
  }

  lemma FirstIs(s: seq<Edge>, e: Edge, k: nat)
    requires k < |s| && s[k] == e && forall j | 0 <= j < k :: s[j] != e
    ensures e in s && First(s, e) == k
  {
  }

  lemma FirstPrefix(s: seq<Edge>, t: seq<Edge>, e: Edge)
    requires e in s && s <= t
    ensures e in t && First(t, e) == First(s, e)
  {
    FirstIs(t, e, First(s, e));
  }

  /** One step of removing repeats, for an edge met before. */
  lemma DedupKeeps(edges: seq<Edge>, init: seq<Edge>, e: Edge)
    requires edges != [] && init == edges[..|edges| - 1] && e in init
    ensures First(edges, e) == First(init, e) && e in Dedup(edges) && e in Dedup(init)
    ensures First(Dedup(edges), e) == First(Dedup(init), e)
  {
    DedupExact(edges);
    DedupExact(init);
    FirstPrefix(init, edges, e);
    FirstPrefix(Dedup(init), Dedup(edges), e);
  }

  /** And for one met for the first time. */
  lemma DedupAdds(edges: seq<Edge>, init: seq<Edge>, e: Edge)
    requires edges != [] && init == edges[..|edges| - 1] && e == edges[|edges| - 1] && e !in init
    ensures First(edges, e) == |init| && e in Dedup(edges) && First(Dedup(edges), e) == |Dedup(init)|
  {
    DedupExact(init);
    FirstIs(edges, e, |init|);
    FirstIs(Dedup(edges), e, |Dedup(init)|);
  }

  /** Removing repeats keeps the edges in the order of their first occurrences. */
  lemma {:induction false} DedupOrder(edges: seq<Edge>, e: Edge, f: Edge)
    requires e in edges && f in edges
    ensures e in Dedup(edges) && f in Dedup(edges)
    ensures First(Dedup(edges), e) < First(Dedup(edges), f) <==> First(edges, e) < First(edges, f)
  {
    var init, last := edges[..|edges| - 1], edges[|edges| - 1];
    assert edges == init + [last];
    if e in init {
      DedupKeeps(edges, init, e);
    } else {
      DedupAdds(edges, init, e);
    }
    if f in init {
      DedupKeeps(edges, init, f);
    } else {
      DedupAdds(edges, init, f);
    }
    if e in init && f in init {
      DedupOrder(init, e, f);
    }
  }

  lemma EmptyAcyclic(nodes: seq<Node>)
    ensures Acyclic(InnerRel(nodes, []))
  {
    ClimbingIsAcyclic(InnerRel(nodes, []), (x: Node) => 0);
  }

  lemma {:induction false} GreedyAcyclic(nodes: seq<Node>, edges: seq<Edge>)
    ensures Acyclic(InnerRel(nodes, Greedy(nodes, edges)))
    ensures forall e | e in Greedy(nodes, edges) :: e in edges
  {
    if edges == [] {
      EmptyAcyclic(nodes);
    } else {
      GreedyAcyclic(nodes, edges[..|edges| - 1]);
      assert edges == edges[..|edges| - 1] + [edges[|edges| - 1]];
    }
  }

  /** What is kept of a prefix is the beginning of what is kept of the whole. */
  lemma {:induction false} GreedyPrefix(nodes: seq<Node>, edges: seq<Edge>, i: nat)
    requires i <= |edges|
    ensures Greedy(nodes, edges[..i]) <= Greedy(nodes, edges)
  {
    if i == |edges| {
      assert edges[..i] == edges;
    } else {
      assert edges[..|edges| - 1][..i] == edges[..i];
      GreedyPrefix(nodes, edges[..|edges| - 1], i);
    }
  }

  /** Of a draw without repeats exactly those edges are kept that close no cycle with the
      edges kept before them. */
  lemma {:induction false} GreedyExact(nodes: seq<Node>, edges: seq<Edge>, i: nat)
    requires i < |edges| && NoRepeat(edges)
    ensures edges[i] in Greedy(nodes, edges) <==> Acyclic(InnerRel(nodes, Greedy(nodes, edges[..i]) + [edges[i]]))
  {
    var n := |edges| - 1;
    GreedyAcyclic(nodes, edges[..n]);
    if i < n {
      assert edges[..n][i] == edges[i] && edges[..n][..i] == edges[..i];
      GreedyExact(nodes, edges[..n], i);
      assert edges[i] != edges[n];
    } else {
      assert edges[n] !in edges[..n];
    }
  }

  lemma InnerGrows(nodes: seq<Node>, small: seq<Edge>, big: seq<Edge>)
    requires forall e | e in small :: e in big
    ensures InnerRel(nodes, small) <= InnerRel(nodes, big)
  {
    forall p | p in InnerRel(nodes, small) ensures p in InnerRel(nodes, big) {
      var e :| e in small && Inner(nodes, e) && p == (e.source, e.target);
    }
  }

  /** Adding back any dropped edge closes a cycle. */
  lemma {:induction false} GreedyMaximal(nodes: seq<Node>, edges: seq<Edge>, e: Edge)
    requires e in edges && e !in Greedy(nodes, edges)
    ensures !Acyclic(InnerRel(nodes, Greedy(nodes, edges) + [e]))
  {
    var init, last := edges[..|edges| - 1], edges[|edges| - 1];
    var before, after := Greedy(nodes, init), Greedy(nodes, edges);
    assert edges == init + [last];
    if Acyclic(InnerRel(nodes, after + [e])) {
      InnerGrows(nodes, before + [e], after + [e]);
      AcyclicMonotone(InnerRel(nodes, before + [e]), InnerRel(nodes, after + [e]));
      if e in init {
        GreedyMaximal(nodes, init, e);
      }
    }
  }

  /** When nothing closes a cycle, nothing is dropped. */
  lemma {:induction false} GreedyKeepsAcyclic(nodes: seq<Node>, edges: seq<Edge>)
    requires Acyclic(InnerRel(nodes, edges))
    ensures Greedy(nodes, edges) == edges
  {
    if edges != [] {
      var init, last := edges[..|edges| - 1], edges[|edges| - 1];
      assert edges == init + [last];
      InnerGrows(nodes, init, edges);
      AcyclicMonotone(InnerRel(nodes, init), InnerRel(nodes, edges));
      GreedyKeepsAcyclic(nodes, init);
    }
  }

  method DropCycleEdges(nodes: seq<Node>, edges: seq<Edge>) returns (safe: seq<Edge>)
    requires NoRepeat(nodes)
    ensures safe == Greedy(nodes, edges)
  {
    safe := [];
    for i := 0 to |edges|
      invariant safe == Greedy(nodes, edges[..i])
    {
      assert edges[..i + 1][..i] == edges[..i];
      var trial := safe + [edges[i]];
      var ok := ValidTopo(nodes, trial);
      if ok {
        safe := trial;
      }
    }
    assert edges[..|edges|] == edges;
  }

  method RemoveRepeats(edges: seq<Edge>) returns (dedup: seq<Edge>)
    ensures dedup == Dedup(edges)
  {
    dedup := [];
    var seen: set<Edge> := {};
    for i := 0 to |edges|
      invariant dedup == Dedup(edges[..i]) && forall e :: e in seen <==> e in dedup
    {
      assert edges[..i + 1][..i] == edges[..i];
      if edges[i] !in seen {
        seen := seen + {edges[i]};
        dedup := dedup + [edges[i]];
      }
    }
    assert edges[..|edges|] == edges;
  }

  predicate WithinRange(n: nat, e: Edge)
  {
    e.kind == DependsOn && e.source < n && e.target < n && e.source != e.target
  }

  /** The chain through i, i + stride, i + 2 * stride, ... below n: each member
      depends on the next, higher-indexed one. */
  function Chain(n: nat, stride: nat, i: nat): seq<Edge>
    requires stride > 0
    decreases n - i
  {
    if i + stride < n then [Edge(DependsOn, i, i + stride)] + Chain(n, stride, i + stride) else []
  }

  function ChainsBelow(n: nat, k: nat): seq<Edge>
  {
    if k == 0 then [] else ChainsBelow(n, k - 1) + Chain(n, Max(2, n / 5), k - 1)
  }

  /** The m-th edge of the chain that starts at i. */
  ghost predicate OnChain(n: nat, stride: nat, i: nat, m: nat, e: Edge)
  {
    e.kind == DependsOn && e.source == i + m * stride && e.target == e.source + stride < n
  }

  lemma ChainShift(n: nat, stride: nat, i: nat, m: nat, e: Edge)
    ensures OnChain(n, stride, i + stride, m, e) <==> OnChain(n, stride, i, m + 1, e)
  {
    assert (m + 1) * stride == m * stride + stride;
  }

  lemma {:induction false} ChainMembers(n: nat, stride: nat, i: nat, e: Edge)
    requires stride > 0
    ensures e in Chain(n, stride, i) <==> exists m: nat :: OnChain(n, stride, i, m, e)
    decreases n - i
  {
    if i + stride < n {
      var next := i + stride;
      ChainMembers(n, stride, next, e);
      assert 0 * stride == 0;
      if m: nat :| OnChain(n, stride, i, m, e) {
        if m > 0 {
          ChainShift(n, stride, i, m - 1, e);
        }
      }
      if m: nat :| OnChain(n, stride, next, m, e) {
        ChainShift(n, stride, i, m, e);
      }
      if e == Edge(DependsOn, i, i + stride) {
        assert OnChain(n, stride, i, 0, e);
      }
    } else {
      forall m: nat ensures !OnChain(n, stride, i, m, e) {
        assert m * stride >= 0;
      }
    }
  }

  /** The chain edges: from each of the first k nodes on in steps of max(2, n / 5). */
  lemma {:induction false} ChainsExact(n: nat, k: nat, e: Edge)
    ensures e in ChainsBelow(n, k) <==> exists i: nat, m: nat :: i < k && OnChain(n, Max(2, n / 5), i, m, e)
  {
    if k > 0 {
      ChainsExact(n, k - 1, e);
      ChainMembers(n, Max(2, n / 5), k - 1, e);
    }
  }

  lemma ChainsClimb(n: nat, k: nat, e: Edge)
    requires e in ChainsBelow(n, k)
    ensures WithinRange(n, e) && e.source < e.target
  {
    ChainsExact(n, k, e);
  }

  lemma ChainNext(edges: seq<Edge>, n: nat, stride: nat, i: nat)
    requires stride > 0 && i + stride < n
    ensures edges + Chain(n, stride, i) == edges + [Edge(DependsOn, i, i + stride)] + Chain(n, stride, i + stride)
  {
    assert Chain(n, stride, i) == [Edge(DependsOn, i, i + stride)] + Chain(n, stride, i + stride);
  }

  method Chains(n: nat) returns (edges: seq<Edge>)
    ensures edges == ChainsBelow(n, Max(1, n / 6))
    ensures forall e | e in edges :: WithinRange(n, e) && e.source < e.target
  {
    edges := [];
    var stride := Max(2, n / 5);
    for k := 0 to Max(1, n / 6)
      invariant edges == ChainsBelow(n, k)
    {
      var i, first := k, true;
      var prev := k;
      assert edges + Chain(n, stride, k) == ChainsBelow(n, k + 1);
      while i < n
        invariant 0 <= prev && (if first then prev == i == k else i == prev + stride && prev < n)
        invariant edges + Chain(n, stride, prev) == ChainsBelow(n, k + 1)
      {
        if !first {
          ChainNext(edges, n, stride, prev);
          edges := edges + [Edge(DependsOn, prev, i)];
        }
        prev, first := i, false;
        i := i + stride;
      }
      assert edges + [] == edges;
    }
    forall e | e in edges ensures WithinRange(n, e) && e.source < e.target {
      ChainsClimb(n, Max(1, n / 6), e);
    }
  }

  /** Random edges from a higher to a lower index. Edges compare by identity in the
      original, so its membership test never rejects one. */
  method Extras(n: nat, chains: seq<Edge>) returns (edges: seq<Edge>)
    requires forall e | e in chains :: WithinRange(n, e)
    ensures forall e | e in edges :: WithinRange(n, e)
    ensures chains <= edges && forall e | e in edges[|chains|..] :: e.target < e.source
  {
    edges := chains;
    var attempts := 0;
    while attempts < n * 4 && |edges| < n * 2
      invariant forall e | e in edges :: WithinRange(n, e)
      invariant chains <= edges && forall e | e in edges[|chains|..] :: e.target < e.source
      decreases n * 4 - attempts
    {
      attempts := attempts + 1;
      var tgt: nat :| tgt < n;
      if tgt + 1 < n {
        var src: nat :| tgt + 1 <= src < n;
        ghost var before := edges;
        edges := edges + [Edge(DependsOn, src, tgt)];
        assert edges[|chains|..] == before[|chains|..] + [Edge(DependsOn, src, tgt)];
      }
    }
  }

  /** Whatever the draws, the result is acyclic, has no repeated edge and no
      self-loop, and is the whole deduplicated draw when that is already acyclic;
      otherwise it is an inclusion-maximal acyclic part of it. */
  method Generate(n: nat) returns (ids: seq<Node>, edges: seq<Edge>, ghost drawn: seq<Edge>)
    ensures |ids| == n && forall i | 0 <= i < n :: ids[i] == i
    ensures ChainsBelow(n, Max(1, n / 6)) <= drawn
    ensures forall e | e in drawn[|ChainsBelow(n, Max(1, n / 6))|..] :: e.target < e.source
    ensures forall e | e in edges :: WithinRange(n, e) && e in drawn
    ensures NoRepeat(edges)
    ensures Acyclic(InnerRel(ids, edges))
    ensures Acyclic(InnerRel(ids, drawn)) ==> edges == Dedup(drawn)
    ensures edges == Greedy(ids, Dedup(drawn))
    ensures forall e | e in drawn && e !in edges :: !Acyclic(InnerRel(ids, edges + [e]))
  {
    ids := seq(n, i => i);
    var all := Chains(n);
    all := Extras(n, all);
    drawn := all;
    edges := RemoveRepeats(all);
    DedupExact(all);
    ghost var dedup := edges;
    var ok := ValidTopo(ids, edges);
    if !ok {
      edges := DropCycleEdges(ids, edges);
      InnerGrows(ids, dedup, drawn);
      InnerGrows(ids, drawn, dedup);
      assert InnerRel(ids, dedup) == InnerRel(ids, drawn);
      GreedyAcyclic(ids, dedup);
      GreedyNoRepeat(ids, dedup);
      forall e | e in drawn && e !in edges ensures !Acyclic(InnerRel(ids, edges + [e])) {
        GreedyMaximal(ids, dedup, e);
      }
    } else {
      GreedyKeepsAcyclic(ids, dedup);
    }
  }

  lemma {:induction false} GreedyNoRepeat(nodes: seq<Node>, edges: seq<Edge>)
    requires NoRepeat(edges)
    ensures NoRepeat(Greedy(nodes, edges))
  {
    if edges != [] {
      var init := edges[..|edges| - 1];
      GreedyNoRepeat(nodes, init);
      GreedyAcyclic(nodes, init);
      assert forall e | e in init :: e != edges[|edges| - 1];
      AppendNoRepeat(Greedy(nodes, init), edges[|edges| - 1]);
    }
  }

  lemma AppendNoRepeat(s: seq<Edge>, e: Edge)
    requires NoRepeat(s) && e !in s
    ensures NoRepeat(s + [e])
  {
    forall i, j | 0 <= i < j < |s + [e]| ensures (s + [e])[i] != (s + [e])[j] {
      assert s[i] in s;
    }
  }
}

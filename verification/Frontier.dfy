/** The repair frontier: the stale tasks whose dependencies are all verified
    (src/lhos/runtimes/invalidation/frontier.py and the audits that step it). */
module Frontier {
  import opened Collections
  import opened Graphs
  import opened Closures
  import Kahn
  import RandomDag

  // ---- the two definitions in the repository ----

  function ValidityOf(nodes: map<Node, Validity>, derived: map<Node, Validity>, t: Node): Option<Validity>
  {
    if t in derived then Some(derived[t]) else if t in nodes then Some(nodes[t]) else None
  }

  ghost predicate RepairReady(nodes: map<Node, Validity>, edges: seq<Edge>, derived: map<Node, Validity>, t: Node)
  {
    forall d | d in edges && d.kind == DependsOn && d.source == t && t in nodes && d.target in nodes ::
      ValidityOf(nodes, derived, d.target) == Some(Verified)
  }

  // ---- ids in order ----

  /** Which of two ids comes first as text. Nothing else about the ids is used here. */
  type Order = (Node, Node) -> bool

  ghost predicate IsOrder(lt: Order)
  {
    && (forall x, y :: lt(x, y) ==> !lt(y, x))
    && (forall x, y | x != y :: lt(x, y) || lt(y, x))
    && (forall x, y, z | lt(x, y) && lt(y, z) :: lt(x, z))
  }

  predicate IsLeast(lt: Order, s: set<Node>, t: Node)
  {
    t in s && forall x | x in s && x != t :: lt(t, x)
  }

  lemma {:induction false} LeastExists(lt: Order, s: set<Node>)
    requires IsOrder(lt) && s != {}
    ensures exists t :: IsLeast(lt, s, t)
  {
    var a :| a in s;
    if s == {a} {
      assert IsLeast(lt, s, a);
    } else {
      LeastExists(lt, s - {a});
      var b :| IsLeast(lt, s - {a}, b);
      assert forall x | x in s :: x == a || x in s - {a};
      assert IsLeast(lt, s, if lt(a, b) then a else b);
    }
  }

  method CheckReady(nodes: map<Node, Validity>, edges: seq<Edge>, derived: map<Node, Validity>, t: Node)
    returns (ok: bool)
    ensures ok <==> RepairReady(nodes, edges, derived, t)
  {
    ok := true;
    for i := 0 to |edges|
      invariant ok <==> RepairReady(nodes, edges[..i], derived, t)
    {
      assert edges[..i + 1] == edges[..i] + [edges[i]];
      var d := edges[i];
      if d.kind == DependsOn && d.source == t && t in nodes && d.target in nodes
         && ValidityOf(nodes, derived, d.target) != Some(Verified) {
        ok := false;
      }
    }
    assert edges[..|edges|] == edges;
  }

  ghost predicate Ascending(lt: Order, s: seq<Node>)
  {
    forall i, j | 0 <= i < j < |s| :: lt(s[i], s[j])
  }

  lemma AscendingAppend(lt: Order, s: seq<Node>, t: Node)
    requires Ascending(lt, s) && forall c | c in s :: lt(c, t)
    ensures Ascending(lt, s + [t]) && Elements(s + [t]) == Elements(s) + {t}
  {
    forall i, j | 0 <= i < j < |s + [t]| ensures lt((s + [t])[i], (s + [t])[j]) {
      assert (s + [t])[i] in s;
    }
  }

  /** Selection sort midway: r holds the smallest members of s in order. */
  ghost predicate Selected(lt: Order, s: set<Node>, r: seq<Node>, rest: set<Node>)
  {
    && rest <= s && Ascending(lt, r) && Elements(r) == s - rest
    && forall c, x | c in r && x in rest :: lt(c, x)
  }

  lemma SelectNext(lt: Order, s: set<Node>, r: seq<Node>, rest: set<Node>, t: Node)
    requires Selected(lt, s, r, rest) && t in rest && IsLeast(lt, rest, t)
    ensures Selected(lt, s, r + [t], rest - {t})
  {
    AscendingAppend(lt, r, t);
    forall c, x | c in r + [t] && x in rest - {t} ensures lt(c, x) {
      assert c in r || c == t;
    }
  }

  method Sorted(lt: Order, s: set<Node>) returns (r: seq<Node>)
    requires IsOrder(lt)
    ensures Ascending(lt, r) && Elements(r) == s
  {
    r := [];
    var rest := s;
    while rest != {}
      invariant Selected(lt, s, r, rest)
      decreases |rest|
    {
      LeastExists(lt, rest);
      var t :| t in rest && IsLeast(lt, rest, t);
      SelectNext(lt, s, r, rest, t);
      r := r + [t];
      rest := rest - {t};
    }
  }

  ghost predicate Candidate(nodes: map<Node, Validity>, edges: seq<Edge>, derived: map<Node, Validity>,
                            claimed: set<Node>, t: Node)
  {
    t !in claimed && RepairReady(nodes, edges, derived, t)
  }

  /** The given tasks, or else those of the graph that are stale or unverified. */
  function EligibleTasks(nodes: map<Node, Validity>, given: Option<set<Node>>, derived: map<Node, Validity>): set<Node>
  {
    if given.Some? then given.value
    else set t | t in nodes && ValidityOf(nodes, derived, t) in {Some(Stale), Some(Unverified)}
  }

  /** The validity that counts for a task of the graph. */
  ghost function Effective(nodes: map<Node, Validity>, derived: map<Node, Validity>, t: Node): Validity
    requires t in nodes
  {
    if t in derived then derived[t] else nodes[t]
  }

  /** Nobody claims t, and what it depends on within the graph is verified. */
  ghost predicate Unblocked(nodes: map<Node, Validity>, edges: seq<Edge>, derived: map<Node, Validity>,
                            claimed: set<Node>, t: Node)
  {
    && t !in claimed
    && (t in nodes ==> forall d | d in edges && d.kind == DependsOn && d.source == t && d.target in nodes ::
          Effective(nodes, derived, d.target) == Verified)
  }

  ghost predicate NeedsRepair(nodes: map<Node, Validity>, derived: map<Node, Validity>, t: Node)
  {
    t in nodes && Effective(nodes, derived, t) != Verified
  }

  lemma EligibleExact(nodes: map<Node, Validity>, derived: map<Node, Validity>, t: Node)
    ensures t in EligibleTasks(nodes, None, derived) <==> NeedsRepair(nodes, derived, t)
  {
  }

  lemma CandidateExact(nodes: map<Node, Validity>, edges: seq<Edge>, derived: map<Node, Validity>, claimed: set<Node>, t: Node)
    ensures Candidate(nodes, edges, derived, claimed, t) <==> Unblocked(nodes, edges, derived, claimed, t)
  {
  }

  /** On an acyclic graph with a task that is not verified, some such task is unblocked. */
  lemma SomethingToRepair(nodes: map<Node, Validity>, edges: seq<Edge>, derived: map<Node, Validity>, t: Node)
    returns (u: Node)
    requires Acyclic(Dependents(edges)) && NeedsRepair(nodes, derived, t)
    ensures NeedsRepair(nodes, derived, u) && Unblocked(nodes, edges, derived, {}, u)
  {
    var e, open := Dependents(edges), set n | n in nodes && NeedsRepair(nodes, derived, n);
    assert t in open;
    Progress(e, open);
    u :| u in Ready(e, open);
    forall d | d in edges && d.kind == DependsOn && d.source == u && d.target in nodes
      ensures Effective(nodes, derived, d.target) == Verified
    {
      assert (d.target, u) in e;
    }
  }

  /** compute_repair_frontier: the eligible tasks in the order of their ids, those whose known
      dependencies are all verified and that nobody holds an active claim on. */
  method ComputeRepairFrontier(lt: Order, nodes: map<Node, Validity>, edges: seq<Edge>, given: Option<set<Node>>,
                               derived: map<Node, Validity>, claimed: set<Node>)
    returns (candidates: seq<Node>)
    requires IsOrder(lt)
    ensures Ascending(lt, candidates)
    ensures given == None ==> forall t :: t in candidates <==>
      NeedsRepair(nodes, derived, t) && Unblocked(nodes, edges, derived, claimed, t)
    ensures given.Some? ==> forall t :: t in candidates <==>
      t in given.value && Unblocked(nodes, edges, derived, claimed, t)
    ensures given == None && claimed == {} && Acyclic(Dependents(edges)) && (exists t :: NeedsRepair(nodes, derived, t)) ==>
      candidates != []
  {
    var eligible := EligibleTasks(nodes, given, derived);
    var sorted := Sorted(lt, eligible);
    candidates := [];
    for i := 0 to |sorted|
      invariant Ascending(lt, candidates) && forall c | c in candidates :: c in sorted[..i]
      invariant forall j | 0 <= j < i :: sorted[j] in candidates <==> Candidate(nodes, edges, derived, claimed, sorted[j])
    {
      var t := sorted[i];
      var ok := CheckReady(nodes, edges, derived, t);
      assert forall c | c in sorted[..i] :: lt(c, t);
      if ok && t !in claimed {
        AscendingAppend(lt, candidates, t);
        candidates := candidates + [t];
      }
    }
    assert forall t :: t in eligible <==> t in Elements(sorted);
    forall t ensures Candidate(nodes, edges, derived, claimed, t) <==> Unblocked(nodes, edges, derived, claimed, t) {
      CandidateExact(nodes, edges, derived, claimed, t);
    }
    if given == None {
      forall t ensures t in eligible <==> NeedsRepair(nodes, derived, t) {
        EligibleExact(nodes, derived, t);
      }
      if claimed == {} && Acyclic(Dependents(edges)) && exists t :: NeedsRepair(nodes, derived, t) {
        ghost var t :| NeedsRepair(nodes, derived, t);
        ghost var u := SomethingToRepair(nodes, edges, derived, t);
      }
    }
  }

  /** The audit's own definition: here an unknown dependency counts as missing. */
  ghost predicate ReferenceReady(edges: seq<Edge>, derived: map<Node, Validity>, t: Node)
  {
    forall d | d in edges && d.kind == DependsOn && d.source == t ::
      d.target in derived && derived[d.target] == Verified
  }

  ghost predicate DependsOutside(nodes: set<Node>, edges: seq<Edge>, t: Node)
  {
    exists d | d in edges :: d.kind == DependsOn && d.source == t && d.target !in nodes
  }

  /** Over a derived validity for every node, the audit's definition is the stricter one,
      and only a dependency outside the graph makes the difference. */
  lemma ReadyDiffers(nodes: map<Node, Validity>, edges: seq<Edge>, derived: map<Node, Validity>, t: Node)
    requires derived.Keys == nodes.Keys && t in nodes
    ensures ReferenceReady(edges, derived, t)
       <==> RepairReady(nodes, edges, derived, t) && !DependsOutside(nodes.Keys, edges, t)
  {
  }

  /** The frontier exactness check of the audit: the two definitions agree on t whatever
      validity is derived exactly when t does not depend on anything outside the graph. */
  lemma FrontierExact(nodes: map<Node, Validity>, edges: seq<Edge>, t: Node)
    requires t in nodes
    ensures (forall derived: map<Node, Validity> | derived.Keys == nodes.Keys ::
               ReferenceReady(edges, derived, t) <==> RepairReady(nodes, edges, derived, t))
       <==> !DependsOutside(nodes.Keys, edges, t)
  {
    if DependsOutside(nodes.Keys, edges, t) {
      var derived := map n | n in nodes :: Verified;
      ReadyDiffers(nodes, edges, derived, t);
      assert derived.Keys == nodes.Keys && RepairReady(nodes, edges, derived, t);
    } else {
      forall derived: map<Node, Validity> | derived.Keys == nodes.Keys
        ensures ReferenceReady(edges, derived, t) <==> RepairReady(nodes, edges, derived, t)
      {
        ReadyDiffers(nodes, edges, derived, t);
      }
    }
  }

  // ---- frontier of a stale set, everything else verified ----

  /** e runs from a dependency to its dependents. */
  ghost predicate Waits(e: Rel, stale: set<Node>, t: Node)
  {
    exists d | d in stale :: (d, t) in e
  }

  ghost function Ready(e: Rel, stale: set<Node>): set<Node>
  {
    set t | t in stale && !Waits(e, stale, t)
  }

  function AfterInvalidation(nodes: set<Node>, stale: set<Node>): map<Node, Validity>
  {
    map t | t in nodes :: if t in stale then Stale else Verified
  }

  ghost predicate Inside(nodes: set<Node>, edges: seq<Edge>)
  {
    forall d | d in edges && d.kind == DependsOn :: d.source in nodes && d.target in nodes
  }

  /** On such states the engine's frontier is Ready. */
  lemma ReadyIsFrontier(nodes: map<Node, Validity>, edges: seq<Edge>, stale: set<Node>, t: Node)
    requires Inside(nodes.Keys, edges) && stale <= nodes.Keys && t in stale
    ensures t in Ready(Dependents(edges), stale)
       <==> RepairReady(nodes, edges, AfterInvalidation(nodes.Keys, stale), t)
  {
    var e, derived := Dependents(edges), AfterInvalidation(nodes.Keys, stale);
    if Waits(e, stale, t) {
      var u :| u in stale && (u, t) in e;
      var d :| d in edges && d.kind == DependsOn && u == d.target && t == d.source;
      assert ValidityOf(nodes, derived, d.target) == Some(Stale);
    } else {
      forall d | d in edges && d.kind == DependsOn && d.source == t
        ensures ValidityOf(nodes, derived, d.target) == Some(Verified)
      {
        assert (d.target, t) in e;
      }
    }
  }

  /** A non-empty stale set of an acyclic graph always has a task ready for repair. */
  lemma Progress(e: Rel, stale: set<Node>)
    requires Acyclic(e) && stale != {}
    ensures Ready(e, stale) != {}
  {
    if Ready(e, stale) == {} {
      forall t | t in stale ensures HasPredecessor(e, stale, t) {
        assert t !in Ready(e, stale);
      }
      StuckHasCycle(e, stale);
    }
  }

  /** Along a cycle nothing is ever ready. */
  lemma CycleBlocks(e: Rel, p: seq<Node>)
    requires IsCycle(e, p)
    ensures Ready(e, Elements(p)) == {}
  {
    var stale := Elements(p);
    forall t | t in stale ensures Waits(e, stale, t) {
      var i :| 0 <= i < |p| && p[i] == t;
      var j := if i == 0 then |p| - 1 else i;
      assert Linked(e, p, j - 1);
      assert p[j - 1] in stale && (p[j - 1], t) in e;
    }
  }

  /** Repair can always go on, whatever went stale, exactly on acyclic graphs. */
  lemma ProgressIffAcyclic(e: Rel)
    ensures (forall stale: set<Node> | stale != {} :: Ready(e, stale) != {}) <==> Acyclic(e)
  {
    if Acyclic(e) {
      forall stale: set<Node> | stale != {} ensures Ready(e, stale) != {} {
        Progress(e, stale);
      }
    } else {
      var p: seq<Node> :| IsCycle(e, p);
      CycleBlocks(e, p);
      assert p[0] in Elements(p);
    }
  }

  /** Reverifying others never takes a ready task off the frontier. */
  lemma ReadyPersists(e: Rel, stale: set<Node>, done: set<Node>, t: Node)
    requires t in Ready(e, stale) && t !in done
    ensures t in Ready(e, stale - done)
  {
    assert forall d | d in stale - done :: d in stale;
  }

  // ---- draining the stale set ----

  /** Each task after every stale task it depends on. */
  ghost predicate AfterDependencies(e: Rel, stale: set<Node>, order: seq<Node>)
  {
    forall d, t | (d, t) in e && d in stale && t in order :: Position(order, d) < Position(order, t)
  }

  lemma AppendReady(e: Rel, stale0: set<Node>, stale: set<Node>, order: seq<Node>, t: Node)
    requires t in Ready(e, stale) && t !in order
    requires forall d | d in stale0 - stale :: d in order
    requires NoRepeat(order) && AfterDependencies(e, stale0, order)
    ensures NoRepeat(order + [t]) && AfterDependencies(e, stale0, order + [t])
    ensures Elements(order + [t]) == Elements(order) + {t}
  {
    forall d, u | (d, u) in e && d in stale0 && u in order + [t]
      ensures Position(order + [t], d) < Position(order + [t], u)
    {
      PositionAppend(order, t, d);
      PositionAppend(order, t, u);
      assert u == t && d in stale ==> Waits(e, stale, t);
    }
  }

  lemma FrontierReady(nodes: map<Node, Validity>, edges: seq<Edge>, stale: set<Node>, frontier: seq<Node>)
    requires Inside(nodes.Keys, edges) && stale <= nodes.Keys
    requires forall t :: t in frontier <==>
      t in stale && Unblocked(nodes, edges, AfterInvalidation(nodes.Keys, stale), {}, t)
    ensures Elements(frontier) == Ready(Dependents(edges), stale)
  {
    forall t | t in stale ensures t in frontier <==> t in Ready(Dependents(edges), stale) {
      ReadyIsFrontier(nodes, edges, stale, t);
      CandidateExact(nodes, edges, AfterInvalidation(nodes.Keys, stale), {}, t);
    }
  }

  lemma SmallerBatch(stale: set<Node>, batch: set<Node>)
    requires batch != {} && batch <= stale
    ensures |stale - batch| < |stale|
  {
    var t :| t in batch;
    SubsetSize(stale - batch, stale - {t});
  }

  /** One round: the tasks of a batch are reverified one by one. */
  method Reverify(ghost e: Rel, ghost stale0: set<Node>, ghost stale: set<Node>, batch: set<Node>, order0: seq<Node>)
    returns (order: seq<Node>)
    requires batch <= Ready(e, stale) && stale <= stale0 && Elements(order0) == stale0 - stale
    requires NoRepeat(order0) && AfterDependencies(e, stale0, order0)
    ensures Elements(order) == stale0 - (stale - batch)
    ensures NoRepeat(order) && AfterDependencies(e, stale0, order)
  {
    order := order0;
    var todo := batch;
    while todo != {}
      invariant todo <= batch && Elements(order) == stale0 - (stale - (batch - todo))
      invariant NoRepeat(order) && AfterDependencies(e, stale0, order)
      decreases |todo|
    {
      var t :| t in todo;
      AppendReady(e, stale0, stale, order, t);
      order := order + [t];
      todo := todo - {t};
    }
  }

  /** Whichever non-empty part of the frontier is reverified in each round, the stale
      set drains in at most |stale| rounds, every task once and after all the stale
      tasks it depends on. */
  method RepairAll(lt: Order, nodes: map<Node, Validity>, edges: seq<Edge>, stale0: set<Node>)
    returns (order: seq<Node>, rounds: nat)
    requires IsOrder(lt) && Inside(nodes.Keys, edges) && stale0 <= nodes.Keys
    requires Acyclic(Dependents(edges))
    ensures NoRepeat(order) && Elements(order) == stale0
    ensures AfterDependencies(Dependents(edges), stale0, order)
    ensures rounds <= |stale0|
  {
    ghost var e := Dependents(edges);
    var stale := stale0;
    order, rounds := [], 0;
    while stale != {}
      invariant stale <= stale0 && Elements(order) == stale0 - stale
      invariant NoRepeat(order) && AfterDependencies(e, stale0, order)
      invariant rounds + |stale| <= |stale0|
      decreases |stale|
    {
      var frontier := ComputeRepairFrontier(lt, nodes, edges, Some(stale), AfterInvalidation(nodes.Keys, stale), {});
      FrontierReady(nodes, edges, stale, frontier);
      Progress(e, stale);
      var batch :| batch != {} && batch <= Elements(frontier);
      order := Reverify(e, stale0, stale, batch, order);
      SmallerBatch(stale, batch);
      stale := stale - batch;
      rounds := rounds + 1;
    }
    assert Elements(order) == stale0;
  }

  // ---- graphs that qualify ----

  lemma ReversePath(e: Rel, p: seq<Node>, q: seq<Node>)
    requires IsPath(e, p) && |q| == |p| && forall i | 0 <= i < |p| :: q[i] == p[|p| - 1 - i]
    ensures IsPath(set x | x in e :: (x.1, x.0), q)
  {
    var f := set x | x in e :: (x.1, x.0);
    forall i: nat | i + 1 < |q| ensures Linked(f, q, i) {
      assert Linked(e, p, |p| - 2 - i);
      var x := (p[|p| - 2 - i], p[|p| - 1 - i]);
      assert x in e && (x.1, x.0) in f;
    }
  }

  /** A graph that passes the topological check is drained by repair. */
  lemma TopoQualifies(nodes: seq<Node>, edges: seq<Edge>)
    requires Inside(Elements(nodes), edges) && Acyclic(Kahn.InnerRel(nodes, edges))
    ensures Acyclic(Dependents(edges))
  {
    var e, inner := Dependents(edges), Kahn.InnerRel(nodes, edges);
    forall p ensures !IsCycle(e, p) {
      if IsCycle(e, p) {
        var q := seq(|p|, i requires 0 <= i < |p| => p[|p| - 1 - i]);
        ReversePath(e, p, q);
        var f := set x | x in e :: (x.1, x.0);
        assert f <= inner;
        PathMonotone(f, inner, q);
        assert IsCycle(inner, q);
      }
    }
  }

  ghost predicate Downward(n: nat, edges: seq<Edge>)
  {
    forall d | d in edges :: d.kind == DependsOn && d.target < d.source < n
  }

  lemma DownwardQualifies(n: nat, edges: seq<Edge>)
    requires Downward(n, edges)
    ensures Acyclic(Dependents(edges))
  {
    ClimbingIsAcyclic(Dependents(edges), (x: Node) => x);
  }

  function ChainEdge(i: nat): Edge
  {
    Edge(DependsOn, i + 1, i)
  }

  /** The chains over blocks of fifty nodes, up to index m. */
  ghost predicate HasChains(edges: seq<Edge>, m: int)
  {
    forall i: nat | i < m && i % 50 != 49 :: ChainEdge(i) in edges
  }

  function Min(a: int, b: int): int
  {
    if a < b then a else b
  }

  /** Two tasks depend on one, and a later one on both. */
  ghost predicate Diamond(n: nat, edges: seq<Edge>, seed: nat, a: nat, b: nat, j: nat)
  {
    && 200 <= seed < 600 <= a < 700 <= b < 800 && 900 <= j < n
    && Edge(DependsOn, a, seed) in edges && Edge(DependsOn, b, seed) in edges
    && Edge(DependsOn, j, a) in edges && Edge(DependsOn, j, b) in edges
  }

  /** The node before the last depends on some early node. */
  ghost predicate FansIn(n: nat, edges: seq<Edge>)
  {
    exists src: nat :: FansFrom(n, edges, src)
  }

  ghost predicate FansFrom(n: nat, edges: seq<Edge>, src: nat)
  {
    n >= 2 && 1 <= src < 500 && Edge(DependsOn, n - 2, src) in edges
  }

  lemma FanStays(n: nat, edges: seq<Edge>, more: seq<Edge>)
    requires FansIn(n, edges) && forall e | e in edges :: e in more
    ensures FansIn(n, more)
  {
    var src: nat :| FansFrom(n, edges, src);
    assert FansFrom(n, more, src);
  }

  ghost predicate HasDiamond(n: nat, edges: seq<Edge>)
  {
    exists seed, a, b, j :: Diamond(n, edges, seed, a, b, j)
  }

  lemma DiamondStays(n: nat, edges: seq<Edge>, more: seq<Edge>)
    requires HasDiamond(n, edges) && forall e | e in edges :: e in more
    ensures HasDiamond(n, more)
  {
    var seed, a, b, j :| Diamond(n, edges, seed, a, b, j);
    assert Diamond(n, more, seed, a, b, j);
  }

  /** Twenty chains, thirty random diamonds, and a random fan-in to the node before the
      last. */
  method DrawLargeDag(n: nat) returns (edges: seq<Edge>)
    requires n > 900
    ensures Downward(n, edges) && HasChains(edges, Min(1000, n - 1)) && HasDiamond(n, edges) && FansIn(n, edges)
  {
    edges := [];
    for c := 0 to 20
      invariant Downward(n, edges) && HasChains(edges, Min(c * 50, n - 1))
    {
      var i := c * 50;
      while i < c * 50 + 49 && i < n - 1
        invariant c * 50 <= i <= c * 50 + 49 && Downward(n, edges)
        invariant HasChains(edges, Min(i, n - 1))
      {
        edges := edges + [ChainEdge(i)];
        i := i + 1;
      }
    }
    ghost var chains := edges;
    for d := 0 to 30
      invariant Downward(n, edges) && chains <= edges && (d > 0 ==> HasDiamond(n, edges))
    {
      var seed: nat :| 200 <= seed < 600;
      var a: nat :| 600 <= a < 700;
      var b: nat :| 700 <= b < 800;
      var j: nat :| 900 <= j < n;
      edges := edges + [Edge(DependsOn, a, seed), Edge(DependsOn, b, seed), Edge(DependsOn, j, a), Edge(DependsOn, j, b)];
      assert Diamond(n, edges, seed, a, b, j);
    }
    for i := 0 to 500
      invariant Downward(n, edges) && chains <= edges && HasDiamond(n, edges) && (i > 0 ==> FansIn(n, edges))
    {
      var src: nat :| 1 <= src < 500;
      DiamondStays(n, edges, edges + [Edge(DependsOn, n - 2, src)]);
      edges := edges + [Edge(DependsOn, n - 2, src)];
      assert FansFrom(n, edges, src);
    }
  }

  /** build_large_dag: every edge runs from a higher to a lower index, none twice. */
  method BuildLargeDag(n: nat) returns (edges: seq<Edge>)
    requires n > 900
    ensures Downward(n, edges) && Acyclic(Dependents(edges)) && NoRepeat(edges)
    ensures HasChains(edges, Min(1000, n - 1)) && HasDiamond(n, edges) && FansIn(n, edges)
  {
    var drawn := DrawLargeDag(n);
    edges := RandomDag.RemoveRepeats(drawn);
    RandomDag.DedupExact(drawn);
    DiamondStays(n, drawn, edges);
    FanStays(n, drawn, edges);
    DownwardQualifies(n, edges);
  }
}

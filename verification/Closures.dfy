/** The worklist closures of the invalidation audits: plain, VERIFIED-gated,
    early-cutoff and multi-seed. Each drains a queue that may hold repeats, over a
    graph that may be cyclic, visiting sets in an arbitrary order. */
module Closures {
  import opened Collections
  import opened Graphs

  datatype Validity = Verified | Unverified | Stale

  /** s is exactly what seed reaches. */
  ghost predicate IsCone(e: Rel, seed: Node, s: set<Node>)
  {
    forall v :: v in s <==> Reach(e, seed, v)
  }

  lemma ConeUnique(e: Rel, seed: Node, s: set<Node>, t: set<Node>)
    requires IsCone(e, seed, s) && IsCone(e, seed, t)
    ensures s == t
  {
    forall v ensures v in s <==> v in t {
      assert v in s <==> Reach(e, seed, v);
    }
  }

  /** Staleness travels from a dependency to its dependents. */
  ghost function Dependents(edges: seq<Edge>): Rel
  {
    set d | d in edges && d.kind == DependsOn :: (d.target, d.source)
  }

  ghost function Gated(e: Rel, verified: set<Node>): Rel
  {
    set p | p in e && p.1 in verified
  }

  function VerifiedTasks(tasks: map<Node, Validity>): set<Node>
  {
    set t | t in tasks && tasks[t] == Verified
  }

  ghost function Ends(e: Rel): set<Node>
  {
    (set p | p in e :: p.0) + (set p | p in e :: p.1)
  }

  function Successors(rev: map<Node, set<Node>>, u: Node): set<Node>
  {
    if u in rev then rev[u] else {}
  }

  ghost predicate Represents(rev: map<Node, set<Node>>, e: Rel)
  {
    forall u: Node, v: Node :: v in Successors(rev, u) <==> (u, v) in e
  }

  // ---- in terms of the edges themselves ----

  /** v depends on u. */
  ghost predicate Passes(edges: seq<Edge>, u: Node, v: Node)
  {
    exists d | d in edges :: d.kind == DependsOn && d.target == u && d.source == v
  }

  /** Each member of the trail depends on the one before it. */
  ghost predicate Trail(edges: seq<Edge>, p: seq<Node>, a: Node, b: Node)
  {
    && |p| > 0 && p[0] == a && p[|p| - 1] == b
    && forall i: nat | i + 1 < |p| :: Passes(edges, p[i], p[i + 1])
  }

  ghost predicate Affects(edges: seq<Edge>, a: Node, b: Node)
  {
    exists p :: Trail(edges, p, a, b)
  }

  /** A trail all of whose later members are tasks that are VERIFIED. */
  ghost predicate VerifiedTrail(tasks: map<Node, Validity>, edges: seq<Edge>, p: seq<Node>, a: Node, b: Node)
  {
    Trail(edges, p, a, b) && forall i | 1 <= i < |p| :: p[i] in tasks && tasks[p[i]] == Verified
  }

  ghost predicate AffectsVerified(tasks: map<Node, Validity>, edges: seq<Edge>, a: Node, b: Node)
  {
    exists p :: VerifiedTrail(tasks, edges, p, a, b)
  }

  lemma PassesExact(edges: seq<Edge>, u: Node, v: Node)
    ensures Passes(edges, u, v) <==> (u, v) in Dependents(edges)
  {
  }

  lemma TrailExact(edges: seq<Edge>, p: seq<Node>, a: Node, b: Node)
    ensures Trail(edges, p, a, b) <==> Connects(Dependents(edges), p, a, b)
  {
    if |p| > 0 {
      forall i: nat | i + 1 < |p| ensures Linked(Dependents(edges), p, i) <==> Passes(edges, p[i], p[i + 1]) {
        PassesExact(edges, p[i], p[i + 1]);
      }
    }
  }

  lemma VerifiedTrailExact(tasks: map<Node, Validity>, edges: seq<Edge>, p: seq<Node>, a: Node, b: Node)
    ensures VerifiedTrail(tasks, edges, p, a, b) <==> Connects(Gated(Dependents(edges), VerifiedTasks(tasks)), p, a, b)
  {
    var e := Gated(Dependents(edges), VerifiedTasks(tasks));
    if |p| > 0 {
      forall i: nat | i + 1 < |p|
        ensures Linked(e, p, i) <==> Passes(edges, p[i], p[i + 1]) && p[i + 1] in tasks && tasks[p[i + 1]] == Verified
      {
        PassesExact(edges, p[i], p[i + 1]);
      }
      if Connects(e, p, a, b) {
        forall i | 1 <= i < |p| ensures p[i] in tasks && tasks[p[i]] == Verified {
          assert Linked(e, p, i - 1);
        }
      }
    }
  }

  lemma AffectsExact(edges: seq<Edge>, a: Node, b: Node)
    ensures Affects(edges, a, b) <==> Reach(Dependents(edges), a, b)
  {
    forall p ensures Trail(edges, p, a, b) <==> Connects(Dependents(edges), p, a, b) {
      TrailExact(edges, p, a, b);
    }
  }

  lemma AffectsVerifiedExact(tasks: map<Node, Validity>, edges: seq<Edge>, a: Node, b: Node)
    ensures AffectsVerified(tasks, edges, a, b) <==> Reach(Gated(Dependents(edges), VerifiedTasks(tasks)), a, b)
  {
    forall p ensures VerifiedTrail(tasks, edges, p, a, b) <==> Connects(Gated(Dependents(edges), VerifiedTasks(tasks)), p, a, b) {
      VerifiedTrailExact(tasks, edges, p, a, b);
    }
  }

  // ---- the common loop invariant ----

  /** Everything done or queued is reachable, and what leaves a done node is done,
      queued, or among the successors `rest` of u still to be looked at. */
  ghost predicate Draining(e: Rel, seed: Node, done: set<Node>, q: seq<Node>, u: Node, rest: set<Node>)
  {
    && (seed in done || seed in q)
    && (forall v | v in done :: Reach(e, seed, v))
    && (forall v | v in q :: Reach(e, seed, v))
    && (forall w, v | w in done && (w, v) in e :: v in done || v in q || (w == u && v in rest))
  }

  lemma Drained(e: Rel, seed: Node, done: set<Node>, u: Node)
    requires Draining(e, seed, done, [], u, {})
    ensures IsCone(e, seed, done)
  {
    forall v | Reach(e, seed, v) ensures v in done {
      ClosedReach(e, done, seed, v);
    }
  }

  /** Popping a node that is already done. */
  lemma SkipPop(e: Rel, seed: Node, done: set<Node>, q: seq<Node>, u: Node)
    requires q != [] && q[0] in done && Draining(e, seed, done, q, u, {})
    ensures Draining(e, seed, done, q[1..], u, {})
  {
    assert forall v :: v in q <==> v == q[0] || v in q[1..];
  }

  /** Popping a new node opens its successors. */
  lemma TakePop(e: Rel, seed: Node, done: set<Node>, q: seq<Node>, u: Node, out: set<Node>)
    requires q != [] && q[0] !in done && Draining(e, seed, done, q, u, {})
    requires forall v | (q[0], v) in e :: v in out
    ensures Draining(e, seed, done + {q[0]}, q[1..], q[0], out)
  {
    assert forall v :: v in q <==> v == q[0] || v in q[1..];
  }

  lemma Enqueue(e: Rel, seed: Node, done: set<Node>, q: seq<Node>, u: Node, rest: set<Node>, v: Node)
    requires Draining(e, seed, done, q, u, rest) && u in done && v in rest && (u, v) in e
    ensures Draining(e, seed, done, q + [v], u, rest - {v})
  {
    ReachStep(e, seed, u, v);
  }

  lemma Reachable(e: Rel, seed: Node, v: Node)
    requires Reach(e, seed, v)
    ensures v == seed || v in Ends(e)
  {
    ReachSelf(e, seed);
    forall u, w | u in Ends(e) + {seed} && (u, w) in e ensures w in Ends(e) + {seed} {
      assert (u, w).1 == w;
    }
    ClosedReach(e, Ends(e) + {seed}, seed, v);
  }

  lemma DoneBounded(e: Rel, seed: Node, done: set<Node>, x: Node)
    requires forall v | v in done :: Reach(e, seed, v)
    requires Reach(e, seed, x) && x !in done
    ensures |done + {x}| == |done| + 1 <= |Ends(e) + {seed}|
  {
    forall v | v in done + {x} ensures v in Ends(e) + {seed} {
      Reachable(e, seed, v);
    }
    SubsetSize(done + {x}, Ends(e) + {seed});
  }

  // ---- reverse indices ----

  ghost predicate ForeignTarget(tasks: set<Node>, edges: seq<Edge>)
  {
    exists d | d in edges :: d.kind == DependsOn && d.target !in tasks
  }

  /** _reverse_deps: an edge whose target is not a task is a KeyError. */
  method ReverseDeps(tasks: set<Node>, edges: seq<Edge>) returns (r: Option<map<Node, set<Node>>>)
    ensures r.None? <==> ForeignTarget(tasks, edges)
    ensures r.Some? ==> r.value.Keys == tasks && Represents(r.value, Dependents(edges))
  {
    var rev: map<Node, set<Node>> := map t | t in tasks :: {};
    for i := 0 to |edges|
      invariant rev.Keys == tasks && !ForeignTarget(tasks, edges[..i])
      invariant Represents(rev, Dependents(edges[..i]))
    {
      var d := edges[i];
      assert edges[..i + 1] == edges[..i] + [d];
      if d.kind == DependsOn {
        if d.target !in tasks {
          return None;
        }
        assert Dependents(edges[..i + 1]) == Dependents(edges[..i]) + {(d.target, d.source)};
        rev := rev[d.target := rev[d.target] + {d.source}];
      } else {
        assert Dependents(edges[..i + 1]) == Dependents(edges[..i]);
      }
    }
    assert edges[..|edges|] == edges;
    return Some(rev);
  }

  /** _rev: dependents by dependency, over (source, target) pairs. */
  method ReverseIndex(edges: seq<(Node, Node)>) returns (rev: map<Node, set<Node>>)
    ensures Represents(rev, PairDependents(edges))
  {
    rev := map[];
    for i := 0 to |edges|
      invariant Represents(rev, PairDependents(edges[..i]))
    {
      var (src, tgt) := edges[i];
      assert edges[..i + 1] == edges[..i] + [(src, tgt)];
      assert PairDependents(edges[..i + 1]) == PairDependents(edges[..i]) + {(tgt, src)};
      rev := rev[tgt := Successors(rev, tgt) + {src}];
    }
    assert edges[..|edges|] == edges;
  }

  ghost function PairDependents(edges: seq<(Node, Node)>): Rel
  {
    set p | p in edges :: (p.1, p.0)
  }

  // ---- the worklists ----

  /** A dependent that is looked at while not yet affected and is not a task is a KeyError. */
  ghost predicate ForeignDependent(tasks: map<Node, Validity>, edges: seq<Edge>, seed: Node)
  {
    exists u, v :: ForeignAt(tasks, edges, seed, u, v)
  }

  ghost predicate ForeignAt(tasks: map<Node, Validity>, edges: seq<Edge>, seed: Node, u: Node, v: Node)
  {
    && Reach(Gated(Dependents(edges), VerifiedTasks(tasks)), seed, u)
    && (u, v) in Dependents(edges) && v !in tasks && v != seed
  }

  /** An affected task has a dependent that is no task. */
  ghost predicate MeetsForeign(tasks: map<Node, Validity>, edges: seq<Edge>, seed: Node)
  {
    exists u, v :: AffectsVerified(tasks, edges, seed, u) && Passes(edges, u, v) && v !in tasks && v != seed
  }

  lemma MeetsForeignExact(tasks: map<Node, Validity>, edges: seq<Edge>, seed: Node)
    ensures MeetsForeign(tasks, edges, seed) <==> ForeignDependent(tasks, edges, seed)
  {
    forall u, v
      ensures ForeignAt(tasks, edges, seed, u, v)
         <==> AffectsVerified(tasks, edges, seed, u) && Passes(edges, u, v) && v !in tasks && v != seed
    {
      AffectsVerifiedExact(tasks, edges, seed, u);
      PassesExact(edges, u, v);
    }
  }

  ghost predicate Known(rev: map<Node, set<Node>>, tasks: set<Node>, seed: Node, w: Node)
  {
    forall v | v in Successors(rev, w) :: v in tasks || v == seed
  }

  ghost predicate AllKnown(rev: map<Node, set<Node>>, tasks: set<Node>, seed: Node, affected: set<Node>)
  {
    forall w | w in affected :: Known(rev, tasks, seed, w)
  }

  lemma GatedReach(e: Rel, tasks: map<Node, Validity>, seed: Node, v: Node)
    requires Reach(e, seed, v) && forall p | p in e :: p.1 in tasks
    ensures v in tasks || v == seed
  {
    forall a, b | a in tasks.Keys + {seed} && (a, b) in e ensures b in tasks.Keys + {seed} {
      assert (a, b).1 == b;
    }
    ClosedReach(e, tasks.Keys + {seed}, seed, v);
  }

  lemma NoneForeign(tasks: map<Node, Validity>, edges: seq<Edge>, seed: Node, rev: map<Node, set<Node>>, affected: set<Node>)
    requires Represents(rev, Dependents(edges))
    requires IsCone(Gated(Dependents(edges), VerifiedTasks(tasks)), seed, affected)
    requires AllKnown(rev, tasks.Keys, seed, affected)
    ensures !ForeignDependent(tasks, edges, seed)
  {
    forall u, v ensures !ForeignAt(tasks, edges, seed, u, v) {
      assert Reach(Gated(Dependents(edges), VerifiedTasks(tasks)), seed, u) ==> u in affected;
    }
  }

  /** The inner loop of reference_gated. */
  method GateSuccessors(seed: Node, tasks: map<Node, Validity>, ghost edges: seq<Edge>, rev: map<Node, set<Node>>,
                        affected: set<Node>, q0: seq<Node>, u: Node)
    returns (ok: bool, q: seq<Node>)
    requires Represents(rev, Dependents(edges)) && u in affected && seed in affected
    requires Draining(Gated(Dependents(edges), VerifiedTasks(tasks)), seed, affected, q0, u, Successors(rev, u))
    ensures ok ==> Known(rev, tasks.Keys, seed, u)
    ensures ok ==> Draining(Gated(Dependents(edges), VerifiedTasks(tasks)), seed, affected, q, u, {})
    ensures !ok ==> ForeignDependent(tasks, edges, seed)
  {
    ghost var e := Gated(Dependents(edges), VerifiedTasks(tasks));
    var rest := Successors(rev, u);
    q := q0;
    while rest != {}
      invariant Draining(e, seed, affected, q, u, rest)
      invariant rest <= Successors(rev, u)
      invariant forall v | v in Successors(rev, u) - rest :: v in tasks || v in affected
      decreases |rest|
    {
      var v :| v in rest;
      assert (u, v) in Dependents(edges);
      if v !in affected {
        if v !in tasks {
          assert ForeignAt(tasks, edges, seed, u, v);
          return false, q;
        }
        if tasks[v] == Verified {
          assert (u, v) in e;
          Enqueue(e, seed, affected, q, u, rest, v);
          q := q + [v];
        }
      }
      rest := rest - {v};
    }
    forall v | v in affected ensures v in tasks || v == seed {
      GatedReach(e, tasks, seed, v);
    }
    return true, q;
  }

  /** reference_gated: exactly the seed and what it reaches through VERIFIED dependents. */
  method ReferenceGated(seed: Node, tasks: map<Node, Validity>, edges: seq<Edge>)
    returns (r: Option<set<Node>>)
    ensures r.None? <==> ForeignTarget(tasks.Keys, edges) || MeetsForeign(tasks, edges, seed)
    ensures r.Some? ==> IsCone(Gated(Dependents(edges), VerifiedTasks(tasks)), seed, r.value)
    ensures r.Some? ==> forall v :: v in r.value <==> AffectsVerified(tasks, edges, seed, v)
  {
    MeetsForeignExact(tasks, edges, seed);
    forall v ensures AffectsVerified(tasks, edges, seed, v) <==> Reach(Gated(Dependents(edges), VerifiedTasks(tasks)), seed, v) {
      AffectsVerifiedExact(tasks, edges, seed, v);
    }
    var index := ReverseDeps(tasks.Keys, edges);
    if index.None? {
      return None;
    }
    r := DrainGated(seed, tasks, edges, index.value);
  }

  method DrainGated(seed: Node, tasks: map<Node, Validity>, ghost edges: seq<Edge>, rev: map<Node, set<Node>>)
    returns (r: Option<set<Node>>)
    requires Represents(rev, Dependents(edges)) && rev.Keys == tasks.Keys
    ensures r.None? <==> ForeignDependent(tasks, edges, seed)
    ensures r.Some? ==> IsCone(Gated(Dependents(edges), VerifiedTasks(tasks)), seed, r.value)
  {
    ghost var e := Gated(Dependents(edges), VerifiedTasks(tasks));
    var affected: set<Node> := {};
    var q := [seed];
    ghost var last := seed;
    ReachSelf(e, seed);
    while q != []
      invariant Draining(e, seed, affected, q, last, {})
      invariant q == [seed] || seed in affected
      invariant AllKnown(rev, tasks.Keys, seed, affected)
      decreases |Ends(e) + {seed}| - |affected|, |q|
    {
      var u := q[0];
      if u in affected {
        SkipPop(e, seed, affected, q, last);
        q := q[1..];
        continue;
      }
      TakePop(e, seed, affected, q, last, Successors(rev, u));
      DoneBounded(e, seed, affected, u);
      affected, q := affected + {u}, q[1..];
      last := u;
      var ok;
      ok, q := GateSuccessors(seed, tasks, edges, rev, affected, q, u);
      if !ok {
        return None;
      }
    }
    Drained(e, seed, affected, last);
    NoneForeign(tasks, edges, seed, rev, affected);
    return Some(affected);
  }

  /** reference_expected, reference_ungated and the reach loop of validate_graph. */
  method ReferenceUngated(seed: Node, tasks: set<Node>, edges: seq<Edge>) returns (r: Option<set<Node>>)
    ensures r.None? <==> ForeignTarget(tasks, edges)
    ensures r.Some? ==> IsCone(Dependents(edges), seed, r.value)
    ensures r.Some? ==> forall v :: v in r.value <==> Affects(edges, seed, v)
  {
    forall v ensures Affects(edges, seed, v) <==> Reach(Dependents(edges), seed, v) {
      AffectsExact(edges, seed, v);
    }
    var index := ReverseDeps(tasks, edges);
    if index.None? {
      return None;
    }
    var affected := Drain(index.value, seed, Dependents(edges));
    return Some(affected);
  }

  method Drain(rev: map<Node, set<Node>>, seed: Node, ghost e: Rel) returns (affected: set<Node>)
    requires Represents(rev, e)
    ensures IsCone(e, seed, affected)
  {
    affected := {};
    var q := [seed];
    ghost var last := seed;
    ReachSelf(e, seed);
    while q != []
      invariant Draining(e, seed, affected, q, last, {})
      decreases |Ends(e) + {seed}| - |affected|, |q|
    {
      var u := q[0];
      if u in affected {
        SkipPop(e, seed, affected, q, last);
        q := q[1..];
        continue;
      }
      var rest := Successors(rev, u);
      TakePop(e, seed, affected, q, last, rest);
      DoneBounded(e, seed, affected, u);
      affected, q := affected + {u}, q[1..];
      last := u;
      while rest != {}
        invariant Draining(e, seed, affected, q, u, rest)
        invariant u in affected && rest <= Successors(rev, u)
        decreases |rest|
      {
        var v :| v in rest;
        assert (u, v) in e;
        Enqueue(e, seed, affected, q, u, rest, v);
        q := q + [v];
        rest := rest - {v};
      }
    }
    Drained(e, seed, affected, last);
  }

  ghost predicate AnyReach(e: Rel, seeds: seq<Node>, v: Node)
  {
    exists s | s in seeds :: Reach(e, s, v)
  }

  /** The multi-seed reference: the union of the single-seed closures. */
  method MultiSeedExpected(seeds: seq<Node>, tasks: set<Node>, edges: seq<Edge>) returns (r: Option<set<Node>>)
    ensures r.None? <==> ForeignTarget(tasks, edges)
    ensures r.Some? ==> forall v :: v in r.value <==> exists s | s in seeds :: Affects(edges, s, v)
  {
    forall s, v ensures Affects(edges, s, v) <==> Reach(Dependents(edges), s, v) {
      AffectsExact(edges, s, v);
    }
    var index := ReverseDeps(tasks, edges);
    if index.None? {
      return None;
    }
    ghost var e := Dependents(edges);
    var expected: set<Node> := {};
    for i := 0 to |seeds|
      invariant forall v :: v in expected <==> AnyReach(e, seeds[..i], v)
    {
      var seen := Drain(index.value, seeds[i], e);
      forall v ensures v in expected + seen <==> AnyReach(e, seeds[..i + 1], v) {
        assert seeds[..i + 1] == seeds[..i] + [seeds[i]];
        assert v in seen <==> Reach(e, seeds[i], v);
        assert v in expected <==> AnyReach(e, seeds[..i], v);
      }
      expected := expected + seen;
    }
    assert seeds[..|seeds|] == seeds;
    return Some(expected);
  }

  /** Propagation stops at content-stable tasks other than the root. */
  ghost function Cutoff(e: Rel, root: Node, stable: set<Node>): Rel
  {
    set p | p in e && (p.0 == root || p.0 !in stable)
  }

  /** v is declared to depend on u, and u is the root or not stable. */
  ghost predicate PairLink(edges: seq<(Node, Node)>, root: Node, stable: set<Node>, u: Node, v: Node)
  {
    (v, u) in edges && (u == root || u !in stable)
  }

  /** A trail from the root to b along declared pairs that passes no stable task on its way,
      the root aside. */
  ghost predicate PairTrail(edges: seq<(Node, Node)>, p: seq<Node>, root: Node, b: Node, stable: set<Node>)
  {
    && |p| > 0 && p[0] == root && p[|p| - 1] == b
    && forall i: nat | i + 1 < |p| :: PairLink(edges, root, stable, p[i], p[i + 1])
  }

  ghost predicate PairReach(edges: seq<(Node, Node)>, root: Node, b: Node, stable: set<Node>)
  {
    exists p :: PairTrail(edges, p, root, b, stable)
  }

  lemma PairLinkExact(edges: seq<(Node, Node)>, root: Node, stable: set<Node>, u: Node, v: Node)
    ensures PairLink(edges, root, stable, u, v) <==> (u, v) in Cutoff(PairDependents(edges), root, stable)
  {
    if (v, u) in edges {
      assert ((v, u).1, (v, u).0) == (u, v);
    }
  }

  lemma PairTrailExact(edges: seq<(Node, Node)>, p: seq<Node>, root: Node, b: Node, stable: set<Node>)
    ensures PairTrail(edges, p, root, b, stable) <==> Connects(Cutoff(PairDependents(edges), root, stable), p, root, b)
  {
    if |p| > 0 {
      forall i: nat | i + 1 < |p|
        ensures Linked(Cutoff(PairDependents(edges), root, stable), p, i) <==> PairLink(edges, root, stable, p[i], p[i + 1])
      {
        PairLinkExact(edges, root, stable, p[i], p[i + 1]);
      }
    }
  }

  lemma PairReachExact(edges: seq<(Node, Node)>, root: Node, b: Node, stable: set<Node>)
    ensures PairReach(edges, root, b, stable) <==> Reach(Cutoff(PairDependents(edges), root, stable), root, b)
    ensures Cutoff(PairDependents(edges), root, {}) == PairDependents(edges)
  {
    forall p ensures PairTrail(edges, p, root, b, stable) <==> Connects(Cutoff(PairDependents(edges), root, stable), p, root, b) {
      PairTrailExact(edges, p, root, b, stable);
    }
  }

  /** Queue the dependents that are not hit yet. */
  method PushNew(ghost e: Rel, ghost root: Node, hit: set<Node>, q0: seq<Node>, ghost u: Node, dependents: set<Node>)
    returns (q: seq<Node>)
    requires Draining(e, root, hit, q0, u, dependents) && u in hit && forall v | v in dependents :: (u, v) in e
    ensures Draining(e, root, hit, q, u, {})
  {
    q := q0;
    var rest := dependents;
    while rest != {}
      invariant rest <= dependents && Draining(e, root, hit, q, u, rest)
      decreases |rest|
    {
      var v :| v in rest;
      if v !in hit {
        Enqueue(e, root, hit, q, u, rest, v);
        q := q + [v];
      }
      rest := rest - {v};
    }
  }

  /** The dependents a hit task passes the change on to. */
  function Followed(rev: map<Node, set<Node>>, root: Node, stable: set<Node>, earlyCutoff: bool, u: Node): set<Node>
  {
    if earlyCutoff && u != root && u in stable then {} else Successors(rev, u)
  }

  lemma FollowedExact(rev: map<Node, set<Node>>, all: Rel, e: Rel, root: Node, stable: set<Node>, earlyCutoff: bool, u: Node)
    requires Represents(rev, all) && e == if earlyCutoff then Cutoff(all, root, stable) else all
    ensures forall v: Node :: v in Followed(rev, root, stable, earlyCutoff, u) <==> (u, v) in e
  {
  }

  /** policy_static over declared edges; with earlyCutoff over the real edges it is
      `truth`, whose body is this loop. */
  method PolicyStatic(root: Node, edges: seq<(Node, Node)>, stable: set<Node>, earlyCutoff: bool)
    returns (hit: set<Node>)
    ensures earlyCutoff ==> IsCone(Cutoff(PairDependents(edges), root, stable), root, hit)
    ensures !earlyCutoff ==> IsCone(PairDependents(edges), root, hit)
    ensures forall v :: v in hit <==> PairReach(edges, root, v, if earlyCutoff then stable else {})
  {
    forall v
      ensures PairReach(edges, root, v, stable) <==> Reach(Cutoff(PairDependents(edges), root, stable), root, v)
      ensures PairReach(edges, root, v, {}) <==> Reach(PairDependents(edges), root, v)
    {
      PairReachExact(edges, root, v, stable);
      PairReachExact(edges, root, v, {});
    }
    var rev := ReverseIndex(edges);
    ghost var all := PairDependents(edges);
    ghost var e := if earlyCutoff then Cutoff(all, root, stable) else all;
    hit := {};
    var q := [root];
    ghost var last := root;
    ReachSelf(e, root);
    while q != []
      invariant Draining(e, root, hit, q, last, {})
      decreases |Ends(e) + {root}| - |hit|, |q|
    {
      var u := q[0];
      if u in hit {
        SkipPop(e, root, hit, q, last);
        q := q[1..];
        continue;
      }
      var rest := Followed(rev, root, stable, earlyCutoff, u);
      FollowedExact(rev, all, e, root, stable, earlyCutoff, u);
      TakePop(e, root, hit, q, last, rest);
      DoneBounded(e, root, hit, u);
      hit, q := hit + {u}, q[1..];
      last := u;
      q := PushNew(e, root, hit, q, u, rest);
    }
    Drained(e, root, hit, last);
  }
}

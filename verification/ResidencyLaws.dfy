/** Laws of whole simulation runs under different windows, policies and kappas. */
module ResidencyLaws {
  import opened Collections
  import opened Residency

  // ---- the LRU stack property ----

  ghost predicate IsSuffix(r: seq<Artifact>, u: seq<Artifact>)
  {
    |r| <= |u| && u[|u| - |r|..] == r
  }

  lemma {:induction false} RemoveConcat(x: seq<Artifact>, r: seq<Artifact>, a: Artifact)
    ensures Remove(x + r, a) == if a in x then Remove(x, a) + r else x + Remove(r, a)
  {
    if x == [] {
      assert x + r == r;
    } else {
      var y := x[1..];
      assert x == [x[0]] + y && (x + r)[1..] == y + r;
      RemoveConcat(y, r, a);
      assert [x[0]] + (Remove(y, a) + r) == [x[0]] + Remove(y, a) + r;
    }
  }

  lemma {:induction false} RemoveOnce(r: seq<Artifact>, a: Artifact)
    requires NoRepeat(r)
    ensures NoRepeat(Remove(r, a)) && forall b :: b in Remove(r, a) <==> b in r && b != a
    ensures |Remove(r, a)| == |r| - if a in r then 1 else 0
  {
    if r != [] {
      assert forall b :: b in r <==> b == r[0] || b in r[1..];
      RemoveOnce(r[1..], a);
      assert r[0] !in r[1..];
    }
  }

  lemma NoRepeatSplit(x: seq<Artifact>, r: seq<Artifact>)
    requires NoRepeat(x + r)
    ensures NoRepeat(r) && forall a | a in x :: a !in r
  {
    var u := x + r;
    forall i, j | 0 <= i < j < |r| ensures r[i] != r[j] {
      assert u[|x| + i] != u[|x| + j];
    }
    forall i, j | 0 <= i < |x| && 0 <= j < |r| ensures x[i] != r[j] {
      assert u[i] != u[|x| + j];
    }
  }

  lemma TouchOnce(u: seq<Artifact>, a: Artifact)
    requires NoRepeat(u)
    ensures NoRepeat(Touch(u, a)) && |Touch(u, a)| >= |u|
  {
    RemoveOnce(u, a);
  }

  lemma TouchConcat(x: seq<Artifact>, r: seq<Artifact>, a: Artifact)
    requires NoRepeat(x + r)
    ensures Touch(x + r, a) == (if a in x then Remove(x, a) else x) + Touch(r, a)
  {
    RemoveConcat(x, r, a);
    NoRepeatSplit(x, r);
    if a in x {
      RemoveAbsent(r, a);
    }
  }

  /** Touching the same artifact keeps a bounded list a suffix of the full one. */
  lemma SuffixTouch(r: seq<Artifact>, u: seq<Artifact>, a: Artifact)
    requires NoRepeat(u) && IsSuffix(r, u)
    ensures NoRepeat(Touch(u, a)) && IsSuffix(Touch(r, a), Touch(u, a)) && |Touch(r, a)| >= |r|
  {
    var x := u[..|u| - |r|];
    assert u == x + r;
    NoRepeatSplit(x, r);
    TouchConcat(x, r, a);
    TouchOnce(u, a);
    TouchOnce(r, a);
  }

  lemma {:induction false} SuffixTouchAll(r: seq<Artifact>, u: seq<Artifact>, deps: seq<Artifact>)
    requires NoRepeat(u) && IsSuffix(r, u)
    ensures NoRepeat(TouchAll(u, deps)) && IsSuffix(TouchAll(r, deps), TouchAll(u, deps))
    ensures |TouchAll(r, deps)| >= |r|
  {
    if deps != [] {
      var init := deps[..|deps| - 1];
      SuffixTouchAll(r, u, init);
      SuffixTouch(TouchAll(r, init), TouchAll(u, init), deps[|deps| - 1]);
    }
  }

  lemma SettleIsLast(u: seq<Artifact>, deps: seq<Artifact>, w: nat)
    requires NoRepeat(u)
    ensures Settle(LastOf(u, w), deps, w) == LastOf(TouchAll(u, deps), w)
  {
    SuffixTouchAll(LastOf(u, w), u, deps);
  }

  /** After any dispatch history, an agent's list has no repeats and is exactly the
      last `w` entries of the list it would have with no eviction at all. */
  lemma {:induction false} StackProperty(tasks: seq<Task>, who: seq<Agent>, w: nat, a: Agent)
    requires |tasks| == |who|
    ensures NoRepeat(Recency(tasks, who, a))
    ensures Resident(tasks, who, w, a) == LastOf(Recency(tasks, who, a), w)
  {
    if tasks != [] {
      var n := |tasks| - 1;
      StackProperty(tasks[..n], who[..n], w, a);
      var u := Recency(tasks[..n], who[..n], a);
      SuffixTouchAll(u, u, tasks[n].deps);
      SettleIsLast(u, tasks[n].deps, w);
    }
  }

  lemma WiderMissSet(t: Task, u: seq<Artifact>, w: nat, v: nat)
    requires w <= v
    ensures |MissSet(t, LastOf(u, v))| <= |MissSet(t, LastOf(u, w))|
  {
    forall i | 0 <= i < |LastOf(u, w)| ensures LastOf(u, w)[i] in LastOf(u, v) {
      assert LastOf(u, w)[i] == LastOf(u, v)[|LastOf(u, v)| - |LastOf(u, w)| + i];
    }
    SubsetSize(MissSet(t, LastOf(u, v)), MissSet(t, LastOf(u, w)));
  }

  /** Widening the window never adds a miss to a given dispatch history. */
  lemma {:induction false} WiderMissesLess(tasks: seq<Task>, who: seq<Agent>, w: nat, v: nat)
    requires |tasks| == |who| && w <= v
    ensures Misses(tasks, who, v) <= Misses(tasks, who, w)
  {
    if tasks != [] {
      var n := |tasks| - 1;
      WiderMissesLess(tasks[..n], who[..n], w, v);
      StackProperty(tasks[..n], who[..n], w, who[n]);
      StackProperty(tasks[..n], who[..n], v, who[n]);
      WiderMissSet(tasks[n], Recency(tasks[..n], who[..n], who[n]), w, v);
    }
  }

  // ---- graph_only is round robin ----

  /** How many agents have a smaller id. */
  ghost function Rank(agents: seq<Agent>, a: Agent): nat
  {
    |set b | b in agents && b < a|
  }

  ghost function AgentSet(agents: seq<Agent>): (r: set<Agent>)
    ensures agents != [] ==> |r| > 0
  {
    var r := set a | a in agents;
    assert agents != [] ==> agents[0] in r;
    r
  }

  /** Loads differ by at most one, and the q + 1 loads are the agents of `ahead`, an
      initial segment of the id order. */
  ghost predicate Level(agents: seq<Agent>, who: seq<Agent>, q: nat, ahead: set<Agent>)
  {
    && ahead <= AgentSet(agents) && ahead != AgentSet(agents)
    && (forall a | a in agents :: Load(who, a) == q + if a in ahead then 1 else 0)
    && (forall a, b | a in ahead && b in agents && b < a :: b in ahead)
  }

  /** The least agent among the least loaded is the next one in id order. */
  lemma LevelChoice(w: nat, kappa: int, t: Task, tasks: seq<Task>, who: seq<Agent>, agents: seq<Agent>,
                    q: nat, ahead: set<Agent>, c: Agent)
    requires |tasks| == |who| && Level(agents, who, q, ahead)
    requires IsChoice(GraphOnly, kappa, w, t, tasks, who, agents, c)
    ensures c !in ahead && ahead == (set b | b in agents && b < c)
  {
    var rest := AgentSet(agents) - ahead;
    assert AgentSet(agents) == ahead + rest;
    var other :| other in rest;
    assert !Less(KeyAt(GraphOnly, kappa, w, t, tasks, who, other), KeyAt(GraphOnly, kappa, w, t, tasks, who, c));
    forall b | b in agents && b < c ensures b in ahead {
      assert !Less(KeyAt(GraphOnly, kappa, w, t, tasks, who, b), KeyAt(GraphOnly, kappa, w, t, tasks, who, c));
    }
    forall b | b in ahead ensures b in agents && b < c {
      assert b in AgentSet(agents);
    }
  }

  lemma LoadAppend(who: seq<Agent>, c: Agent, a: Agent)
    ensures Load(who + [c], a) == Load(who, a) + if c == a then 1 else 0
  {
    assert (who + [c])[..|who|] == who;
  }

  lemma OneMore(q: nat, n: nat)
    ensures (q + 1) * n == q * n + n
  {
  }

  lemma LevelStep(agents: seq<Agent>, who: seq<Agent>, q: nat, ahead: set<Agent>, c: Agent)
    returns (q': nat, ahead': set<Agent>)
    requires Level(agents, who, q, ahead) && c in agents && c !in ahead
    requires ahead == (set b | b in agents && b < c)
    ensures Level(agents, who + [c], q', ahead')
    ensures q' * |AgentSet(agents)| + |ahead'| == q * |AgentSet(agents)| + |ahead| + 1
  {
    var all := AgentSet(agents);
    assert c in all && |ahead + {c}| == |ahead| + 1;
    forall a | a in agents ensures Load(who + [c], a) == Load(who, a) + if c == a then 1 else 0 {
      LoadAppend(who, c, a);
    }
    if ahead + {c} == all {
      q', ahead' := q + 1, {};
      OneMore(q, |all|);
    } else {
      q', ahead' := q, ahead + {c};
    }
  }

  lemma {:induction false} RoundRobinLevel(kappa: int, w: nat, tasks: seq<Task>, agents: seq<Agent>)
    returns (q: nat, ahead: set<Agent>)
    requires agents != []
    ensures Level(agents, Dispatches(GraphOnly, kappa, w, tasks, agents), q, ahead)
    ensures |tasks| == q * |AgentSet(agents)| + |ahead|
  {
    if tasks == [] {
      q, ahead := 0, {};
      assert agents[0] in AgentSet(agents);
    } else {
      var n := |tasks| - 1;
      var who := Dispatches(GraphOnly, kappa, w, tasks[..n], agents);
      q, ahead := RoundRobinLevel(kappa, w, tasks[..n], agents);
      var c := Choose(GraphOnly, kappa, w, tasks[n], tasks[..n], who, agents);
      ChooseIsChoice(GraphOnly, kappa, w, tasks[n], tasks[..n], who, agents);
      LevelChoice(w, kappa, tasks[n], tasks[..n], who, agents, q, ahead, c);
      q, ahead := LevelStep(agents, who, q, ahead, c);
    }
  }

  lemma ModUnique(i: nat, n: nat, q: nat, s: nat)
    requires s < n && i == q * n + s
    ensures i % n == s
  {
    var d := q - i / n;
    assert n * d == q * n - n * (i / n);
    assert n * d == i % n - s;
    assert d >= 1 ==> n * d >= n;
    assert d <= -1 ==> n * d <= 0 - n;
  }

  /** Under graph_only the i-th task goes to the agent of rank i mod n, whatever the
      window and kappa are. */
  lemma RoundRobin(kappa: int, w: nat, tasks: seq<Task>, agents: seq<Agent>, i: nat)
    requires agents != [] && i < |tasks|
    ensures Dispatches(GraphOnly, kappa, w, tasks, agents)[i] in agents
    ensures Rank(agents, Dispatches(GraphOnly, kappa, w, tasks, agents)[i]) == i % |AgentSet(agents)|
  {
    var init := tasks[..i + 1];
    assert init[..i] == tasks[..i];
    DispatchPrefix(GraphOnly, kappa, w, tasks, agents, i + 1);
    var who := Dispatches(GraphOnly, kappa, w, tasks[..i], agents);
    var q, ahead := RoundRobinLevel(kappa, w, tasks[..i], agents);
    var c := Choose(GraphOnly, kappa, w, tasks[i], tasks[..i], who, agents);
    assert Dispatches(GraphOnly, kappa, w, init, agents) == who + [c];
    assert Dispatches(GraphOnly, kappa, w, tasks, agents)[i] == c;
    ChooseIsChoice(GraphOnly, kappa, w, tasks[i], tasks[..i], who, agents);
    LevelChoice(w, kappa, tasks[i], tasks[..i], who, agents, q, ahead, c);
    ProperSize(ahead, AgentSet(agents), c);
    ModUnique(i, |AgentSet(agents)|, q, |ahead|);
  }

  lemma PrefixOfPrefix(tasks: seq<Task>, n: nat, i: nat)
    requires i <= n <= |tasks|
    ensures tasks[..n][..i] == tasks[..i]
  {
  }

  /** Earlier dispatches do not depend on later tasks. */
  lemma {:induction false} DispatchPrefix(p: Policy, kappa: int, w: nat, tasks: seq<Task>, agents: seq<Agent>, i: nat)
    requires agents != [] && i <= |tasks|
    ensures Dispatches(p, kappa, w, tasks, agents)[..i] == Dispatches(p, kappa, w, tasks[..i], agents)
  {
    if i < |tasks| {
      var n := |tasks| - 1;
      PrefixOfPrefix(tasks, n, i);
      DispatchPrefix(p, kappa, w, tasks[..n], agents, i);
      assert Dispatches(p, kappa, w, tasks, agents)[..i] == Dispatches(p, kappa, w, tasks[..n], agents)[..i];
    } else {
      assert tasks[..i] == tasks;
    }
  }

  // ---- comparing runs ----

  /** Two policies order the agents alike on a task. */
  ghost predicate SameOrder(p: Policy, k: int, w: nat, p': Policy, k': int, w': nat,
                            t: Task, tasks: seq<Task>, who: seq<Agent>)
    requires |tasks| == |who|
  {
    forall a, b :: Less(KeyAt(p, k, w, t, tasks, who, a), KeyAt(p, k, w, t, tasks, who, b))
              <==> Less(KeyAt(p', k', w', t, tasks, who, a), KeyAt(p', k', w', t, tasks, who, b))
  }

  ghost predicate AlwaysSameOrder(p: Policy, k: int, w: nat, p': Policy, k': int, w': nat)
  {
    forall t: Task, tasks: seq<Task>, who: seq<Agent> | |tasks| == |who| :: SameOrder(p, k, w, p', k', w', t, tasks, who)
  }

  lemma {:induction false} SameDispatches(p: Policy, k: int, w: nat, p': Policy, k': int, w': nat,
                                          tasks: seq<Task>, agents: seq<Agent>)
    requires agents != [] && AlwaysSameOrder(p, k, w, p', k', w')
    ensures Dispatches(p, k, w, tasks, agents) == Dispatches(p', k', w', tasks, agents)
  {
    if tasks != [] {
      var n := |tasks| - 1;
      SameDispatches(p, k, w, p', k', w', tasks[..n], agents);
      var who := Dispatches(p, k, w, tasks[..n], agents);
      var c := Choose(p, k, w, tasks[n], tasks[..n], who, agents);
      ChooseIsChoice(p, k, w, tasks[n], tasks[..n], who, agents);
      ChooseIsChoice(p', k', w', tasks[n], tasks[..n], who, agents);
      assert SameOrder(p, k, w, p', k', w', tasks[n], tasks[..n], who);
      assert IsChoice(p', k', w', tasks[n], tasks[..n], who, agents, c);
      ChoiceUnique(p', k', w', tasks[n], tasks[..n], who, agents, c,
                   Choose(p', k', w', tasks[n], tasks[..n], who, agents));
    }
  }

  /** graph_only dispatches ignore window and kappa, so a wider window never misses more. */
  lemma GraphOnlyWindow(kappa: int, kappa': int, w: nat, v: nat, tasks: seq<Task>, agents: seq<Agent>)
    requires agents != [] && w <= v
    ensures Dispatches(GraphOnly, kappa, w, tasks, agents) == Dispatches(GraphOnly, kappa', v, tasks, agents)
    ensures Misses(tasks, Dispatches(GraphOnly, kappa', v, tasks, agents), v)
         <= Misses(tasks, Dispatches(GraphOnly, kappa, w, tasks, agents), w)
  {
    SameDispatches(GraphOnly, kappa, w, GraphOnly, kappa', v, tasks, agents);
    WiderMissesLess(tasks, Dispatches(GraphOnly, kappa, w, tasks, agents), w, v);
  }

  /** With free context loads, sigma_aware dispatches exactly as graph_only. */
  lemma SigmaZeroIsGraphOnly(kappa: int, w: nat, tasks: seq<Task>, agents: seq<Agent>)
    requires agents != []
    ensures Dispatches(SigmaAware, 0, w, tasks, agents) == Dispatches(GraphOnly, kappa, w, tasks, agents)
  {
    SameDispatches(SigmaAware, 0, w, GraphOnly, kappa, w, tasks, agents);
  }

  /** Any positive kappa gives the same dispatches, hence the same misses. */
  lemma SigmaKappaIrrelevant(k: int, k': int, w: nat, tasks: seq<Task>, agents: seq<Agent>)
    requires agents != [] && k >= 1 && k' >= 1
    ensures Dispatches(SigmaAware, k, w, tasks, agents) == Dispatches(SigmaAware, k', w, tasks, agents)
  {
    forall t: Task, ts: seq<Task>, who: seq<Agent> | |ts| == |who|
      ensures SameOrder(SigmaAware, k, w, SigmaAware, k', w, t, ts, who)
    {
      forall a, b
        ensures Less(KeyAt(SigmaAware, k, w, t, ts, who, a), KeyAt(SigmaAware, k, w, t, ts, who, b))
           <==> Less(KeyAt(SigmaAware, k', w, t, ts, who, a), KeyAt(SigmaAware, k', w, t, ts, who, b))
      {
        var x, y := |MissSet(t, Resident(ts, who, w, a))|, |MissSet(t, Resident(ts, who, w, b))|;
        Scaling(t.exec, k, x, y);
        Scaling(t.exec, k', x, y);
      }
    }
    SameDispatches(SigmaAware, k, w, SigmaAware, k', w, tasks, agents);
  }

  // ---- cost ----

  /** Every run costs its execution time plus kappa per miss. */
  lemma {:induction false} CostLaw(tasks: seq<Task>, who: seq<Agent>, kappa: int, w: nat)
    requires |tasks| == |who|
    ensures Cost(tasks, who, kappa, w) == ExecSum(tasks) + kappa * Misses(tasks, who, w)
  {
    if tasks != [] {
      var n := |tasks| - 1;
      CostLaw(tasks[..n], who[..n], kappa, w);
      var m, x := Misses(tasks[..n], who[..n], w), |MissSet(tasks[n], Resident(tasks[..n], who[..n], w, who[n]))|;
      assert kappa * (m + x) == kappa * m + kappa * x;
    }
  }

  ghost function PolicyCost(p: Policy, k: int, w: nat, tasks: seq<Task>, agents: seq<Agent>): int
    requires agents != []
  {
    Cost(tasks, Dispatches(p, k, w, tasks, agents), k, w)
  }

  ghost function PolicyMisses(p: Policy, k: int, w: nat, tasks: seq<Task>, agents: seq<Agent>): nat
    requires agents != []
  {
    Misses(tasks, Dispatches(p, k, w, tasks, agents), w)
  }

  lemma CrossTerms(e: int, k: int, l: int, g: int, s: int)
    ensures (e + l * g) * (e + k * s) - (e + k * g) * (e + l * s) == e * ((l - k) * (g - s))
  {
    calc {
      (e + l * g) * (e + k * s) - (e + k * g) * (e + l * s);
      (e * e + e * (k * s) + (l * g) * e + (l * g) * (k * s)) - (e * e + e * (l * s) + (k * g) * e + (k * g) * (l * s));
      { assert (l * g) * (k * s) == (k * g) * (l * s); }
      e * (k * s) + (l * g) * e - e * (l * s) - (k * g) * e;
      e * (k * s + l * g - l * s - k * g);
      { assert k * s + l * g - l * s - k * g == (l - k) * (g - s); }
      e * ((l - k) * (g - s));
    }
  }

  lemma ProductSign(e: int, d: int, m: int)
    requires e > 0 && d > 0
    ensures e * (d * m) >= 0 <==> m >= 0
  {
    if m >= 0 {
      assert d * m >= 0;
    } else {
      assert d * m < 0;
      assert e * (d * m) < 0;
    }
  }

  lemma RatioArithmetic(e: int, k: int, l: int, g: nat, s: nat, gk: int, gl: int, sk: int, sl: int)
    requires e > 0 && 1 <= k < l
    requires gk == e + k * g && gl == e + l * g && sk == e + k * s && sl == e + l * s
    ensures sk > 0 && sl > 0
    ensures gk * sl <= gl * sk <==> g >= s
  {
    CrossTerms(e, k, l, g, s);
    ProductSign(e, l - k, g - s);
    assert k * s >= 0 && l * s >= 0;
  }

  /** The graph/sigma cost ratio does not fall from kappa k to a larger l exactly when
      graph_only misses at least as often as sigma_aware. Ratios are compared by
      cross-multiplication; both costs are positive. */
  lemma RatioGrowsExactly(k: int, l: int, w: nat, tasks: seq<Task>, agents: seq<Agent>)
    requires agents != [] && 1 <= k < l && ExecSum(tasks) > 0
    ensures PolicyCost(SigmaAware, k, w, tasks, agents) > 0 && PolicyCost(SigmaAware, l, w, tasks, agents) > 0
    ensures PolicyCost(GraphOnly, k, w, tasks, agents) * PolicyCost(SigmaAware, l, w, tasks, agents)
         <= PolicyCost(GraphOnly, l, w, tasks, agents) * PolicyCost(SigmaAware, k, w, tasks, agents)
       <==> PolicyMisses(GraphOnly, k, w, tasks, agents) >= PolicyMisses(SigmaAware, k, w, tasks, agents)
  {
    GraphOnlyWindow(k, l, w, w, tasks, agents);
    SigmaKappaIrrelevant(k, l, w, tasks, agents);
    var gw, sw := Dispatches(GraphOnly, k, w, tasks, agents), Dispatches(SigmaAware, k, w, tasks, agents);
    CostLaw(tasks, gw, k, w);
    CostLaw(tasks, gw, l, w);
    CostLaw(tasks, sw, k, w);
    CostLaw(tasks, sw, l, w);
    var e, g, s := ExecSum(tasks), Misses(tasks, gw, w), Misses(tasks, sw, w);
    RatioArithmetic(e, k, l, g, s, Cost(tasks, gw, k, w), Cost(tasks, gw, l, w), Cost(tasks, sw, k, w), Cost(tasks, sw, l, w));
  }
}

/** Which agents may run a task, and which of them the scheduler picks. */
module Matching {
  import opened Collections

  type AgentId = nat
  type Pid = nat
  type Word = nat

  datatype ProcState = Created | Ready | Running | Blocked | Exited | Failed

  /** A required capability: `resource:op`, or text without a colon. */
  datatype Capability = Grant(resource: Word, op: Word) | Plain(text: Word)

  /** resident: the keys a snapshot shows the agent has read; none without a snapshot. */
  datatype Agent = Agent(pid: Pid, kinds: set<Word>, anyKind: bool, specs: set<Word>, tools: set<Word>,
                         resident: set<Word>, maxConcurrency: nat, cost: nat, enabled: bool)

  /** keys: the task's declared read keys. */
  datatype Requirements = Requirements(kind: Option<Word>, specs: set<Word>, tools: set<Word>, caps: set<Capability>,
                                       preferredSpecs: set<Word>, preferredAgent: Option<AgentId>, keys: set<Word>,
                                       priority: int)

  /** What eligibility looks up in the kernel. */
  datatype Kernel = Kernel(procs: map<Pid, ProcState>, grants: set<(Pid, Word, Word)>)

  const SPECIALIZATION_BONUS := 10
  const LOCALITY_BONUS := 5
  const LOCALITY_BONUS_MAX := 25
  const PREFERRED_AGENT_BONUS := 20
  const LOAD_PENALTY := 1
  const COST_PENALTY_DIVISOR := 50
  const PRIORITY_CAP := 3

  predicate Alive(k: Kernel, pid: Pid)
  {
    pid in k.procs && !k.procs[pid].Exited? && !k.procs[pid].Failed?
  }

  predicate Schedulable(k: Kernel, pid: Pid)
  {
    pid in k.procs && (k.procs[pid].Created? || k.procs[pid].Ready? || k.procs[pid].Running?)
  }

  /** Text without a colon asks for nothing. */
  predicate Granted(k: Kernel, pid: Pid, c: Capability)
  {
    c.Grant? ==> (pid, c.resource, c.op) in k.grants
  }

  predicate SupportsKind(a: Agent, kind: Option<Word>)
  {
    kind == None || (a.kinds == {} && !a.anyKind) || a.anyKind || kind.value in a.kinds
  }

  predicate Eligible(k: Kernel, a: Agent, r: Requirements, load: nat)
  {
    && a.enabled
    && Schedulable(k, a.pid)
    && load < a.maxConcurrency
    && SupportsKind(a, r.kind)
    && r.specs <= a.specs
    && r.tools <= a.tools
    && forall c | c in r.caps :: Granted(k, a.pid, c)
  }

  /** The agent and the task fit, whatever else the agent is doing: it is enabled, its
      process is created, ready or running, it takes tasks of the kind, and it holds every
      specialization, every tool and every capability the task asks for. */
  ghost predicate Fit(k: Kernel, a: Agent, r: Requirements)
  {
    && a.enabled
    && a.pid in k.procs && k.procs[a.pid] in {Created, Ready, Running}
    && (r.kind.Some? && a.kinds != {} ==> a.anyKind || r.kind.value in a.kinds)
    && (forall x | x in r.specs :: x in a.specs)
    && (forall x | x in r.tools :: x in a.tools)
    && (forall c | c in r.caps && c.Grant? :: (a.pid, c.resource, c.op) in k.grants)
  }

  /** evaluate_eligibility: an agent is eligible exactly when it fits and has room. */
  lemma EligibleExact(k: Kernel, a: Agent, r: Requirements, load: nat)
    ensures Eligible(k, a, r, load) <==> Fit(k, a, r) && load < a.maxConcurrency
  {
  }

  /** How many of the task's reads the agent already holds. */
  function Near(a: Agent, r: Requirements): nat
  {
    |r.keys * a.resident|
  }

  function Locality(near: nat): nat
  {
    if LOCALITY_BONUS * near < LOCALITY_BONUS_MAX then LOCALITY_BONUS * near else LOCALITY_BONUS_MAX
  }

  /** What an agent is worth to a task, its load and its name aside. */
  function Worth(a: Agent, r: Requirements): int
  {
    SPECIALIZATION_BONUS * |r.preferredSpecs * a.specs| + Locality(Near(a, r)) - a.cost / COST_PENALTY_DIVISOR
  }

  function Score(id: AgentId, a: Agent, r: Requirements, load: nat): int
  {
    (if r.preferredAgent == Some(id) then PREFERRED_AGENT_BONUS else 0)
    + Worth(a, r)
    - LOAD_PENALTY * load
    + (if r.priority < PRIORITY_CAP then r.priority else PRIORITY_CAP)
  }

  /** Sort order: score descending, then load, cost and id ascending. */
  predicate Before(r: Requirements, agents: seq<Agent>, loads: seq<nat>, x: AgentId, y: AgentId)
    requires x < |agents| == |loads| && y < |agents|
  {
    var sx, sy := Score(x, agents[x], r, loads[x]), Score(y, agents[y], r, loads[y]);
    || sx > sy
    || (sx == sy && loads[x] < loads[y])
    || (sx == sy && loads[x] == loads[y] && agents[x].cost < agents[y].cost)
    || (sx == sy && loads[x] == loads[y] && agents[x].cost == agents[y].cost && x < y)
  }

  /** a heads the pool once sorted. */
  ghost predicate Heads(r: Requirements, agents: seq<Agent>, loads: seq<nat>, pool: set<AgentId>, a: AgentId)
    requires |agents| == |loads| && forall x | x in pool :: x < |agents|
  {
    a in pool && forall x | x in pool && x != a :: Before(r, agents, loads, a, x)
  }

  ghost function EligibleBelow(k: Kernel, agents: seq<Agent>, r: Requirements, loads: seq<nat>, n: nat): set<AgentId>
    requires |agents| == |loads| && n <= |agents|
  {
    set x: AgentId | x < n && Eligible(k, agents[x], r, loads[x])
  }

  /** The agent a task goes to when the first n registered agents are considered. */
  function Pick(k: Kernel, agents: seq<Agent>, r: Requirements, loads: seq<nat>, n: nat): (a: Option<AgentId>)
    requires |agents| == |loads| && n <= |agents|
    ensures a.Some? ==> a.value < n && Eligible(k, agents[a.value], r, loads[a.value])
  {
    if n == 0 then None
    else
      var best := Pick(k, agents, r, loads, n - 1);
      if Eligible(k, agents[n - 1], r, loads[n - 1])
         && (best == None || Before(r, agents, loads, n - 1, best.value))
      then Some(n - 1)
      else best
  }

  lemma {:induction false} PickHeads(k: Kernel, agents: seq<Agent>, r: Requirements, loads: seq<nat>, n: nat)
    requires |agents| == |loads| && n <= |agents|
    ensures Pick(k, agents, r, loads, n) == None <==> EligibleBelow(k, agents, r, loads, n) == {}
    ensures Pick(k, agents, r, loads, n).Some? ==>
      Heads(r, agents, loads, EligibleBelow(k, agents, r, loads, n), Pick(k, agents, r, loads, n).value)
  {
    if n > 0 {
      PickHeads(k, agents, r, loads, n - 1);
      OneMoreAgent(k, agents, r, loads, n);
      var best := Pick(k, agents, r, loads, n - 1);
      if best.Some? && Eligible(k, agents[n - 1], r, loads[n - 1]) {
        NewHead(r, agents, loads, EligibleBelow(k, agents, r, loads, n - 1), best.value, n - 1);
      }
    }
  }

  lemma OneMoreAgent(k: Kernel, agents: seq<Agent>, r: Requirements, loads: seq<nat>, n: nat)
    requires 0 < n <= |agents| == |loads|
    ensures EligibleBelow(k, agents, r, loads, n)
         == EligibleBelow(k, agents, r, loads, n - 1) + if Eligible(k, agents[n - 1], r, loads[n - 1]) then {n - 1} else {}
  {
  }

  lemma NewHead(r: Requirements, agents: seq<Agent>, loads: seq<nat>, pool: set<AgentId>, best: AgentId, a: AgentId)
    requires |agents| == |loads| && a < |agents| && a !in pool && (forall x | x in pool :: x < |agents|)
    requires Heads(r, agents, loads, pool, best)
    ensures Heads(r, agents, loads, pool + {a}, if Before(r, agents, loads, a, best) then a else best)
  {
    forall x | x in pool && Before(r, agents, loads, a, best) ensures Before(r, agents, loads, a, x) {
      assert x != best ==> Before(r, agents, loads, best, x);
    }
  }

  /** A task gets an agent that fits and has room; it gets none exactly when there is no
      such agent. */
  lemma PickFits(k: Kernel, agents: seq<Agent>, r: Requirements, loads: seq<nat>, n: nat)
    requires |agents| == |loads| && n <= |agents|
    ensures var best := Pick(k, agents, r, loads, n);
      && (best == None <==> forall x: nat | x < n :: !(Fit(k, agents[x], r) && loads[x] < agents[x].maxConcurrency))
      && (best.Some? ==> best.value < n && Fit(k, agents[best.value], r)
                         && loads[best.value] < agents[best.value].maxConcurrency)
  {
    PickHeads(k, agents, r, loads, n);
    forall x: nat | x < n
      ensures x in EligibleBelow(k, agents, r, loads, n) <==> Fit(k, agents[x], r) && loads[x] < agents[x].maxConcurrency
    {
      EligibleExact(k, agents[x], r, loads[x]);
    }
  }

  /** match_deterministic_best_fit_v1, fed the eligible agents in whatever order: it
      returns the same agent for every order. */
  method Match(k: Kernel, agents: seq<Agent>, r: Requirements, loads: seq<nat>, pool: seq<AgentId>)
    returns (best: Option<AgentId>)
    requires |agents| == |loads|
    requires forall x: AgentId :: x in pool <==> x in EligibleBelow(k, agents, r, loads, |agents|)
    ensures best == Pick(k, agents, r, loads, |agents|)
    ensures best == None <==> forall x: nat | x < |agents| :: !(Fit(k, agents[x], r) && loads[x] < agents[x].maxConcurrency)
    ensures best.Some? ==> best.value < |agents| && Fit(k, agents[best.value], r)
  {
    PickFits(k, agents, r, loads, |agents|);
    best := None;
    for i := 0 to |pool|
      invariant best == None <==> i == 0
      invariant best.Some? ==> best.value < |agents| && best.value in pool
      invariant best.Some? ==> forall j | 0 <= j < i && pool[j] != best.value ::
        pool[j] < |agents| && Before(r, agents, loads, best.value, pool[j])
    {
      assert pool[i] in pool;
      if best == None || Before(r, agents, loads, pool[i], best.value) {
        best := Some(pool[i]);
      }
    }
    PickHeads(k, agents, r, loads, |agents|);
    ghost var all := EligibleBelow(k, agents, r, loads, |agents|);
    assert best.Some? ==> Heads(r, agents, loads, all, best.value);
    if pool != [] {
      assert pool[0] in all;
    }
  }

  /** More load never makes an agent eligible. */
  lemma LoadOnlyBlocks(k: Kernel, agents: seq<Agent>, r: Requirements, loads: seq<nat>, more: seq<nat>)
    requires |agents| == |loads| == |more| && forall a | 0 <= a < |loads| :: loads[a] <= more[a]
    requires Pick(k, agents, r, loads, |agents|) == None
    ensures Pick(k, agents, r, more, |agents|) == None
  {
    PickHeads(k, agents, r, loads, |agents|);
    PickHeads(k, agents, r, more, |agents|);
    assert EligibleBelow(k, agents, r, more, |agents|) <= EligibleBelow(k, agents, r, loads, |agents|);
  }

  /** What an agent is worth in points: ten for each preferred specialization it holds, five
      for each of the task's reads it holds, up to five of them, and one less for every full
      fifty of its cost. */
  ghost function Points(a: Agent, r: Requirements): int
  {
    10 * |r.preferredSpecs * a.specs| + (if |r.keys * a.resident| >= 5 then 25 else 5 * |r.keys * a.resident|) - a.cost / 50
  }

  lemma WorthInPoints(a: Agent, r: Requirements)
    ensures Worth(a, r) == Points(a, r)
  {
  }

  /** Between agents neither of whom is asked for by name, a claim of load weighs as much as
      a point of worth; on a draw the less loaded comes first, then the cheaper, then the
      lower id. */
  lemma SpreadsLoad(r: Requirements, agents: seq<Agent>, loads: seq<nat>, x: AgentId, y: AgentId)
    requires x < |agents| == |loads| && y < |agents| && x != y
    requires r.preferredAgent != Some(x) && r.preferredAgent != Some(y)
    ensures var lead := Points(agents[y], r) - Points(agents[x], r);
      && (lead + loads[x] < loads[y] ==> Before(r, agents, loads, x, y))
      && (lead + loads[x] > loads[y] ==> Before(r, agents, loads, y, x))
      && (lead + loads[x] == loads[y] ==>
           (Before(r, agents, loads, x, y) <==>
              loads[x] < loads[y] || (loads[x] == loads[y] &&
                (agents[x].cost < agents[y].cost || (agents[x].cost == agents[y].cost && x < y)))))
  {
    WorthInPoints(agents[x], r);
    WorthInPoints(agents[y], r);
  }

  /** Of two agents that hold as many of the reads and of the preferred specializations, at
      equal load, the cheaper comes first. */
  lemma CheaperFirst(r: Requirements, agents: seq<Agent>, loads: seq<nat>, x: AgentId, y: AgentId)
    requires x < |agents| == |loads| && y < |agents|
    requires r.preferredAgent != Some(x) && r.preferredAgent != Some(y)
    requires Near(agents[x], r) == Near(agents[y], r) && loads[x] == loads[y] && agents[x].cost < agents[y].cost
    requires |r.preferredSpecs * agents[x].specs| == |r.preferredSpecs * agents[y].specs|
    ensures Before(r, agents, loads, x, y)
  {
    DearerCostsMore(agents[x].cost, agents[y].cost);
  }

  lemma DearerCostsMore(a: nat, b: nat)
    requires a <= b
    ensures a / COST_PENALTY_DIVISOR <= b / COST_PENALTY_DIVISOR
  {
  }

  /** Being asked for by name outweighs every lead of another agent of less than twenty
      points, a claim of load counting one, and none of more. */
  lemma NamedAgentFirst(r: Requirements, agents: seq<Agent>, loads: seq<nat>, x: AgentId, y: AgentId)
    requires x < |agents| == |loads| && y < |agents| && x != y && r.preferredAgent == Some(x)
    ensures var lead := Points(agents[y], r) - Points(agents[x], r) + loads[x] - loads[y];
      && (lead < 20 ==> Before(r, agents, loads, x, y))
      && (lead > 20 ==> Before(r, agents, loads, y, x))
      && (lead == 20 ==>
           (Before(r, agents, loads, x, y) <==>
              loads[x] < loads[y] || (loads[x] == loads[y] &&
                (agents[x].cost < agents[y].cost || (agents[x].cost == agents[y].cost && x < y)))))
  {
    WorthInPoints(agents[x], r);
    WorthInPoints(agents[y], r);
  }

  /** Alike but for what they have read. */
  predicate Alike(a: Agent, b: Agent, r: Requirements)
  {
    |r.preferredSpecs * a.specs| == |r.preferredSpecs * b.specs| && a.cost == b.cost
  }

  /** Locality beats the name exactly when the other agent holds five or more of the reads
      and the named one none, or on a draw of twenty points when its id is lower. */
  lemma LocalityOverName(r: Requirements, agents: seq<Agent>, loads: seq<nat>, x: AgentId, y: AgentId)
    requires x < |agents| == |loads| && y < |agents| && x != y && r.preferredAgent == Some(x)
    requires Alike(agents[x], agents[y], r) && loads[x] == loads[y]
    ensures var near, far := Near(agents[y], r), Near(agents[x], r);
      Before(r, agents, loads, y, x) <==>
        || (near >= 5 && far == 0)
        || (y < x && ((near == 4 && far == 0) || (near >= 5 && far == 1)))
  {
  }

  /** No agent can outscore one like it that is asked for by name by having read more of the
      task's declared reads: exactly when the task declares four or fewer. */
  lemma NameOutweighsLocality(r: Requirements, i: AgentId, j: AgentId, load: nat)
    requires r.preferredAgent == Some(i) && i != j
    ensures (forall a: Agent, b: Agent | Alike(a, b, r) :: Score(j, b, r, load) <= Score(i, a, r, load)) <==> |r.keys| <= 4
  {
    if |r.keys| <= 4 {
      forall a: Agent, b: Agent | Alike(a, b, r) ensures Score(j, b, r, load) <= Score(i, a, r, load) {
        SubsetSize(r.keys * b.resident, r.keys);
      }
    } else {
      var a := Agent(0, {}, false, {}, {}, {}, 0, 0, true);
      var b := a.(resident := r.keys);
      assert r.keys * a.resident == {} && r.keys * b.resident == r.keys;
      assert Score(j, b, r, load) > Score(i, a, r, load);
    }
  }
}

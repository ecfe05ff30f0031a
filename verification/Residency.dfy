/** The residency scheduler simulation of scripts/e6_prototype_sigma_scheduling.py:
    per-agent LRU lists, three dispatch policies, and the cost model. */
module Residency {
  import opened Collections

  /** Agents compare by id; only the order of ids matters. */
  type Agent = int

  type Artifact = nat

  /** deps lists the task's read set once each, in the order the set is iterated. */
  datatype Task = Task(deps: seq<Artifact>, exec: int)

  datatype Policy = GraphOnly | SigmaAware | PureAffinity

  // ---- one agent's list, oldest first ----

  /** list.remove: drop the first occurrence. */
  function Remove(r: seq<Artifact>, a: Artifact): seq<Artifact>
  {
    if r == [] then []
    else if r[0] == a then r[1..]
    else [r[0]] + Remove(r[1..], a)
  }

  function Touch(r: seq<Artifact>, a: Artifact): seq<Artifact>
  {
    Remove(r, a) + [a]
  }

  function TouchAll(r: seq<Artifact>, deps: seq<Artifact>): seq<Artifact>
  {
    if deps == [] then r else Touch(TouchAll(r, deps[..|deps| - 1]), deps[|deps| - 1])
  }

  function LastOf(r: seq<Artifact>, w: nat): seq<Artifact>
  {
    if |r| > w then r[|r| - w..] else r
  }

  /** What an agent holds after reading deps, bounded by the window. */
  function Settle(r: seq<Artifact>, deps: seq<Artifact>, w: nat): seq<Artifact>
  {
    LastOf(TouchAll(r, deps), w)
  }

  function MissSet(t: Task, r: seq<Artifact>): set<Artifact>
  {
    set a | a in t.deps && a !in r
  }

  // ---- the state after a dispatch history: task i went to who[i] ----

  function Resident(tasks: seq<Task>, who: seq<Agent>, w: nat, a: Agent): seq<Artifact>
    requires |tasks| == |who|
  {
    if tasks == [] then []
    else
      var n := |tasks| - 1;
      var before := Resident(tasks[..n], who[..n], w, a);
      if who[n] == a then Settle(before, tasks[n].deps, w) else before
  }

  /** The same list when nothing is ever evicted. */
  function Recency(tasks: seq<Task>, who: seq<Agent>, a: Agent): seq<Artifact>
    requires |tasks| == |who|
  {
    if tasks == [] then []
    else
      var n := |tasks| - 1;
      var before := Recency(tasks[..n], who[..n], a);
      if who[n] == a then TouchAll(before, tasks[n].deps) else before
  }

  function Load(who: seq<Agent>, a: Agent): nat
  {
    multiset(who)[a]
  }

  function Misses(tasks: seq<Task>, who: seq<Agent>, w: nat): nat
    requires |tasks| == |who|
  {
    if tasks == [] then 0
    else
      var n := |tasks| - 1;
      Misses(tasks[..n], who[..n], w) + |MissSet(tasks[n], Resident(tasks[..n], who[..n], w, who[n]))|
  }

  function ExecSum(tasks: seq<Task>): int
  {
    if tasks == [] then 0 else ExecSum(tasks[..|tasks| - 1]) + tasks[|tasks| - 1].exec
  }

  /** The cost model: execution plus kappa per artifact pulled into context. */
  function Cost(tasks: seq<Task>, who: seq<Agent>, kappa: int, w: nat): int
    requires |tasks| == |who|
  {
    if tasks == [] then 0
    else
      var n := |tasks| - 1;
      Cost(tasks[..n], who[..n], kappa, w) + tasks[n].exec
      + kappa * |MissSet(tasks[n], Resident(tasks[..n], who[..n], w, who[n]))|
  }

  // ---- dispatch ----

  type Key = (int, int, int)

  predicate Less(x: Key, y: Key)
  {
    x.0 < y.0 || (x.0 == y.0 && (x.1 < y.1 || (x.1 == y.1 && x.2 < y.2)))
  }

  function KeyOf(p: Policy, kappa: int, t: Task, r: seq<Artifact>, load: nat, a: Agent): Key
  {
    match p
    case GraphOnly => (0, load, a)
    case SigmaAware => (t.exec + kappa * |MissSet(t, r)|, load, a)
    case PureAffinity => (|MissSet(t, r)|, 0, a)
  }

  function KeyAt(p: Policy, kappa: int, w: nat, t: Task, tasks: seq<Task>, who: seq<Agent>, a: Agent): Key
    requires |tasks| == |who|
  {
    KeyOf(p, kappa, t, Resident(tasks, who, w, a), Load(who, a), a)
  }

  /** min(agents, key=...): no agent has a smaller key. */
  ghost predicate IsChoice(p: Policy, kappa: int, w: nat, t: Task, tasks: seq<Task>, who: seq<Agent>,
                           agents: seq<Agent>, c: Agent)
    requires |tasks| == |who|
  {
    && c in agents
    && forall b | b in agents :: !Less(KeyAt(p, kappa, w, t, tasks, who, b), KeyAt(p, kappa, w, t, tasks, who, c))
  }

  function Choose(p: Policy, kappa: int, w: nat, t: Task, tasks: seq<Task>, who: seq<Agent>, agents: seq<Agent>): Agent
    requires |tasks| == |who| && agents != []
  {
    if |agents| == 1 then agents[0]
    else
      var c := Choose(p, kappa, w, t, tasks, who, agents[1..]);
      if Less(KeyAt(p, kappa, w, t, tasks, who, c), KeyAt(p, kappa, w, t, tasks, who, agents[0])) then c
      else agents[0]
  }

  lemma {:induction false} ChooseIsChoice(p: Policy, kappa: int, w: nat, t: Task, tasks: seq<Task>, who: seq<Agent>,
                                          agents: seq<Agent>)
    requires |tasks| == |who| && agents != []
    ensures IsChoice(p, kappa, w, t, tasks, who, agents, Choose(p, kappa, w, t, tasks, who, agents))
  {
    if |agents| > 1 {
      ChooseIsChoice(p, kappa, w, t, tasks, who, agents[1..]);
      assert forall b | b in agents :: b == agents[0] || b in agents[1..];
    }
  }

  lemma ChoiceUnique(p: Policy, kappa: int, w: nat, t: Task, tasks: seq<Task>, who: seq<Agent>,
                     agents: seq<Agent>, c: Agent, d: Agent)
    requires |tasks| == |who|
    requires IsChoice(p, kappa, w, t, tasks, who, agents, c) && IsChoice(p, kappa, w, t, tasks, who, agents, d)
    ensures c == d
  {
    assert !Less(KeyAt(p, kappa, w, t, tasks, who, d), KeyAt(p, kappa, w, t, tasks, who, c));
  }

  /** Whom each policy prefers, in plain terms: graph_only the least loaded; pure_affinity the
      one that has to load least; sigma_aware, when loading costs something, the one that has
      to load least, and of those the least loaded; and the lower id on a draw. */
  ghost predicate Prefers(p: Policy, w: nat, t: Task, tasks: seq<Task>, who: seq<Agent>, a: Agent, b: Agent)
    requires |tasks| == |who|
  {
    var ma, mb := |MissSet(t, Resident(tasks, who, w, a))|, |MissSet(t, Resident(tasks, who, w, b))|;
    var la, lb := multiset(who)[a], multiset(who)[b];
    match p
    case GraphOnly => la < lb || (la == lb && a < b)
    case SigmaAware => ma < mb || (ma == mb && (la < lb || (la == lb && a < b)))
    case PureAffinity => ma < mb || (ma == mb && a < b)
  }

  lemma Scaling(e: int, k: int, x: int, y: int)
    requires k >= 1
    ensures e + k * x < e + k * y <==> x < y
    ensures e + k * x == e + k * y <==> x == y
  {
    if x < y {
      assert k * y == k * x + k * (y - x);
      assert k * (y - x) >= 1;
    } else if y < x {
      assert k * x == k * y + k * (x - y);
      assert k * (x - y) >= 1;
    }
  }

  lemma KeyPrefers(p: Policy, kappa: int, w: nat, t: Task, tasks: seq<Task>, who: seq<Agent>, a: Agent, b: Agent)
    requires |tasks| == |who| && (p == SigmaAware ==> kappa >= 1)
    ensures Less(KeyAt(p, kappa, w, t, tasks, who, a), KeyAt(p, kappa, w, t, tasks, who, b))
       <==> Prefers(p, w, t, tasks, who, a, b)
  {
    if p == SigmaAware {
      Scaling(t.exec, kappa, |MissSet(t, Resident(tasks, who, w, a))|, |MissSet(t, Resident(tasks, who, w, b))|);
    }
  }

  /** The agent chosen for a task is the one the policy prefers to every other. */
  lemma ChoicePreferred(p: Policy, kappa: int, w: nat, t: Task, tasks: seq<Task>, who: seq<Agent>, agents: seq<Agent>, c: Agent)
    requires |tasks| == |who| && agents != [] && (p == SigmaAware ==> kappa >= 1)
    ensures c == Choose(p, kappa, w, t, tasks, who, agents) <==>
      c in agents && forall b | b in agents && b != c :: Prefers(p, w, t, tasks, who, c, b)
  {
    var d := Choose(p, kappa, w, t, tasks, who, agents);
    ChooseIsChoice(p, kappa, w, t, tasks, who, agents);
    forall b | b in agents && b != d ensures Prefers(p, w, t, tasks, who, d, b) {
      KeyPrefers(p, kappa, w, t, tasks, who, b, d);
    }
    if c != d && c in agents {
      KeyPrefers(p, kappa, w, t, tasks, who, c, d);
    }
  }

  function Dispatches(p: Policy, kappa: int, w: nat, tasks: seq<Task>, agents: seq<Agent>): (who: seq<Agent>)
    requires agents != []
    ensures |who| == |tasks|
  {
    if tasks == [] then []
    else
      var n := |tasks| - 1;
      var before := Dispatches(p, kappa, w, tasks[..n], agents);
      before + [Choose(p, kappa, w, tasks[n], tasks[..n], before, agents)]
  }

  // ---- the simulation ----

  lemma DropOne(r: seq<Artifact>, d: nat)
    requires d < |r|
    ensures r[d..][1..] == r[d + 1..]
  {
  }

  /** The eviction loop. */
  method Evict(r0: seq<Artifact>, w: nat) returns (r: seq<Artifact>)
    ensures r == LastOf(r0, w)
  {
    r := r0;
    while |r| > w
      invariant |r| <= |r0| && r == r0[|r0| - |r|..]
      invariant |r| >= w || r == r0
    {
      DropOne(r0, |r0| - |r|);
      r := r[1..];
    }
  }

  method Read(r0: seq<Artifact>, deps: seq<Artifact>, w: nat) returns (r: seq<Artifact>)
    ensures r == Settle(r0, deps, w)
  {
    r := r0;
    for i := 0 to |deps|
      invariant r == TouchAll(r0, deps[..i])
    {
      var a := deps[i];
      assert deps[..i + 1][..i] == deps[..i];
      if a in r {
        r := Remove(r, a);
      } else {
        RemoveAbsent(r, a);
      }
      r := r + [a];
    }
    assert deps[..|deps|] == deps;
    r := Evict(r, w);
  }

  lemma {:induction false} RemoveAbsent(r: seq<Artifact>, a: Artifact)
    requires a !in r
    ensures Remove(r, a) == r
  {
    if r != [] {
      RemoveAbsent(r[1..], a);
    }
  }

  /** One more dispatch, seen by each of the history functions. */
  lemma History(p: Policy, kappa: int, w: nat, tasks: seq<Task>, t: Task, agents: seq<Agent>, who: seq<Agent>, c: Agent)
    requires |tasks| == |who| && agents != []
    ensures Misses(tasks + [t], who + [c], w) == Misses(tasks, who, w) + |MissSet(t, Resident(tasks, who, w, c))|
    ensures Cost(tasks + [t], who + [c], kappa, w)
         == Cost(tasks, who, kappa, w) + t.exec + kappa * |MissSet(t, Resident(tasks, who, w, c))|
    ensures Dispatches(p, kappa, w, tasks + [t], agents)
         == (var before := Dispatches(p, kappa, w, tasks, agents);
             before + [Choose(p, kappa, w, t, tasks, before, agents)])
  {
    assert (tasks + [t])[..|tasks|] == tasks && (who + [c])[..|who|] == who;
  }

  /** The simulator's maps hold what the history functions say. */
  ghost predicate Mirrors(agents: seq<Agent>, tasks: seq<Task>, who: seq<Agent>, w: nat,
                          resident: map<Agent, seq<Artifact>>, load: map<Agent, nat>)
    requires |tasks| == |who|
  {
    && (forall a | a in agents :: a in resident && a in load)
    && (forall a | a in agents :: resident[a] == Resident(tasks, who, w, a) && load[a] == Load(who, a))
  }

  lemma MirrorsStep(agents: seq<Agent>, tasks: seq<Task>, who: seq<Agent>, w: nat,
                    resident: map<Agent, seq<Artifact>>, load: map<Agent, nat>, t: Task, c: Agent)
    requires |tasks| == |who| && Mirrors(agents, tasks, who, w, resident, load) && c in agents
    ensures Mirrors(agents, tasks + [t], who + [c], w,
                    resident[c := Settle(resident[c], t.deps, w)], load[c := load[c] + 1])
  {
    assert (tasks + [t])[..|tasks|] == tasks && (who + [c])[..|who|] == who;
  }

  /** The simulator's variables. */
  datatype Tally = Tally(resident: map<Agent, seq<Artifact>>, load: map<Agent, nat>,
                         counts: map<Agent, nat>, total: int, misses: nat)

  ghost predicate Tracks(s: Tally, agents: seq<Agent>, tasks: seq<Task>, who: seq<Agent>, kappa: int, w: nat)
    requires |tasks| == |who|
  {
    && Mirrors(agents, tasks, who, w, s.resident, s.load)
    && s.counts == s.load
    && s.misses == Misses(tasks, who, w)
    && s.total == Cost(tasks, who, kappa, w)
  }

  lemma TracksStep(s: Tally, agents: seq<Agent>, tasks: seq<Task>, who: seq<Agent>, kappa: int, w: nat, p: Policy,
                   t: Task, c: Agent, s': Tally)
    requires |tasks| == |who| && Tracks(s, agents, tasks, who, kappa, w) && c in agents
    requires s'.resident == s.resident[c := Settle(s.resident[c], t.deps, w)]
    requires s'.load == s'.counts == s.load[c := s.load[c] + 1]
    requires s'.misses == s.misses + |MissSet(t, s.resident[c])|
    requires s'.total == s.total + (t.exec + kappa * |MissSet(t, s.resident[c])|)
    ensures Tracks(s', agents, tasks + [t], who + [c], kappa, w)
  {
    MirrorsStep(agents, tasks, who, w, s.resident, s.load, t, c);
    History(p, kappa, w, tasks, t, agents, who, c);
  }

  /** One round of the dispatch loop. */
  method DispatchOne(s: Tally, t: Task, agents: seq<Agent>, kappa: int, w: nat, p: Policy,
                     ghost tasks: seq<Task>, ghost who: seq<Agent>)
    returns (s': Tally, chosen: Agent)
    requires agents != [] && |tasks| == |who| && Tracks(s, agents, tasks, who, kappa, w)
    ensures chosen == Choose(p, kappa, w, t, tasks, who, agents)
    ensures Tracks(s', agents, tasks + [t], who + [chosen], kappa, w)
  {
    chosen := Pick(agents, p, kappa, t, s.resident, s.load, w, tasks, who);
    var miss := MissSet(t, s.resident[chosen]);
    var settled := Read(s.resident[chosen], t.deps, w);
    s' := Tally(s.resident[chosen := settled],
                s.load[chosen := s.load[chosen] + 1],
                s.counts[chosen := s.counts[chosen] + 1],
                s.total + (t.exec + kappa * |miss|),
                s.misses + |miss|);
    TracksStep(s, agents, tasks, who, kappa, w, p, t, chosen, s');
  }

  lemma PrefixNext(tasks: seq<Task>, i: nat)
    requires i < |tasks|
    ensures tasks[..i + 1] == tasks[..i] + [tasks[i]]
  {
  }

  /** simulate: total cost, misses and dispatch counts; choosing from no agents is an
      error as soon as there is a task. */
  method Simulate(tasks: seq<Task>, agents: seq<Agent>, kappa: int, w: nat, p: Policy)
    returns (r: Option<(int, nat, map<Agent, nat>)>)
    ensures r.None? <==> agents == [] && tasks != []
    ensures agents != [] ==>
      var who := Dispatches(p, kappa, w, tasks, agents);
      && r.value.0 == Cost(tasks, who, kappa, w)
      && r.value.1 == Misses(tasks, who, w)
      && (forall a | a in agents :: a in r.value.2 && r.value.2[a] == Load(who, a))
    ensures tasks == [] ==> r.Some? && r.value.0 == r.value.1 == 0
  {
    var zero: map<Agent, nat> := map a | a in agents :: 0;
    var s := Tally(map a | a in agents :: [], zero, zero, 0, 0);
    if agents == [] {
      return if tasks == [] then Some((0, 0, zero)) else None;
    }
    ghost var who: seq<Agent> := [];
    for i := 0 to |tasks|
      invariant who == Dispatches(p, kappa, w, tasks[..i], agents)
      invariant Tracks(s, agents, tasks[..i], who, kappa, w)
    {
      PrefixNext(tasks, i);
      var chosen;
      s, chosen := DispatchOne(s, tasks[i], agents, kappa, w, p, tasks[..i], who);
      History(p, kappa, w, tasks[..i], tasks[i], agents, who, chosen);
      who := who + [chosen];
    }
    assert tasks[..|tasks|] == tasks;
    return Some((s.total, s.misses, s.counts));
  }

  /** The min over the agents' keys, one comparison at a time. */
  method Pick(agents: seq<Agent>, p: Policy, kappa: int, t: Task, resident: map<Agent, seq<Artifact>>,
              load: map<Agent, nat>, ghost w: nat, ghost tasks: seq<Task>, ghost who: seq<Agent>)
    returns (c: Agent)
    requires agents != [] && |tasks| == |who|
    requires Mirrors(agents, tasks, who, w, resident, load)
    ensures c in agents
    ensures c == Choose(p, kappa, w, t, tasks, who, agents)
  {
    c := agents[0];
    for i := 1 to |agents|
      invariant c in agents
      invariant forall j | 0 <= j < i ::
        !Less(KeyAt(p, kappa, w, t, tasks, who, agents[j]), KeyAt(p, kappa, w, t, tasks, who, c))
    {
      var a := agents[i];
      if Less(KeyOf(p, kappa, t, resident[a], load[a], a), KeyOf(p, kappa, t, resident[c], load[c], c)) {
        c := a;
      }
    }
    ChooseIsChoice(p, kappa, w, t, tasks, who, agents);
    ChoiceUnique(p, kappa, w, t, tasks, who, agents, c, Choose(p, kappa, w, t, tasks, who, agents));
  }
}

/** Task claims, the leases that back them, and the operations that move both. */
module Claims {
  import opened Collections
  import opened Matching

  type TaskId = nat
  type LeaseId = nat

  datatype Status = Proposed | Acquiring | Active | Completed | Released | Lost | Rejected

  datatype Claim = Claim(task: TaskId, agent: AgentId, pid: Pid, version: int, lease: Option<LeaseId>, status: Status)

  datatype Lease = Lease(task: TaskId, owner: Pid, expires: int)

  datatype Validity = Unverified | Verified | Stale

  /** What the scheduler observes: clock, progress graph, kernel and registry. */
  datatype World = World(now: int, version: int, frontier: seq<TaskId>, validity: map<TaskId, Validity>,
                         reqs: map<TaskId, Requirements>, kernel: Kernel, agents: seq<Agent>)

  /** counter: the last lease id given out. idem: (task, version) pairs already dispatched. */
  datatype State = State(w: World, leases: map<LeaseId, Lease>, counter: nat, claims: seq<Claim>, idem: set<(TaskId, int)>)

  const LEASE_TTL: int := 300
  const LONG_PAST: int := -1_000_000_000

  predicate Open(st: Status)
  {
    st == Proposed || st == Acquiring || st == Active
  }

  predicate IsValidity(w: World, t: TaskId, v: Validity)
  {
    t in w.validity && w.validity[t] == v
  }

  predicate Unexpired(w: World, l: Lease)
  {
    w.now <= l.expires
  }

  // ---- closing claims one by one ----

  /** The claim's own lease, found on the claim's task. */
  predicate Found(leases: map<LeaseId, Lease>, c: Claim)
  {
    c.lease.Some? && c.lease.value in leases && leases[c.lease.value].task == c.task
  }

  predicate Stored(leases: map<LeaseId, Lease>, c: Claim)
  {
    c.lease.Some? && c.lease.value in leases
  }

  /** The three loops that close claims: reconcile (after losing ACTIVE claims without a
      lease id), finalize_after_restart, and observe_vpg for the claims whose evidence
      belongs to their own attempt. */
  datatype Pass = Reconciling | Restarting | Observing(evidence: set<nat>)

  /** The status a claim leaves the loop with. */
  function Fate(p: Pass, w: World, leases: map<LeaseId, Lease>, i: nat, c: Claim): Status
  {
    match p
    case Reconciling =>
      if c.status == Proposed || c.status == Acquiring then Lost
      else if c.status != Active then c.status
      else if c.lease == None then Lost
      else if IsValidity(w, c.task, Verified) then Completed
      else if IsValidity(w, c.task, Stale) then Lost
      else if !Alive(w.kernel, c.pid) then Lost
      else if !Found(leases, c) || !Unexpired(w, leases[c.lease.value]) then Lost
      else Active
    case Restarting =>
      if c.status != Active then c.status
      else if c.lease == None then Lost
      else if !Stored(leases, c) || !Unexpired(w, leases[c.lease.value]) then Lost
      else if !Alive(w.kernel, c.pid) then Lost
      else Active
    case Observing(evidence) =>
      if c.status == Active && IsValidity(w, c.task, Verified) && i in evidence then Completed else c.status
  }

  /** Reconcile looks the lease up first and skips the release when it is gone; the other
      loops ask for the release outright and raise LeaseReleaseFailed when refused. */
  predicate Raises(p: Pass, w: World, leases: map<LeaseId, Lease>, i: nat, c: Claim)
  {
    && p != Reconciling
    && Fate(p, w, leases, i, c) != c.status
    && c.lease.Some? && c.lease.value !in leases
  }

  predicate Drops(p: Pass, w: World, leases: map<LeaseId, Lease>, i: nat, c: Claim)
  {
    && Fate(p, w, leases, i, c) != c.status
    && if p == Reconciling then Found(leases, c) else Stored(leases, c)
  }

  datatype Swept = Swept(leases: map<LeaseId, Lease>, claims: seq<Claim>, raised: bool)

  /** One loop body. */
  function Visit(p: Pass, w: World, r: Swept, i: nat): Swept
    requires i < |r.claims|
  {
    var c := r.claims[i];
    if Raises(p, w, r.leases, i, c) then r.(raised := true)
    else Swept(if Drops(p, w, r.leases, i, c) then r.leases - {c.lease.value} else r.leases,
               r.claims[i := c.(status := Fate(p, w, r.leases, i, c))], false)
  }

  /** The loop after n claims; an exception ends it. */
  function Sweep(p: Pass, w: World, leases: map<LeaseId, Lease>, claims: seq<Claim>, n: nat): (r: Swept)
    requires n <= |claims|
    ensures |r.claims| == |claims|
  {
    if n == 0 then Swept(leases, claims, false)
    else
      var r := Sweep(p, w, leases, claims, n - 1);
      if r.raised then r else Visit(p, w, r, n - 1)
  }

  /** A whole loop: the new state, and whether it raised. */
  function Close(p: Pass, s: State): (State, bool)
  {
    var r := Sweep(p, s.w, s.leases, s.claims, |s.claims|);
    (s.(leases := r.leases, claims := r.claims), r.raised)
  }

  // ---- acquiring ----

  /** How an acquisition is answered: the agent's pool has no room for the task, so that the
      lease provider is not asked at all; the provider grants a lease, refuses one, or fails;
      or it hands out a lease with an unusable fencing token, whose compensating release it
      confirms or not. */
  datatype Answer = NoRoom | Grants | Refuses | Fails | TakenBack | Unconfirmed

  /** What may happen to the world between matching and acquiring. */
  datatype Env = Env(bump: nat, frontier: Option<seq<TaskId>>, dead: set<Pid>, elapsed: nat)

  const QUIET: Env := Env(0, None, {}, 0)

  function Interfere(w: World, e: Env): World
  {
    var procs := map pid | pid in w.kernel.procs :: if pid in e.dead then Exited else w.kernel.procs[pid];
    w.(now := w.now + e.elapsed, version := w.version + e.bump,
       frontier := if e.frontier.Some? then e.frontier.value else w.frontier,
       kernel := w.kernel.(procs := procs))
  }

  /** Version, frontier and process are looked at again before ownership is taken. */
  predicate StillValid(w: World, t: TaskId, version: int, a: AgentId)
  {
    a < |w.agents| && w.version == version && t in w.frontier && Alive(w.kernel, w.agents[a].pid)
  }

  /** _acquire_claim: the new state, and whether it returned true or raised. */
  function Acquire(s: State, t: TaskId, version: int, a: AgentId, answer: Answer): (State, bool, bool)
  {
    if !StillValid(s.w, t, version, a) then (s, false, false)
    else
      var pid := s.w.agents[a].pid;
      var id := s.counter + 1;
      match answer
      case NoRoom => (s, false, false)
      case Refuses =>
        (s.(claims := s.claims + [Claim(t, a, pid, s.w.version, None, Rejected)]), false, false)
      case Fails =>
        (s.(claims := s.claims + [Claim(t, a, pid, s.w.version, None, Rejected)]), false, true)
      case TakenBack =>
        (s.(leases := s.leases - {id}, counter := id,
            claims := s.claims + [Claim(t, a, pid, s.w.version, None, Rejected)]), false, false)
      case Grants =>
        (s.(leases := s.leases[id := Lease(t, pid, s.w.now + LEASE_TTL)], counter := id,
            claims := s.claims + [Claim(t, a, pid, s.w.version, Some(id), Active)]), true, false)
      case Unconfirmed =>
        (s.(leases := s.leases[id := Lease(t, pid, s.w.now + LEASE_TTL)], counter := id,
            claims := s.claims + [Claim(t, a, pid, s.w.version, Some(id), Acquiring)]), false, true)
  }

  // ---- the scheduling pass ----

  ghost function ActiveBy(claims: seq<Claim>, a: AgentId): set<nat>
  {
    set i: nat | i < |claims| && claims[i].status == Active && claims[i].agent == a
  }

  ghost function Loads(claims: seq<Claim>, n: nat): (r: seq<nat>)
    ensures |r| == n && forall a | 0 <= a < n :: r[a] == |ActiveBy(claims, a)|
  {
    seq(n, (a: nat) => |ActiveBy(claims, a)|)
  }

  predicate Claimed(claims: seq<Claim>, t: TaskId)
  {
    exists i: nat | i < |claims| :: claims[i].status == Active && claims[i].task == t
  }

  /** Why a candidate is passed over before any agent is looked at. */
  predicate Skipped(s: State, version: int, t: TaskId)
  {
    Claimed(s.claims, t) || t !in s.w.reqs || (t, version) in s.idem
  }

  ghost function Choice(s: State, t: TaskId): Option<AgentId>
    requires t in s.w.reqs
  {
    Pick(s.w.kernel, s.w.agents, s.w.reqs[t], Loads(s.claims, |s.w.agents|), |s.w.agents|)
  }

  /** One candidate, every question asked of the current state. */
  ghost function Offer(s: State, version: int, t: TaskId, e: Env, answer: Answer): (State, bool)
  {
    if Skipped(s, version, t) || Choice(s, t) == None then (s, false)
    else
      var (s', ok, raised) := Acquire(s.(w := Interfere(s.w, e)), t, version, Choice(s, t).value, answer);
      (if ok then s'.(idem := s'.idem + {(t, version)}) else s', raised)
  }

  /** What the surroundings do at each candidate of a pass. */
  datatype Moment = Moment(env: Env, answer: Answer)

  const CALM: Moment := Moment(QUIET, Grants)

  function At(ms: seq<Moment>, i: nat): Moment
  {
    if i < |ms| then ms[i] else CALM
  }

  /** The pass after n candidates; an exception ends it. */
  ghost function Offers(s: State, version: int, cands: seq<TaskId>, ms: seq<Moment>, n: nat): (State, bool)
    requires n <= |cands|
  {
    if n == 0 then (s, false)
    else
      var (r, raised) := Offers(s, version, cands, ms, n - 1);
      if raised then (r, true) else Offer(r, version, cands[n - 1], At(ms, n - 1).env, At(ms, n - 1).answer)
  }

  /** schedule_once. */
  ghost function Schedule(s: State, ms: seq<Moment>): (State, bool)
  {
    Offers(s, s.w.version, s.w.frontier, ms, |s.w.frontier|)
  }
}

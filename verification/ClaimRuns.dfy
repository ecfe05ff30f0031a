/** Runs of the claim protocol: any operation, then reconcile, again and again. */
module ClaimRuns {
  import opened Collections
  import opened Matching
  import opened Claims
  import opened ClaimInvariant

  // ---- acquiring keeps the invariant ----

  predicate NoPending(s: State)
  {
    forall i: nat | i < |s.claims| && Open(s.claims[i].status) :: s.claims[i].status == Active
  }

  lemma OwnedStays(s: State, c: Claim, l: LeaseId)
    requires Owned(s.claims, l)
    ensures Owned(s.claims + [c], l)
  {
    var i: nat :| i < |s.claims| && s.claims[i].lease == Some(l);
    assert (s.claims + [c])[i].lease == Some(l);
  }

  /** A claim that is left without a lease, and maybe an id that was given out for nothing. */
  ghost function Refusing(s: State, c: Claim, counter: nat): State
  {
    s.(counter := counter, claims := s.claims + [c])
  }

  lemma RefusingSound(s: State, c: Claim, counter: nat)
    requires AllSound(s) && s.counter <= counter && c.lease == None && Registered(s.w, c)
    ensures AllSound(Refusing(s, c, counter))
  {
    var s' := Refusing(s, c, counter);
    forall i: nat | i < |s'.claims| ensures Sound(s'.w, s'.leases, s'.counter, s'.claims[i]) {
      assert i < |s.claims| ==> Sound(s.w, s.leases, s.counter, s.claims[i]);
    }
  }

  lemma RefusingOwned(s: State, c: Claim, counter: nat)
    requires NoOrphans(s)
    ensures NoOrphans(Refusing(s, c, counter))
  {
    forall l | l in s.leases ensures Owned(s.claims + [c], l) {
      OwnedStays(s, c, l);
    }
  }

  lemma RefusingDistinct(claims: seq<Claim>, c: Claim)
    requires DistinctLeases(claims) && c.lease == None
    ensures DistinctLeases(claims + [c])
  {
  }

  lemma RefusingOneHolder(leases: map<LeaseId, Lease>, claims: seq<Claim>, c: Claim)
    requires OneHolder(leases, claims) && c.lease == None
    ensures OneHolder(leases, claims + [c])
  {
  }

  lemma RefusingCapacity(s: State, c: Claim, counter: nat)
    requires WithinCapacity(s) && c.lease == None
    ensures WithinCapacity(Refusing(s, c, counter))
  {
    forall a: nat | a < |s.w.agents| ensures HeldBy(s.leases, s.claims + [c], a) == HeldBy(s.leases, s.claims, a) {
    }
  }

  lemma AppendRefused(s: State, c: Claim, counter: nat)
    requires Core(s) && s.counter <= counter && c.lease == None && Registered(s.w, c)
    ensures Core(Refusing(s, c, counter))
  {
    RefusingSound(s, c, counter);
    RefusingOwned(s, c, counter);
    RefusingDistinct(s.claims, c);
    RefusingOneHolder(s.leases, s.claims, c);
    RefusingCapacity(s, c, counter);
  }

  ghost function Granting(s: State, c: Claim, l: Lease): State
  {
    s.(leases := s.leases[s.counter + 1 := l], counter := s.counter + 1, claims := s.claims + [c])
  }

  lemma OldClaim(s: State, c: Claim, l: Lease, i: nat)
    requires AllSound(s) && i < |s.claims|
    ensures var s' := Granting(s, c, l);
      && s'.claims[i] == s.claims[i] && s.claims[i].lease != Some(s'.counter)
      && Sound(s'.w, s'.leases, s'.counter, s.claims[i])
      && (Holds(s'.leases, s.claims[i]) <==> Holds(s.leases, s.claims[i]))
  {
    assert Sound(s.w, s.leases, s.counter, s.claims[i]);
  }

  lemma GrantingSound(s: State, c: Claim, l: Lease)
    requires AllSound(s) && Registered(s.w, c)
    requires c.lease == Some(s.counter + 1) && Open(c.status) && l.task == c.task && l.owner == c.pid
    ensures AllSound(Granting(s, c, l))
  {
    var s' := Granting(s, c, l);
    forall i: nat | i < |s.claims| ensures Sound(s'.w, s'.leases, s'.counter, s'.claims[i]) {
      OldClaim(s, c, l, i);
    }
  }

  lemma GrantingOwned(s: State, c: Claim, l: Lease)
    requires NoOrphans(s) && c.lease == Some(s.counter + 1)
    ensures NoOrphans(Granting(s, c, l))
  {
    var s' := Granting(s, c, l);
    assert s'.claims[|s.claims|].lease == Some(s'.counter);
    forall x | x in s'.leases && x != s'.counter ensures Owned(s'.claims, x) {
      OwnedStays(s, c, x);
    }
  }

  lemma GrantingDistinct(s: State, c: Claim, l: Lease)
    requires AllSound(s) && DistinctLeases(s.claims) && c.lease == Some(s.counter + 1)
    ensures DistinctLeases(Granting(s, c, l).claims)
  {
    forall i: nat | i < |s.claims| ensures s.claims[i].lease != c.lease {
      OldClaim(s, c, l, i);
    }
  }

  lemma GrantingOneHolder(s: State, c: Claim, l: Lease)
    requires AllSound(s) && OneHolder(s.leases, s.claims) && NoPending(s) && !Claimed(s.claims, c.task)
    ensures OneHolder(Granting(s, c, l).leases, Granting(s, c, l).claims)
  {
    var s' := Granting(s, c, l);
    forall i: nat | i < |s.claims|
      ensures s'.claims[i] == s.claims[i]
      ensures Holds(s'.leases, s'.claims[i]) ==> Holds(s.leases, s.claims[i]) && s.claims[i].task != c.task
    {
      OldClaim(s, c, l, i);
    }
  }

  lemma GrantingHeldBy(s: State, c: Claim, l: Lease, a: AgentId)
    requires AllSound(s) && c.lease == Some(s.counter + 1) && Open(c.status)
    ensures HeldBy(Granting(s, c, l).leases, Granting(s, c, l).claims, a)
         == HeldBy(s.leases, s.claims, a) + if a == c.agent then {|s.claims|} else {}
  {
    var s' := Granting(s, c, l);
    forall i: nat | i < |s.claims|
      ensures i in HeldBy(s'.leases, s'.claims, a) <==> i in HeldBy(s.leases, s.claims, a)
    {
      OldClaim(s, c, l, i);
    }
  }

  lemma HeldIsActive(s: State, a: AgentId)
    requires NoPending(s)
    ensures |HeldBy(s.leases, s.claims, a)| <= |ActiveBy(s.claims, a)|
  {
    SubsetSize(HeldBy(s.leases, s.claims, a), ActiveBy(s.claims, a));
  }

  lemma GrantingCapacity(s: State, c: Claim, l: Lease)
    requires AllSound(s) && WithinCapacity(s) && NoPending(s) && c.agent < |s.w.agents|
    requires |ActiveBy(s.claims, c.agent)| < s.w.agents[c.agent].maxConcurrency
    requires c.lease == Some(s.counter + 1) && Open(c.status)
    ensures WithinCapacity(Granting(s, c, l))
  {
    var s' := Granting(s, c, l);
    forall a: nat | a < |s.w.agents| ensures |HeldBy(s'.leases, s'.claims, a)| <= s.w.agents[a].maxConcurrency {
      GrantingHeldBy(s, c, l, a);
      HeldIsActive(s, a);
    }
  }

  lemma AppendGranted(s: State, c: Claim, l: Lease)
    requires Core(s) && NoPending(s) && Registered(s.w, c) && !Claimed(s.claims, c.task)
    requires |ActiveBy(s.claims, c.agent)| < s.w.agents[c.agent].maxConcurrency
    requires c.lease == Some(s.counter + 1) && Open(c.status) && l.task == c.task && l.owner == c.pid
    ensures Core(Granting(s, c, l))
  {
    GrantingSound(s, c, l);
    GrantingOwned(s, c, l);
    GrantingDistinct(s, c, l);
    GrantingOneHolder(s, c, l);
    GrantingCapacity(s, c, l);
  }

  /** The next lease id is a new one. */
  lemma NextIsNew(s: State)
    requires AllSound(s) && NoOrphans(s)
    ensures s.counter + 1 !in s.leases
  {
    forall i: nat | i < |s.claims| ensures s.claims[i].lease != Some(s.counter + 1) {
      assert Sound(s.w, s.leases, s.counter, s.claims[i]);
    }
    assert s.counter + 1 in s.leases ==> Owned(s.claims, s.counter + 1);
  }

  lemma AcquireIs(s: State, t: TaskId, version: int, a: AgentId, answer: Answer)
    requires StillValid(s.w, t, version, a) && s.counter + 1 !in s.leases
    ensures var pid := s.w.agents[a].pid;
      Acquire(s, t, version, a, answer).0 == match answer
        case NoRoom => s
        case Refuses => Refusing(s, Claim(t, a, pid, version, None, Rejected), s.counter)
        case Fails => Refusing(s, Claim(t, a, pid, version, None, Rejected), s.counter)
        case TakenBack => Refusing(s, Claim(t, a, pid, version, None, Rejected), s.counter + 1)
        case Grants =>
          Granting(s, Claim(t, a, pid, version, Some(s.counter + 1), Active), Lease(t, pid, s.w.now + LEASE_TTL))
        case Unconfirmed =>
          Granting(s, Claim(t, a, pid, version, Some(s.counter + 1), Acquiring), Lease(t, pid, s.w.now + LEASE_TTL))
  {
  }

  lemma AcquirePending(s: State, t: TaskId, version: int, a: AgentId, answer: Answer)
    requires NoPending(s)
    ensures !Acquire(s, t, version, a, answer).2 ==> NoPending(Acquire(s, t, version, a, answer).0)
  {
  }

  lemma AcquireKeeps(s: State, t: TaskId, version: int, a: AgentId, answer: Answer)
    requires Core(s) && NoPending(s) && !Claimed(s.claims, t) && a < |s.w.agents|
    requires |ActiveBy(s.claims, a)| < s.w.agents[a].maxConcurrency
    ensures Core(Acquire(s, t, version, a, answer).0)
  {
    if StillValid(s.w, t, version, a) {
      NextIsNew(s);
      AcquireIs(s, t, version, a, answer);
      var pid := s.w.agents[a].pid;
      var l := Lease(t, pid, s.w.now + LEASE_TTL);
      match answer
      case NoRoom =>
      case Refuses => AppendRefused(s, Claim(t, a, pid, version, None, Rejected), s.counter);
      case Fails => AppendRefused(s, Claim(t, a, pid, version, None, Rejected), s.counter);
      case TakenBack => AppendRefused(s, Claim(t, a, pid, version, None, Rejected), s.counter + 1);
      case Grants => AppendGranted(s, Claim(t, a, pid, version, Some(s.counter + 1), Active), l);
      case Unconfirmed => AppendGranted(s, Claim(t, a, pid, version, Some(s.counter + 1), Acquiring), l);
    }
  }

  lemma OfferKeeps(s: State, version: int, t: TaskId, e: Env, answer: Answer)
    requires Core(s) && NoPending(s)
    ensures Core(Offer(s, version, t, e, answer).0)
    ensures !Offer(s, version, t, e, answer).1 ==> NoPending(Offer(s, version, t, e, answer).0)
  {
    if !Skipped(s, version, t) && Choice(s, t).Some? {
      var a := Choice(s, t).value;
      var s1 := s.(w := Interfere(s.w, e));
      WorldChange(s, s1.w);
      AcquireKeeps(s1, t, version, a, answer);
      AcquirePending(s1, t, version, a, answer);
      var s2 := Acquire(s1, t, version, a, answer).0;
      SameButIdem(s2, s2.idem + {(t, version)});
    }
  }

  lemma SameButIdem(s: State, idem: set<(TaskId, int)>)
    requires Core(s)
    ensures Core(s.(idem := idem)) && (NoPending(s) ==> NoPending(s.(idem := idem)))
  {
  }

  lemma {:induction false} OffersKeep(s: State, version: int, cands: seq<TaskId>, ms: seq<Moment>, n: nat)
    requires Core(s) && NoPending(s) && n <= |cands|
    ensures Core(Offers(s, version, cands, ms, n).0)
    ensures !Offers(s, version, cands, ms, n).1 ==> NoPending(Offers(s, version, cands, ms, n).0)
  {
    if n > 0 {
      OffersKeep(s, version, cands, ms, n - 1);
      var (r, raised) := Offers(s, version, cands, ms, n - 1);
      if !raised {
        OfferKeeps(r, version, cands[n - 1], At(ms, n - 1).env, At(ms, n - 1).answer);
      }
    }
  }

  // ---- operations ----

  const MAX_AGENTS := 20

  datatype Op =
    | Register(agent: Agent)
    | Enable(a: AgentId)
    | Disable(a: AgentId)
    | GrantCapability(a: AgentId, resource: Word, op: Word)
    | RevokeCapability(a: AgentId, resource: Word, op: Word)
    | TaskReady(t: TaskId, r: Requirements)
    | TaskStale(t: TaskId)
    | TaskVerified(t: TaskId)
    | ScheduleOnce
    | ScheduleTwice
    | Release(i: nat)
    | CompleteAttempt(i: nat, evidence: set<nat>)
    | ProcessExit(pid: Pid)
    | ProcessFail(pid: Pid)
    | LeaseExpire(l: LeaseId)
    | SchedulerRestart
    | GraphRestart(bump: nat)
    | ProjectionRebuild
    | ProjectionCorrupt(i: nat)
    | ReconcileOnly

  /** An operation, the time since the last one, and the surroundings of its passes. */
  datatype Event = Event(op: Op, elapsed: nat, first: seq<Moment>, second: seq<Moment>)

  /** There is something to apply the operation to; otherwise it schedules instead. */
  predicate Available(s: State, op: Op)
  {
    match op
    case Register(_) => |s.w.agents| < MAX_AGENTS
    case Enable(a) => a < |s.w.agents|
    case Disable(a) => a < |s.w.agents|
    case GrantCapability(a, _, _) => a < |s.w.agents|
    case RevokeCapability(a, _, _) => a < |s.w.agents|
    case TaskStale(t) => t in s.w.validity
    case TaskVerified(t) => t in s.w.validity
    case Release(i) => i < |s.claims| && s.claims[i].status == Active
    case CompleteAttempt(i, _) => i < |s.claims| && s.claims[i].status == Active
    case ProcessExit(pid) => Alive(s.w.kernel, pid)
    case ProcessFail(pid) => Alive(s.w.kernel, pid)
    case LeaseExpire(l) => l in s.leases && Unexpired(s.w, s.leases[l])
    case ProjectionCorrupt(i) => i < |s.claims|
    case ScheduleOnce => false
    case _ => true
  }

  /** The new world of an operation that touches only the world. */
  function Outside(w: World, op: Op): World
    requires (op.Enable? || op.Disable? || op.GrantCapability? || op.RevokeCapability?) ==> op.a < |w.agents|
  {
    match op
    case Register(agent) =>
      w.(agents := w.agents + [agent.(pid := |w.agents|)],
         kernel := w.kernel.(procs := w.kernel.procs[|w.agents| := Ready]))
    case Enable(a) => w.(agents := w.agents[a := w.agents[a].(enabled := true)])
    case Disable(a) => w.(agents := w.agents[a := w.agents[a].(enabled := false)])
    case GrantCapability(a, r, o) => w.(kernel := w.kernel.(grants := w.kernel.grants + {(w.agents[a].pid, r, o)}))
    case RevokeCapability(a, r, o) => w.(kernel := w.kernel.(grants := w.kernel.grants - {(w.agents[a].pid, r, o)}))
    case TaskReady(t, r) =>
      w.(frontier := Without(w.frontier, t) + [t], validity := w.validity[t := Unverified], reqs := w.reqs[t := r])
    case TaskStale(t) => w.(validity := w.validity[t := Stale])
    case TaskVerified(t) => w.(validity := w.validity[t := Verified])
    case ProcessExit(pid) => w.(kernel := w.kernel.(procs := w.kernel.procs[pid := Exited]))
    case ProcessFail(pid) => w.(kernel := w.kernel.(procs := w.kernel.procs[pid := Failed]))
    case GraphRestart(bump) => w.(version := w.version + bump, frontier := [])
    case _ => w
  }

  function Without(s: seq<TaskId>, t: TaskId): seq<TaskId>
  {
    if s == [] then [] else (if s[0] == t then [] else [s[0]]) + Without(s[1..], t)
  }

  /** release_claim on an ACTIVE claim, raising when its lease is not there to release. */
  function ReleaseClaim(s: State, i: nat): (State, bool)
    requires i < |s.claims|
  {
    var c := s.claims[i];
    if c.lease.Some? && c.lease.value !in s.leases then (s, true)
    else
      (s.(leases := if c.lease.Some? then s.leases - {c.lease.value} else s.leases,
          claims := s.claims[i := c.(status := Released)]), false)
  }

  /** The new state, and whether the operation raised. */
  ghost function Apply(s: State, e: Event): (State, bool)
  {
    if !Available(s, e.op) then Schedule(s, e.first)
    else
      match e.op
      case ScheduleTwice =>
        var (s1, raised) := Schedule(s, e.first);
        if raised then (s1, true) else Schedule(s1, e.second)
      case Release(i) => ReleaseClaim(s, i)
      case CompleteAttempt(i, evidence) =>
        Close(Observing(evidence), WithVerified(s, s.claims[i].task))
      case LeaseExpire(l) => (s.(leases := s.leases[l := s.leases[l].(expires := LONG_PAST)]), false)
      case SchedulerRestart =>
        var (s1, raised) := Close(Restarting, s);
        (Reconcile(s1), raised)
      case ProjectionCorrupt(i) => (Reconcile(Corrupted(s, i)), false)
      case ReconcileOnly => (Reconcile(s), false)
      case _ => (s.(w := Outside(s.w, e.op)), false)
  }

  /** Time passes, an operation runs, and the claims are reconciled. */
  ghost function Step(s: State, e: Event): (State, bool)
  {
    var (s', raised) := Apply(s.(w := s.w.(now := s.w.now + e.elapsed)), e);
    (Reconcile(s'), raised)
  }

  function Waited(s: State, e: Event): State
  {
    s.(w := s.w.(now := s.w.now + e.elapsed))
  }

  lemma StepIs(s: State, e: Event)
    ensures Step(s, e).0 == Reconcile(Apply(Waited(s, e), e).0)
  {
  }

  const START: State :=
    State(World(0, 0, [], map[], map[], Kernel(map[], {}), []), map[], 0, [], {})

  ghost function Run(es: seq<Event>): State
  {
    if es == [] then START else Step(Run(es[..|es| - 1]), es[|es| - 1]).0
  }

  // ---- each operation keeps the invariant ----

  lemma Matches(s: State, i: nat)
    requires AllSound(s) && i < |s.claims|
    ensures Sound(s.w, s.leases, s.counter, s.claims[i])
  {
  }

  lemma OutsideKeeps(s: State, op: Op)
    requires Core(s) && Available(s, op)
    ensures Core(s.(w := Outside(s.w, op)))
  {
    WorldChange(s, Outside(s.w, op));
  }

  /** The statuses after releasing claim i. */
  function ReleasedStatuses(claims: seq<Claim>, i: nat): (st: seq<Status>)
    ensures |st| == |claims| && forall j: nat | j < |st| :: st[j] == if j == i then Released else claims[j].status
  {
    seq(|claims|, (j: nat) requires j < |claims| => if j == i then Released else claims[j].status)
  }

  lemma ReleaseIs(s: State, i: nat)
    requires i < |s.claims| && s.claims[i].status == Active && Stored(s.leases, s.claims[i])
    ensures ReleaseClaim(s, i) == (Finish(s, ReleasedStatuses(s.claims, i)), false)
  {
    var st := ReleasedStatuses(s.claims, i);
    assert Restated(s.claims, st) == s.claims[i := s.claims[i].(status := Released)];
    OneGone(s, st, i);
  }

  lemma ReleaseKeeps(s: State, i: nat)
    requires Core(s) && Backed(s) && i < |s.claims| && s.claims[i].status == Active
    ensures !ReleaseClaim(s, i).1 && Core(ReleaseClaim(s, i).0)
  {
    FinishKeeps(s, ReleasedStatuses(s.claims, i));
    ReleaseIs(s, i);
  }

  lemma OneGone(s: State, st: seq<Status>, i: nat)
    requires |st| == |s.claims| && i < |st| && s.claims[i].lease.Some?
    requires forall j: nat | j < |st| :: st[j] != s.claims[j].status <==> j == i
    ensures Gone(s, st) == {s.claims[i].lease.value}
  {
    assert st[i] != s.claims[i].status;
  }

  lemma SameHolders(s: State, s': State)
    requires DistinctLeases(s.claims) && OneHolder(s.leases, s.claims) && WithinCapacity(s)
    requires s'.w == s.w && |s'.claims| == |s.claims|
    requires forall i: nat | i < |s.claims| ::
      && s'.claims[i].lease == s.claims[i].lease && s'.claims[i].task == s.claims[i].task
      && s'.claims[i].agent == s.claims[i].agent
      && (Holds(s'.leases, s'.claims[i]) <==> Holds(s.leases, s.claims[i]))
    ensures DistinctLeases(s'.claims) && OneHolder(s'.leases, s'.claims) && WithinCapacity(s')
  {
    forall a: nat | a < |s.w.agents| ensures HeldBy(s'.leases, s'.claims, a) == HeldBy(s.leases, s.claims, a) {
    }
  }

  lemma ExpireKeeps(s: State, l: LeaseId, expires: int)
    requires Core(s) && l in s.leases
    ensures Core(s.(leases := s.leases[l := s.leases[l].(expires := expires)]))
  {
    var s' := s.(leases := s.leases[l := s.leases[l].(expires := expires)]);
    forall i: nat | i < |s.claims|
      ensures Sound(s'.w, s'.leases, s'.counter, s'.claims[i])
      ensures Holds(s'.leases, s'.claims[i]) <==> Holds(s.leases, s.claims[i])
    {
      Matches(s, i);
    }
    SameHolders(s, s');
  }

  function Corrupted(s: State, i: nat): State
    requires i < |s.claims|
  {
    s.(claims := s.claims[i := s.claims[i].(status := Active)])
  }

  lemma CorruptClaim(s: State, i: nat, j: nat)
    requires AllSound(s) && i < |s.claims| && j < |s.claims|
    ensures var s' := Corrupted(s, i);
      && Sound(s'.w, s'.leases, s'.counter, s'.claims[j])
      && (Holds(s'.leases, s'.claims[j]) <==> Holds(s.leases, s.claims[j]))
  {
    Matches(s, j);
  }

  /** A claim wrongly marked ACTIVE holds no lease it did not hold before. */
  lemma CorruptKeeps(s: State, i: nat)
    requires Core(s) && i < |s.claims|
    ensures Core(Corrupted(s, i))
  {
    var s' := Corrupted(s, i);
    forall j: nat | j < |s.claims|
      ensures Sound(s'.w, s'.leases, s'.counter, s'.claims[j])
      ensures Holds(s'.leases, s'.claims[j]) <==> Holds(s.leases, s.claims[j])
    {
      CorruptClaim(s, i, j);
    }
    CorruptOwned(s, i);
    SameHolders(s, s');
  }

  lemma CorruptOwned(s: State, i: nat)
    requires NoOrphans(s) && i < |s.claims|
    ensures NoOrphans(Corrupted(s, i))
  {
    var s' := Corrupted(s, i);
    forall l | l in s.leases ensures Owned(s'.claims, l) {
      var j: nat :| j < |s.claims| && s.claims[j].lease == Some(l);
      assert s'.claims[j].lease == Some(l);
    }
  }

  lemma ScheduleKeeps(s: State, ms: seq<Moment>)
    requires Core(s) && NoPending(s)
    ensures Core(Schedule(s, ms).0) && (!Schedule(s, ms).1 ==> NoPending(Schedule(s, ms).0))
  {
    OffersKeep(s, s.w.version, s.w.frontier, ms, |s.w.frontier|);
  }

  lemma CloseKeeps(p: Pass, s: State)
    requires Core(s) && Backed(s)
    ensures !Close(p, s).1 && Core(Close(p, s).0)
  {
    BackedNeverRaises(p, s);
    CloseIs(p, s);
  }

  lemma TwiceKeeps(s: State, first: seq<Moment>, second: seq<Moment>)
    requires Core(s) && NoPending(s)
    ensures !Schedule(s, first).1 ==> Core(Schedule(Schedule(s, first).0, second).0)
  {
    ScheduleKeeps(s, first);
    var (s1, raised) := Schedule(s, first);
    if !raised {
      ScheduleKeeps(s1, second);
    }
  }

  function WithVerified(s: State, t: TaskId): State
  {
    s.(w := s.w.(validity := s.w.validity[t := Verified]))
  }

  lemma CompleteKeeps(s: State, t: TaskId, evidence: set<nat>)
    requires Core(s) && Backed(s)
    ensures !Close(Observing(evidence), WithVerified(s, t)).1 && Core(Close(Observing(evidence), WithVerified(s, t)).0)
  {
    WorldChange(s, WithVerified(s, t).w);
    CloseKeeps(Observing(evidence), WithVerified(s, t));
  }

  predicate ClosesClaims(op: Op)
  {
    op.Release? || op.CompleteAttempt? || op.SchedulerRestart? || op.ProjectionCorrupt? || op.ReconcileOnly?
  }

  lemma ClosingKeeps(s: State, e: Event)
    requires Core(s) && Backed(s) && Available(s, e.op) && ClosesClaims(e.op)
    ensures !Apply(s, e).1 && Core(Apply(s, e).0)
  {
    match e.op
    case Release(i) => ReleaseKeeps(s, i);
    case CompleteAttempt(i, evidence) => CompleteKeeps(s, s.claims[i].task, evidence);
    case SchedulerRestart =>
      CloseKeeps(Restarting, s);
      ReconcileSettles(Close(Restarting, s).0);
    case ProjectionCorrupt(i) =>
      CorruptKeeps(s, i);
      ReconcileSettles(Corrupted(s, i));
    case ReconcileOnly => ReconcileSettles(s);
  }

  lemma ApplyKeeps(s: State, e: Event)
    requires Core(s) && Backed(s)
    ensures Core(Apply(s, e).0)
  {
    if !Available(s, e.op) {
      ScheduleKeeps(s, e.first);
    } else if ClosesClaims(e.op) {
      ClosingKeeps(s, e);
    } else if e.op.ScheduleTwice? {
      ScheduleKeeps(s, e.first);
      TwiceKeeps(s, e.first, e.second);
    } else if e.op.LeaseExpire? {
      ExpireKeeps(s, e.op.l, LONG_PAST);
    } else {
      OutsideKeeps(s, e.op);
    }
  }

  /** From any state with the invariant and only executable claims open, every operation
      leads to another such state. */
  lemma StepKeeps(s: State, e: Event)
    requires Core(s) && Reconciled(s)
    ensures Core(Step(s, e).0) && Reconciled(Step(s, e).0)
  {
    var s1 := s.(w := s.w.(now := s.w.now + e.elapsed));
    WorldChange(s, s1.w);
    ApplyKeeps(s1, e);
    var s2 := Apply(s1, e).0;
    assert Step(s, e).0 == Reconcile(s2);
    ReconcileSettles(s2);
  }

  lemma {:induction false} RunKeeps(es: seq<Event>)
    ensures Core(Run(es)) && Reconciled(Run(es))
  {
    if es != [] {
      RunKeeps(es[..|es| - 1]);
      StepKeeps(Run(es[..|es| - 1]), es[|es| - 1]);
    }
  }
}

/** What becomes of every claim in every step of every run, and who gets a new one, in terms
    of leases, processes, tasks and agents alone. */
module ClaimOutcomes {
  import opened Collections
  import opened Matching
  import opened Claims
  import opened ClaimInvariant
  import opened ClaimRuns
  import opened ClaimTheorems

  // ---- the claim loops ----

  /** A loop gives every claim its verdict and takes away the leases of those it closes. */
  lemma CloseVerdict(p: Pass, s: State, i: nat)
    requires Core(s) && !Close(p, s).1 && i < |s.claims|
    ensures var s', c := Close(p, s).0, s.claims[i];
      && s'.w == s.w && s'.counter == s.counter && |s'.claims| == |s.claims| && SameClaim(c, s'.claims[i])
      && s'.claims[i].status == Fate(p, s.w, s.leases, i, c)
      && (Stored(s.leases, c) ==> (Stored(s'.leases, c) <==> s'.claims[i].status == c.status))
      && (forall l | l in s'.leases :: l in s.leases && s'.leases[l] == s.leases[l])
  {
    CloseIs(p, s);
    if s.claims[i].lease.Some? {
      GoneIs(s, Fates(p, s), i);
    }
  }

  /** finalize_after_restart: an ACTIVE claim stays ACTIVE and keeps its lease exactly when the
      lease has not run out and the process is alive; otherwise it is LOST and the lease gone.
      Every other claim is left alone. */
  lemma RestartVerdicts(s: State, i: nat)
    requires Core(s) && Backed(s) && i < |s.claims|
    ensures !Close(Restarting, s).1
    ensures var s', c := Close(Restarting, s).0, s.claims[i];
      && |s'.claims| == |s.claims|
      && (c.status != Active ==> s'.claims[i] == c)
      && (c.status == Active && LeaseLive(s, c) && ProcessUp(s.w, c.pid) ==>
            s'.claims[i] == c && c.lease.value in s'.leases && s'.leases[c.lease.value] == s.leases[c.lease.value])
      && (c.status == Active && !(LeaseLive(s, c) && ProcessUp(s.w, c.pid)) ==>
            s'.claims[i] == c.(status := Lost) && !Stored(s'.leases, c))
  {
    CloseKeeps(Restarting, s);
    CloseVerdict(Restarting, s, i);
  }

  lemma RestartSpares(s: State, i: nat)
    requires Reconciled(s) && i < |s.claims|
    ensures Fate(Restarting, s.w, s.leases, i, s.claims[i]) == s.claims[i].status
  {
  }

  /** A restart right after a reconciliation changes nothing. */
  lemma RestartIdle(s: State)
    requires Core(s) && Reconciled(s)
    ensures Close(Restarting, s) == (s, false)
  {
    CloseKeeps(Restarting, s);
    CloseIs(Restarting, s);
    var st := Fates(Restarting, s);
    forall i: nat | i < |st| ensures st[i] == s.claims[i].status {
      RestartSpares(s, i);
    }
    FinishNothing(s, st);
  }

  /** observe_vpg: exactly the ACTIVE claims on verified tasks whose evidence is their own
      become COMPLETED, and give up their leases. */
  lemma ObserveVerdicts(s: State, evidence: set<nat>, i: nat)
    requires Core(s) && Backed(s) && i < |s.claims|
    ensures !Close(Observing(evidence), s).1
    ensures var s', c := Close(Observing(evidence), s).0, s.claims[i];
      var done := c.status == Active && i in evidence && c.task in s.w.validity && s.w.validity[c.task] == Verified;
      && |s'.claims| == |s.claims|
      && s'.claims[i] == (if done then c.(status := Completed) else c)
      && (Stored(s.leases, c) ==> (Stored(s'.leases, c) <==> !done))
  {
    CloseKeeps(Observing(evidence), s);
    CloseVerdict(Observing(evidence), s, i);
  }


  /** The restart loop raises exactly when some ACTIVE claim has a lease id that the provider
      does not know. */
  lemma RestartRaises(s: State)
    requires Core(s)
    ensures Close(Restarting, s).1 <==>
      exists i: nat | i < |s.claims| :: s.claims[i].status == Active && s.claims[i].lease.Some? && s.claims[i].lease.value !in s.leases
  {
    CloseIs(Restarting, s);
    forall i: nat | i < |s.claims|
      ensures Raises(Restarting, s.w, s.leases, i, s.claims[i]) <==>
        s.claims[i].status == Active && s.claims[i].lease.Some? && s.claims[i].lease.value !in s.leases
    {
    }
  }

  /** The observation loop raises exactly when that happens to a claim it has to complete. */
  lemma ObserveRaises(s: State, evidence: set<nat>)
    requires Core(s)
    ensures Close(Observing(evidence), s).1 <==>
      exists i: nat | i < |s.claims| ::
        && s.claims[i].status == Active && i in evidence && s.claims[i].lease.Some? && s.claims[i].lease.value !in s.leases
        && s.claims[i].task in s.w.validity && s.w.validity[s.claims[i].task] == Verified
  {
    CloseIs(Observing(evidence), s);
    forall i: nat | i < |s.claims|
      ensures Raises(Observing(evidence), s.w, s.leases, i, s.claims[i]) <==>
        && s.claims[i].status == Active && i in evidence && s.claims[i].lease.Some? && s.claims[i].lease.value !in s.leases
        && s.claims[i].task in s.w.validity && s.w.validity[s.claims[i].task] == Verified
    {
    }
  }

  // ---- what a scheduling pass leaves alone ----

  /** What may change in the world while a pass is on: time, version and frontier, and
      processes that exit. */
  ghost predicate Drifts(w: World, w': World)
  {
    && w.now <= w'.now && w'.agents == w.agents && w'.reqs == w.reqs && w'.validity == w.validity
    && w'.kernel.grants == w.kernel.grants && w'.kernel.procs.Keys == w.kernel.procs.Keys
    && forall pid | pid in w.kernel.procs ::
         w'.kernel.procs[pid] == w.kernel.procs[pid] || w'.kernel.procs[pid] == Exited
  }

  /** Claim i and its lease are the same in both states. */
  ghost predicate Untouched(s: State, s': State, i: nat)
  {
    && i < |s.claims| <= |s'.claims| && s'.claims[i] == s.claims[i]
    && (Stored(s.leases, s.claims[i]) ==>
          Stored(s'.leases, s.claims[i]) && s'.leases[s.claims[i].lease.value] == s.leases[s.claims[i].lease.value])
  }

  ghost predicate Issues(s: State, i: nat)
  {
    i < |s.claims| && Issued(s.counter, s.claims[i])
  }

  lemma InterfereDrifts(w: World, e: Env)
    ensures Drifts(w, Interfere(w, e))
  {
  }

  lemma AcquireWorld(s: State, t: TaskId, version: int, a: AgentId, answer: Answer)
    ensures Acquire(s, t, version, a, answer).0.w == s.w
  {
  }

  lemma SameDrifts(w: World)
    ensures Drifts(w, w)
  {
  }

  lemma OfferDrifts(s: State, version: int, t: TaskId, e: Env, answer: Answer)
    ensures Drifts(s.w, Offer(s, version, t, e, answer).0.w)
  {
    if Skipped(s, version, t) || Choice(s, t) == None {
      SameDrifts(s.w);
    } else {
      InterfereDrifts(s.w, e);
      AcquireWorld(s.(w := Interfere(s.w, e)), t, version, Choice(s, t).value, answer);
    }
  }

  lemma OfferLeaves(s: State, version: int, t: TaskId, e: Env, answer: Answer, i: nat)
    requires Issues(s, i)
    ensures var s' := Offer(s, version, t, e, answer).0; Untouched(s, s', i) && s.counter <= s'.counter && Drifts(s.w, s'.w)
  {
    OfferDrifts(s, version, t, e, answer);
  }

  lemma LeavesTrans(s: State, t: State, u: State, i: nat)
    requires Untouched(s, t, i) && Untouched(t, u, i) && Drifts(s.w, t.w) && Drifts(t.w, u.w)
    ensures Untouched(s, u, i) && Drifts(s.w, u.w)
  {
  }

  lemma {:induction false} OffersLeave(s: State, version: int, cands: seq<TaskId>, ms: seq<Moment>, n: nat, i: nat)
    requires n <= |cands| && Issues(s, i)
    ensures var s' := Offers(s, version, cands, ms, n).0; Untouched(s, s', i) && s.counter <= s'.counter && Drifts(s.w, s'.w)
  {
    if n > 0 {
      OffersLeave(s, version, cands, ms, n - 1, i);
      var (r, raised) := Offers(s, version, cands, ms, n - 1);
      if !raised {
        OfferLeaves(r, version, cands[n - 1], At(ms, n - 1).env, At(ms, n - 1).answer, i);
        LeavesTrans(s, r, Offers(s, version, cands, ms, n).0, i);
      }
    }
  }

  lemma ScheduleLeaves(s: State, ms: seq<Moment>, i: nat)
    requires Issues(s, i)
    ensures var s' := Schedule(s, ms).0; Untouched(s, s', i) && Drifts(s.w, s'.w) && Issues(s', i)
  {
    OffersLeave(s, s.w.version, s.w.frontier, ms, |s.w.frontier|, i);
  }

  lemma TwiceLeaves(s: State, e: Event, i: nat)
    requires Issues(s, i) && Available(s, e.op) && e.op.ScheduleTwice?
    ensures var s' := Apply(s, e).0; Untouched(s, s', i) && Drifts(s.w, s'.w)
  {
    ScheduleLeaves(s, e.first, i);
    var s1 := Schedule(s, e.first).0;
    ScheduleLeaves(s1, e.second, i);
    LeavesTrans(s, s1, Schedule(s1, e.second).0, i);
  }

  // ---- why a claim is closed ----

  ghost predicate IsVerified(w: World, t: TaskId)
  {
    t in w.validity && w.validity[t] == Verified
  }

  /** An ACTIVE claim with a stored lease, and what reconcile makes of it. */
  ghost function Verdict(s: State, c: Claim): Status
  {
    if IsVerified(s.w, c.task) then Completed
    else if LeaseLive(s, c) && ProcessUp(s.w, c.pid) && TaskOpen(s.w, c.task) then Active
    else Lost
  }

  ghost predicate Held(s: State, i: nat)
  {
    i < |s.claims| && s.claims[i].status == Active && Stored(s.leases, s.claims[i])
  }

  lemma VerdictGiven(s: State, i: nat)
    requires Core(s) && Held(s, i)
    ensures |Reconcile(s).claims| == |s.claims| && Reconcile(s).w == s.w
    ensures Reconcile(s).claims[i] == s.claims[i].(status := Verdict(s, s.claims[i]))
  {
    ReconcileVerdicts(s, i);
    ReconcileSettles(s);
    Matches(s, i);
  }

  lemma VerdictTwice(s: State, i: nat)
    requires Core(s) && Held(s, i)
    ensures |Reconcile(Reconcile(s)).claims| == |s.claims| && Reconcile(Reconcile(s)).w == s.w
    ensures Reconcile(Reconcile(s)).claims[i] == s.claims[i].(status := Verdict(s, s.claims[i]))
  {
    VerdictGiven(s, i);
    ReconcileSettles(s);
    ReconcileTwice(Reconcile(s));
  }

  /** What a step makes of an ACTIVE claim c with lease l, given the world it leaves. */
  ghost function Outcome(c: Claim, l: Lease, i: nat, op: Op, w: World): Status
  {
    if op == Op.Release(i) then Released
    else if IsVerified(w, c.task) then Completed
    else if TaskOpen(w, c.task) && ProcessUp(w, c.pid) && w.now <= l.expires && !(c.lease.Some? && op == LeaseExpire(c.lease.value))
    then Active
    else Lost
  }

  ghost predicate EndsAs(s: State, i: nat, op: Op, s': State)
    requires Held(s, i)
  {
    && i < |s'.claims| && SameClaim(s.claims[i], s'.claims[i])
    && s'.claims[i].status == Outcome(s.claims[i], s.leases[s.claims[i].lease.value], i, op, s'.w)
  }

  lemma UntouchedEnds(s: State, s2: State, i: nat, op: Op)
    requires Held(s, i) && Untouched(s, s2, i) && Core(s2) && op != Op.Release(i)
    requires op.LeaseExpire? ==> op.l != s.claims[i].lease.value
    ensures EndsAs(s, i, op, Reconcile(s2))
  {
    VerdictGiven(s2, i);
  }

  /** Where a step begins: the state after the time that has passed. */
  ghost predicate Ready(s: State, i: nat)
  {
    Core(s) && Backed(s) && Held(s, i) && TaskOpen(s.w, s.claims[i].task) && s.w.now >= 0
  }

  lemma DriftEnds(s: State, s2: State, i: nat, op: Op)
    requires Held(s, i) && TaskOpen(s.w, s.claims[i].task) && op != Op.Release(i)
    requires Untouched(s, s2, i) && Drifts(s.w, s2.w) && Core(s2)
    requires op == LeaseExpire(s.claims[i].lease.value) ==> s.w.now > s.leases[s.claims[i].lease.value].expires
    ensures EndsAs(s, i, op, Reconcile(s2))
  {
    if op == LeaseExpire(s.claims[i].lease.value) {
      VerdictGiven(s2, i);
    } else {
      UntouchedEnds(s, s2, i, op);
    }
  }

  lemma SchedulingLeaves(s: State, e: Event, i: nat)
    requires Issues(s, i) && Schedules(s, e.op)
    ensures var s' := Apply(s, e).0; Untouched(s, s', i) && Drifts(s.w, s'.w)
  {
    if Available(s, e.op) {
      TwiceLeaves(s, e, i);
    } else {
      ScheduleLeaves(s, e.first, i);
    }
  }

  lemma SchedulingEnds(s: State, e: Event, s2: State, i: nat)
    requires Ready(s, i) && Schedules(s, e.op) && s2 == Apply(s, e).0
    ensures EndsAs(s, i, e.op, Reconcile(s2))
  {
    Matches(s, i);
    ApplyKeeps(s, e);
    SchedulingLeaves(s, e, i);
    NothingElseApplies(s, e.op, i);
    DriftEnds(s, s2, i, e.op);
  }

  lemma NothingElseApplies(s: State, op: Op, i: nat)
    requires Held(s, i) && Schedules(s, op)
    ensures op != Op.Release(i)
    ensures op == LeaseExpire(s.claims[i].lease.value) ==> s.w.now > s.leases[s.claims[i].lease.value].expires
  {
  }

  lemma ReleaseEnds(s: State, j: nat, s2: State, i: nat)
    requires Ready(s, i) && j < |s.claims| && s.claims[j].status == Active && s2 == ReleaseClaim(s, j).0
    ensures EndsAs(s, i, Op.Release(j), Reconcile(s2))
  {
    ReleaseKeeps(s, j);
    if j == i {
      ReconcileVerdicts(s2, i);
    } else {
      assert Held(s, j);
      UntouchedEnds(s, s2, i, Op.Release(j));
    }
  }

  lemma CompletedStays(s: State, s2: State, i: nat, op: Op)
    requires Held(s, i) && op.CompleteAttempt? && Core(s2) && i < |s2.claims|
    requires s2.claims[i] == s.claims[i].(status := Completed) && IsVerified(s2.w, s.claims[i].task)
    ensures EndsAs(s, i, op, Reconcile(s2))
  {
    ReconcileVerdicts(s2, i);
    ReconcileSettles(s2);
  }

  lemma CompleteEnds(s: State, s0: State, s2: State, i: nat, op: Op)
    requires Ready(s, i) && op.CompleteAttempt? && op.i < |s.claims| && s0 == WithVerified(s, s.claims[op.i].task)
    requires s2 == Close(Observing(op.evidence), s0).0
    ensures EndsAs(s, i, op, Reconcile(s2))
  {
    WorldChange(s, s0.w);
    CompleteKeeps(s, s.claims[op.i].task, op.evidence);
    ObserveVerdicts(s0, op.evidence, i);
    CloseVerdict(Observing(op.evidence), s0, i);
    if s2.claims[i].status == Completed {
      CompletedStays(s, s2, i, op);
    } else {
      UntouchedEnds(s, s2, i, op);
    }
  }

  lemma ExpiredEnds(s: State, s2: State, i: nat, op: Op)
    requires Ready(s, i) && op == LeaseExpire(s.claims[i].lease.value) && Core(s2) && s2.w == s.w && Held(s2, i)
    requires s2.claims[i] == s.claims[i] && s2.leases[s.claims[i].lease.value].expires == LONG_PAST
    ensures EndsAs(s, i, op, Reconcile(s2))
  {
    VerdictGiven(s2, i);
  }

  lemma ExpireEnds(s: State, l: LeaseId, s2: State, i: nat)
    requires Ready(s, i) && l in s.leases && s2 == s.(leases := s.leases[l := s.leases[l].(expires := LONG_PAST)])
    ensures EndsAs(s, i, LeaseExpire(l), Reconcile(s2))
  {
    ExpireKeeps(s, l, LONG_PAST);
    if l == s.claims[i].lease.value {
      ExpiredEnds(s, s2, i, LeaseExpire(l));
    } else {
      UntouchedEnds(s, s2, i, LeaseExpire(l));
    }
  }

  lemma TwiceEnds(s: State, x: State, i: nat, op: Op)
    requires Held(s, i) && Untouched(s, x, i) && Core(x) && !op.Release? && !op.LeaseExpire?
    ensures EndsAs(s, i, op, Reconcile(Reconcile(x)))
  {
    VerdictTwice(x, i);
  }

  lemma LostStays(s: State, x: State, i: nat, op: Op)
    requires Held(s, i) && TaskOpen(s.w, s.claims[i].task) && !op.Release? && !op.LeaseExpire?
    requires !(LeaseLive(s, s.claims[i]) && ProcessUp(s.w, s.claims[i].pid))
    requires Core(x) && x.w == s.w && i < |x.claims| && x.claims[i] == s.claims[i].(status := Lost)
    ensures EndsAs(s, i, op, Reconcile(Reconcile(x)))
  {
    ReconcileSettles(x);
    ReconcileTwice(Reconcile(x));
    ReconcileVerdicts(x, i);
  }

  lemma RestartEnds(s: State, x: State, i: nat, op: Op)
    requires Ready(s, i) && !op.Release? && !op.LeaseExpire? && x == Close(Restarting, s).0
    ensures EndsAs(s, i, op, Reconcile(Reconcile(x)))
  {
    RestartVerdicts(s, i);
    CloseKeeps(Restarting, s);
    if x.claims[i].status == Active {
      TwiceEnds(s, x, i, op);
    } else {
      LostStays(s, x, i, op);
    }
  }

  lemma CorruptEnds(s: State, x: State, j: nat, i: nat, op: Op)
    requires Ready(s, i) && !op.Release? && !op.LeaseExpire? && j < |s.claims| && x == Corrupted(s, j)
    ensures EndsAs(s, i, op, Reconcile(Reconcile(x)))
  {
    CorruptKeeps(s, j);
    TwiceEnds(s, x, i, op);
  }

  lemma OutsideEnds(s: State, s2: State, i: nat, op: Op)
    requires Ready(s, i) && Available(s, op) && !op.Release? && !op.LeaseExpire?
    requires s2 == s.(w := Outside(s.w, op))
    ensures EndsAs(s, i, op, Reconcile(s2))
  {
    OutsideKeeps(s, op);
    UntouchedEnds(s, s2, i, op);
  }

  /** What an operation other than a pass does, before the reconcile that ends its step. */
  ghost function Applied(s: State, op: Op): State
    requires Available(s, op)
  {
    match op
    case Release(j) => ReleaseClaim(s, j).0
    case CompleteAttempt(j, evidence) => Close(Observing(evidence), WithVerified(s, s.claims[j].task)).0
    case LeaseExpire(l) => s.(leases := s.leases[l := s.leases[l].(expires := LONG_PAST)])
    case SchedulerRestart => Reconcile(Close(Restarting, s).0)
    case ProjectionCorrupt(j) => Reconcile(Corrupted(s, j))
    case ReconcileOnly => Reconcile(s)
    case _ => s.(w := Outside(s.w, op))
  }

  lemma AppliedIs(s: State, e: Event)
    requires !Schedules(s, e.op)
    ensures Apply(s, e).0 == Applied(s, e.op)
  {
  }

  lemma AppliedEnds(s: State, op: Op, s2: State, i: nat)
    requires Ready(s, i) && Available(s, op) && s2 == Applied(s, op)
    ensures EndsAs(s, i, op, Reconcile(s2))
  {
    match op
    case Release(j) => ReleaseEnds(s, j, s2, i);
    case CompleteAttempt(j, evidence) => CompleteEnds(s, WithVerified(s, s.claims[j].task), s2, i, op);
    case LeaseExpire(l) => ExpireEnds(s, l, s2, i);
    case SchedulerRestart => RestartEnds(s, Close(Restarting, s).0, i, op);
    case ProjectionCorrupt(j) => CorruptEnds(s, Corrupted(s, j), j, i, op);
    case ReconcileOnly => TwiceEnds(s, s, i, op);
    case _ => OutsideEnds(s, s2, i, op);
  }

  lemma ApplyEnds(s: State, e: Event, s2: State, i: nat)
    requires Ready(s, i) && s2 == Apply(s, e).0
    ensures EndsAs(s, i, e.op, Reconcile(s2))
  {
    if Schedules(s, e.op) {
      SchedulingEnds(s, e, s2, i);
    } else {
      AppliedIs(s, e);
      AppliedEnds(s, e.op, s2, i);
    }
  }

  // ---- over runs ----

  lemma ReconcileWorld(s: State)
    ensures Reconcile(s).w == s.w
  {
  }

  lemma AtStart(s: State, e: Event, s1: State, i: nat)
    requires Core(s) && Reconciled(s) && i < |s.claims| && s.claims[i].status == Active && s.w.now >= 0
    requires s1 == Waited(s, e)
    ensures Ready(s1, i) && Held(s, i)
  {
    WorldChange(s, s1.w);
  }

  lemma StepEnds(s: State, e: Event, i: nat, s': State)
    requires Core(s) && Reconciled(s) && i < |s.claims| && s.claims[i].status == Active && s.w.now >= 0
    requires s' == Reconcile(Apply(Waited(s, e), e).0)
    ensures Held(s, i) && EndsAs(s, i, e.op, s')
  {
    var s1 := Waited(s, e);
    AtStart(s, e, s1, i);
    ApplyEnds(s1, e, Apply(s1, e).0, i);
  }

  lemma OfferTime(s: State, version: int, t: TaskId, e: Env, answer: Answer)
    ensures s.w.now <= Offer(s, version, t, e, answer).0.w.now
  {
  }

  lemma {:induction false} OffersTime(s: State, version: int, cands: seq<TaskId>, ms: seq<Moment>, n: nat)
    requires n <= |cands|
    ensures s.w.now <= Offers(s, version, cands, ms, n).0.w.now
  {
    if n > 0 {
      OffersTime(s, version, cands, ms, n - 1);
      var (r, raised) := Offers(s, version, cands, ms, n - 1);
      OfferTime(r, version, cands[n - 1], At(ms, n - 1).env, At(ms, n - 1).answer);
    }
  }

  lemma ScheduleTime(s: State, ms: seq<Moment>)
    ensures s.w.now <= Schedule(s, ms).0.w.now
  {
    OffersTime(s, s.w.version, s.w.frontier, ms, |s.w.frontier|);
  }

  lemma AppliedTime(s: State, op: Op)
    requires Available(s, op)
    ensures Applied(s, op).w.now == s.w.now
  {
  }

  lemma ApplyTime(s: State, e: Event, s2: State)
    requires s2 == Apply(s, e).0
    ensures s.w.now <= s2.w.now
  {
    if Schedules(s, e.op) {
      ScheduleTime(s, e.first);
      ScheduleTime(Schedule(s, e.first).0, e.second);
    } else {
      AppliedIs(s, e);
      AppliedTime(s, e.op);
    }
  }

  lemma StepTime(s: State, e: Event)
    ensures s.w.now <= Step(s, e).0.w.now
  {
    var s2 := Apply(Waited(s, e), e).0;
    StepIs(s, e);
    ReconcileWorld(s2);
    ApplyTime(Waited(s, e), e, s2);
  }

  lemma {:induction false} RunTime(es: seq<Event>)
    ensures Run(es).w.now >= 0
  {
    if es != [] {
      RunTime(es[..|es| - 1]);
      StepTime(Run(es[..|es| - 1]), es[|es| - 1]);
    }
  }

  /** Over every run, what the next step makes of an ACTIVE claim: RELEASED if it is released;
      else COMPLETED exactly when its task is verified afterwards; else ACTIVE exactly when its
      task is not stale, its process is alive and its lease has neither run out nor been
      expired; else LOST. */
  lemma ClosedForCause(es: seq<Event>, e: Event, i: nat)
    requires i < |Run(es).claims| && Run(es).claims[i].status == Active
    ensures Held(Run(es), i) && EndsAs(Run(es), i, e.op, Step(Run(es), e).0)
  {
    RunKeeps(es);
    RunTime(es);
    StepIs(Run(es), e);
    StepEnds(Run(es), e, i, Step(Run(es), e).0);
  }

  // ---- what each operation does to the claims ----

  /** The status an operation itself gives the ACTIVE claim i, if it concerns it. */
  ghost function Struck(s: State, op: Op, i: nat): Option<Status>
    requires i < |s.claims|
  {
    var c := s.claims[i];
    match op
    case Release(j) => if j == i then Some(Released) else None
    case CompleteAttempt(j, _) =>
      if j < |s.claims| && s.claims[j].status == Active && s.claims[j].task == c.task then Some(Completed) else None
    case TaskVerified(t) => if t == c.task && t in s.w.validity then Some(Completed) else None
    case TaskStale(t) => if t == c.task && t in s.w.validity then Some(Lost) else None
    case ProcessExit(pid) => if pid == c.pid then Some(Lost) else None
    case ProcessFail(pid) => if pid == c.pid then Some(Lost) else None
    case LeaseExpire(l) => if c.lease == Some(l) then Some(Lost) else None
    case _ => None
  }

  /** What the operation leaves of the task and the process of an ACTIVE claim. */
  ghost predicate Spares(s: State, op: Op, i: nat, w: World)
    requires i < |s.claims|
  {
    var c := s.claims[i];
    && (IsVerified(w, c.task) <==> Struck(s, op, i) == Some(Completed))
    && (Struck(s, op, i) == None ==> TaskOpen(w, c.task) && ProcessUp(w, c.pid))
    && (Struck(s, op, i) == Some(Lost) && !op.LeaseExpire? ==> !(TaskOpen(w, c.task) && ProcessUp(w, c.pid)))
  }

  /** The world after an operation that does not schedule. */
  ghost function NewWorld(s: State, op: Op): World
    requires Available(s, op)
  {
    if op.CompleteAttempt? then WithVerified(s, s.claims[op.i].task).w
    else if ClosesClaims(op) || op.LeaseExpire? then s.w
    else Outside(s.w, op)
  }

  lemma AppliedWorld(s: State, op: Op)
    requires Available(s, op)
    ensures Applied(s, op).w == NewWorld(s, op)
  {
  }

  lemma WorldOf(s: State, op: Op, i: nat, w: World)
    requires i < |s.claims| && s.claims[i].status == Active && TaskOpen(s.w, s.claims[i].task) && ProcessUp(s.w, s.claims[i].pid)
    requires !Schedules(s, op) && w == NewWorld(s, op)
    ensures Spares(s, op, i, w) && w.now == s.w.now
  {
  }

  lemma NotStruck(s: State, op: Op, i: nat)
    requires Held(s, i) && TaskOpen(s.w, s.claims[i].task) && ProcessUp(s.w, s.claims[i].pid) && Schedules(s, op)
    ensures Struck(s, op, i).Some? ==> Struck(s, op, i) == Some(Lost) && op == LeaseExpire(s.claims[i].lease.value)
  {
  }

  /** The status of the claim after the operation and the reconcile that follows. */
  ghost predicate Ends(s: State, e: Event, i: nat, s': State)
    requires Held(s, i)
  {
    var c := s.claims[i];
    && i < |s'.claims| && SameClaim(c, s'.claims[i])
    && s'.claims[i].status ==
         match Struck(s, e.op, i)
         case Some(st) => st
         case None => if s'.w.now <= s.leases[c.lease.value].expires && ProcessUp(s'.w, c.pid) then Active else Lost
  }

  /** Moreover only a scheduling pass takes time of its own, or ends a process that the
      operation does not name. */
  ghost predicate EndsTimely(s: State, e: Event, i: nat, s': State)
    requires Held(s, i)
  {
    && Ends(s, e, i, s')
    && (!Schedules(Waited(s, e), e.op) ==>
          && s'.w.now == s.w.now + e.elapsed
          && (Struck(s, e.op, i) == None ==> ProcessUp(s'.w, s.claims[i].pid)))
  }

  lemma StruckBefore(s: State, e: Event, i: nat)
    requires i < |s.claims|
    ensures Struck(Waited(s, e), e.op, i) == Struck(s, e.op, i)
  {
  }

  lemma SchedulingStruck(s: State, s1: State, e: Event, i: nat, s': State)
    requires Ready(s1, i) && ProcessUp(s1.w, s1.claims[i].pid) && Held(s, i) && s1 == Waited(s, e) && Schedules(s1, e.op)
    requires s'.w == Apply(s1, e).0.w && EndsAs(s1, i, e.op, s')
    ensures Ends(s, e, i, s')
  {
    Matches(s1, i);
    SchedulingLeaves(s1, e, i);
    NothingElseApplies(s1, e.op, i);
    NotStruck(s1, e.op, i);
    StruckBefore(s, e, i);
  }

  lemma EndsStruck(s: State, s1: State, e: Event, i: nat, s': State)
    requires Ready(s1, i) && ProcessUp(s1.w, s1.claims[i].pid) && Held(s, i) && s1 == Waited(s, e)
    requires s'.w == Apply(s1, e).0.w && EndsAs(s1, i, e.op, s')
    ensures EndsTimely(s, e, i, s')
  {
    if Schedules(s1, e.op) {
      SchedulingStruck(s, s1, e, i, s');
    } else {
      AppliedIs(s1, e);
      AppliedWorld(s1, e.op);
      WorldOf(s1, e.op, i, s'.w);
      StruckBefore(s, e, i);
    }
  }

  lemma AppliedOutcome(s: State, s1: State, e: Event, i: nat, s2: State)
    requires Core(s) && Reconciled(s) && s.w.now >= 0 && i < |s.claims| && s.claims[i].status == Active
    requires ProcessUp(s.w, s.claims[i].pid) && s1 == Waited(s, e) && s2 == Apply(s1, e).0
    ensures Held(s, i) && EndsTimely(s, e, i, Reconcile(s2))
  {
    AtStart(s, e, s1, i);
    ApplyEnds(s1, e, s2, i);
    ReconcileWorld(s2);
    EndsStruck(s, s1, e, i, Reconcile(s2));
  }

  lemma StepOutcome(s: State, e: Event, i: nat, s': State)
    requires Core(s) && Reconciled(s) && s.w.now >= 0 && i < |s.claims| && s.claims[i].status == Active
    requires ProcessUp(s.w, s.claims[i].pid) && s' == Step(s, e).0
    ensures Held(s, i) && EndsTimely(s, e, i, s')
  {
    StepIs(s, e);
    AppliedOutcome(s, Waited(s, e), e, i, Apply(Waited(s, e), e).0);
  }

  /** Over every run, what the next operation makes of an ACTIVE claim: its own release, the
      completion or verification of its task, its task going stale, the end of its process
      and the expiry of its lease give it the status they stand for; any other operation, a
      restart or a corruption included, leaves it ACTIVE unless its lease runs out or, while
      a pass is on, its process ends. */
  lemma OperationOutcomes(es: seq<Event>, e: Event, i: nat)
    requires i < |Run(es).claims| && Run(es).claims[i].status == Active
    ensures Held(Run(es), i) && EndsTimely(Run(es), e, i, Step(Run(es), e).0)
  {
    var s := Run(es);
    RunKeeps(es);
    RunTime(es);
    RunSafe(es);
    StepOutcome(s, e, i, Step(s, e).0);
  }


  // ---- who gets a claim ----

  /** The claim's agent fits its task. */
  ghost predicate FitClaim(w: World, c: Claim)
  {
    && c.task in w.reqs && c.agent < |w.agents| && c.pid == w.agents[c.agent].pid
    && Fit(w.kernel, w.agents[c.agent], w.reqs[c.task])
  }

  ghost predicate AllFit(w: World, claims: seq<Claim>, k: nat)
  {
    forall i: nat | k <= i < |claims| :: FitClaim(w, claims[i])
  }

  /** A claim is made for an agent that fits the task and has room. */
  lemma OfferFits(s: State, version: int, t: TaskId, e: Env, answer: Answer)
    requires |Offer(s, version, t, e, answer).0.claims| > |s.claims|
    ensures var c := Offer(s, version, t, e, answer).0.claims[|s.claims|];
      c.task == t && FitClaim(s.w, c) && |ActiveBy(s.claims, c.agent)| < s.w.agents[c.agent].maxConcurrency
  {
    PickFits(s.w.kernel, s.w.agents, s.w.reqs[t], Loads(s.claims, |s.w.agents|), |s.w.agents|);
  }

  /** No agent is found exactly when none fits and has room. */
  lemma NobodyFits(s: State, t: TaskId)
    requires t in s.w.reqs
    ensures Choice(s, t) == None <==>
      forall a: nat | a < |s.w.agents| ::
        !(Fit(s.w.kernel, s.w.agents[a], s.w.reqs[t]) && |ActiveBy(s.claims, a)| < s.w.agents[a].maxConcurrency)
  {
    PickFits(s.w.kernel, s.w.agents, s.w.reqs[t], Loads(s.claims, |s.w.agents|), |s.w.agents|);
  }

  /** Whoever fits after a pass has gone on for a while fitted when it began. */
  lemma FitBefore(w: World, w': World, c: Claim)
    requires Drifts(w, w') && FitClaim(w', c)
    ensures FitClaim(w, c)
  {
  }

  lemma DriftTrans(x: World, y: World, z: World)
    requires Drifts(x, y) && Drifts(y, z)
    ensures Drifts(x, z)
  {
  }

  lemma OfferAllFit(w: World, s: State, s': State, version: int, t: TaskId, m: Moment, k: nat)
    requires Drifts(w, s.w) && AllFit(w, s.claims, k) && k <= |s.claims| && s' == Offer(s, version, t, m.env, m.answer).0
    ensures Drifts(w, s'.w) && AllFit(w, s'.claims, k) && k <= |s'.claims|
  {
    OfferDrifts(s, version, t, m.env, m.answer);
    DriftTrans(w, s.w, s'.w);
    OfferExtends(s, version, t, m.env, m.answer);
    if |s'.claims| > |s.claims| {
      AcquireIsCurrent(s, version, t, m.env, m.answer);
      OfferFits(s, version, t, m.env, m.answer);
      FitAppend(w, s.w, s.claims, s'.claims, k);
    }
  }

  lemma FitAppend(w: World, w': World, claims: seq<Claim>, claims': seq<Claim>, k: nat)
    requires Drifts(w, w') && AllFit(w, claims, k) && claims <= claims' && |claims'| == |claims| + 1
    requires FitClaim(w', claims'[|claims|])
    ensures AllFit(w, claims', k)
  {
    FitBefore(w, w', claims'[|claims|]);
  }

  lemma {:induction false} OffersAllFit(w: World, s: State, version: int, cands: seq<TaskId>, ms: seq<Moment>, n: nat, k: nat)
    requires n <= |cands| && Drifts(w, s.w) && AllFit(w, s.claims, k) && k <= |s.claims|
    ensures var s' := Offers(s, version, cands, ms, n).0; Drifts(w, s'.w) && AllFit(w, s'.claims, k) && k <= |s'.claims|
  {
    if n > 0 {
      OffersAllFit(w, s, version, cands, ms, n - 1, k);
      var (r, raised) := Offers(s, version, cands, ms, n - 1);
      if !raised {
        OfferAllFit(w, r, Offers(s, version, cands, ms, n).0, version, cands[n - 1], At(ms, n - 1), k);
      }
    }
  }

  lemma ScheduleAllFit(w: World, s: State, ms: seq<Moment>, k: nat)
    requires Drifts(w, s.w) && AllFit(w, s.claims, k) && k <= |s.claims|
    ensures var s' := Schedule(s, ms).0; Drifts(w, s'.w) && AllFit(w, s'.claims, k) && k <= |s'.claims|
  {
    OffersAllFit(w, s, s.w.version, s.w.frontier, ms, |s.w.frontier|, k);
  }

  lemma ApplyAllFit(s: State, e: Event)
    ensures AllFit(s.w, Apply(s, e).0.claims, |s.claims|)
  {
    if Schedules(s, e.op) {
      ScheduleAllFit(s.w, s, e.first, |s.claims|);
      if Available(s, e.op) {
        ScheduleAllFit(s.w, Schedule(s, e.first).0, e.second, |s.claims|);
      }
    } else {
      OnlySchedulingClaims(s, e);
    }
  }

  lemma ReconcileAllFit(w: World, s: State, k: nat)
    requires Core(s) && AllFit(w, s.claims, k)
    ensures AllFit(w, Reconcile(s).claims, k)
  {
    ReconcileSettles(s);
    forall i: nat | k <= i < |Reconcile(s).claims| ensures FitClaim(w, Reconcile(s).claims[i]) {
      ReconcileVerdicts(s, i);
    }
  }

  lemma WaitedFit(s: State, e: Event, c: Claim)
    ensures FitClaim(Waited(s, e).w, c) <==> FitClaim(s.w, c)
  {
  }

  lemma StepAllFit(s: State, e: Event, s2: State)
    requires Core(s) && Reconciled(s) && s2 == Apply(Waited(s, e), e).0
    ensures AllFit(s.w, Reconcile(s2).claims, |s.claims|)
  {
    var s1 := Waited(s, e);
    WorldChange(s, s1.w);
    ApplyKeeps(s1, e);
    ApplyAllFit(s1, e);
    ReconcileAllFit(s1.w, s2, |s.claims|);
    forall i: nat | |s.claims| <= i < |Reconcile(s2).claims| ensures FitClaim(s.w, Reconcile(s2).claims[i]) {
      WaitedFit(s, e, Reconcile(s2).claims[i]);
    }
  }

  /** Over every run, the agent of every claim an operation makes is enabled, has a created,
      ready or running process, takes the kind, and holds every specialization, tool and
      capability the task asks for. */
  lemma NewClaimsFit(es: seq<Event>, e: Event)
    ensures AllFit(Run(es).w, Step(Run(es), e).0.claims, |Run(es).claims|)
  {
    RunKeeps(es);
    StepIs(Run(es), e);
    StepAllFit(Run(es), e, Apply(Waited(Run(es), e), e).0);
  }

  /** An undisturbed pass leaves a ready task without a claim only if the task has no
      requirements on file, was dispatched at this version before, or no agent that fits it
      has room left. */
  lemma NobodyLeftIdle(s: State, t: TaskId)
    requires t in s.w.frontier
    ensures var s' := Schedule(s, []).0;
      || Claimed(s'.claims, t) || t !in s.w.reqs || (t, s.w.version) in s'.idem
      || forall a: nat | a < |s.w.agents| ::
           !(Fit(s.w.kernel, s.w.agents[a], s.w.reqs[t]) && |ActiveBy(s'.claims, a)| < s.w.agents[a].maxConcurrency)
  {
    CalmPass(s, |s.w.frontier|);
    var s', k := Schedule(s, []).0, IndexOf(s.w.frontier, t);
    assert Settled(s', s.w.frontier[k]);
    if t in s.w.reqs {
      NobodyFits(s', t);
    }
  }

  function IndexOf(ts: seq<TaskId>, t: TaskId): (k: nat)
    requires t in ts
    ensures k < |ts| && ts[k] == t
  {
    if ts[0] == t then 0 else 1 + IndexOf(ts[1..], t)
  }

  // ---- what the other operations leave behind ----

  /** Only enabling and disabling change an agent; registering adds one with a new process. */
  ghost predicate AgentsAfter(w: World, op: Op, w': World)
  {
    && |w'.agents| == |w.agents| + (if op.Register? then 1 else 0)
    && (forall a: nat | a < |w.agents| ::
          w'.agents[a] == w.agents[a].(enabled := op == Enable(a) || (op != Disable(a) && w.agents[a].enabled)))
    && (op.Register? ==> w'.agents[|w.agents|] == op.agent.(pid := |w.agents|))
  }

  ghost predicate KernelAfter(w: World, op: Op, w': World)
    requires (op.GrantCapability? || op.RevokeCapability?) ==> op.a < |w.agents|
  {
    && (forall g: (Pid, Word, Word) :: g in w'.kernel.grants <==>
          || (op.GrantCapability? && g == (w.agents[op.a].pid, op.resource, op.op))
          || (g in w.kernel.grants && !(op.RevokeCapability? && g == (w.agents[op.a].pid, op.resource, op.op))))
    && (forall pid: Pid ::
          && (pid in w'.kernel.procs <==> pid in w.kernel.procs || (op.Register? && pid == |w.agents|)
                                          || op == ProcessExit(pid) || op == ProcessFail(pid))
          && (pid in w'.kernel.procs ==>
                w'.kernel.procs[pid] ==
                  if op == ProcessExit(pid) then Exited
                  else if op == ProcessFail(pid) then Failed
                  else if op.Register? && pid == |w.agents| then ProcState.Ready
                  else w.kernel.procs[pid]))
  }

  /** A task that becomes ready is unverified, joins the frontier and brings its requirements;
      a graph restart empties the frontier and nothing else does. */
  ghost predicate TasksAfter(w: World, op: Op, done: Option<TaskId>, w': World)
  {
    && (forall t: TaskId ::
          && (t in w'.frontier <==> !op.GraphRestart? && (t in w.frontier || (op.TaskReady? && op.t == t)))
          && (t in w'.reqs <==> t in w.reqs || (op.TaskReady? && op.t == t))
          && (t in w'.reqs ==> w'.reqs[t] == if op.TaskReady? && op.t == t then op.r else w.reqs[t])
          && (t in w'.validity <==> t in w.validity || done == Some(t) || (op.TaskReady? && op.t == t)
                                    || op == TaskStale(t) || op == TaskVerified(t))
          && (t in w'.validity ==>
                w'.validity[t] ==
                  if op.TaskReady? && op.t == t then Unverified
                  else if op == TaskStale(t) then Stale
                  else if op == TaskVerified(t) || done == Some(t) then Verified
                  else w.validity[t]))
    && w'.version == w.version + (if op.GraphRestart? then op.bump else 0)
    && (!op.TaskReady? && !op.GraphRestart? ==> w'.frontier == w.frontier)
  }

  lemma {:induction false} WithoutMembers(ts: seq<TaskId>, t: TaskId, u: TaskId)
    ensures u in Without(ts, t) <==> u in ts && u != t
  {
    if ts != [] {
      WithoutMembers(ts[1..], t, u);
      assert u in ts <==> u == ts[0] || u in ts[1..];
    }
  }

  lemma {:induction false} WithoutNothing(ts: seq<TaskId>, t: TaskId)
    requires t !in ts
    ensures Without(ts, t) == ts
  {
    if ts != [] {
      WithoutNothing(ts[1..], t);
    }
  }

  lemma {:induction false} WithoutOne(a: seq<TaskId>, t: TaskId, b: seq<TaskId>)
    requires t !in a && t !in b
    ensures Without(a + [t] + b, t) == a + b
  {
    if a == [] {
      assert [t] + b == a + [t] + b && ([t] + b)[1..] == b && a + b == b;
      WithoutNothing(b, t);
    } else {
      assert (a + [t] + b)[1..] == a[1..] + [t] + b && a + b == [a[0]] + (a[1..] + b);
      WithoutOne(a[1..], t, b);
    }
  }

  /** A task that becomes ready goes to the end of the frontier, wherever it was before. */
  lemma ReadyGoesLast(w: World, t: TaskId, r: Requirements, a: seq<TaskId>, b: seq<TaskId>)
    requires t !in a && t !in b && w.frontier in {a + [t] + b, a + b}
    ensures Outside(w, TaskReady(t, r)).frontier == a + b + [t]
  {
    if w.frontier == a + [t] + b {
      WithoutOne(a, t, b);
    } else {
      WithoutNothing(a + b, t);
    }
  }

  lemma FrontierAfter(w: World, op: Op, t: TaskId)
    requires op.TaskReady?
    ensures t in Outside(w, op).frontier <==> t in w.frontier || op.t == t
  {
    WithoutMembers(w.frontier, op.t, t);
  }

  ghost function Completes(s: State, op: Op): Option<TaskId>
    requires Available(s, op)
  {
    if op.CompleteAttempt? then Some(s.claims[op.i].task) else None
  }

  lemma TasksOf(s: State, op: Op)
    requires !Schedules(s, op)
    ensures TasksAfter(s.w, op, Completes(s, op), NewWorld(s, op))
  {
    if op.TaskReady? {
      forall t: TaskId ensures t in NewWorld(s, op).frontier <==> t in s.w.frontier || op.t == t {
        FrontierAfter(s.w, op, t);
      }
    }
  }

  lemma AgentsOf(s: State, op: Op)
    requires !Schedules(s, op)
    ensures AgentsAfter(s.w, op, NewWorld(s, op))
  {
  }

  lemma KernelOf(s: State, op: Op)
    requires !Schedules(s, op)
    ensures KernelAfter(s.w, op, NewWorld(s, op))
  {
  }

  /** Every operation but a scheduling pass changes exactly what it names in the world. */
  lemma WorldAfter(s: State, e: Event)
    requires !Schedules(Waited(s, e), e.op)
    ensures var w' := Step(s, e).0.w;
      && AgentsAfter(s.w, e.op, w') && KernelAfter(s.w, e.op, w') && TasksAfter(s.w, e.op, Completes(Waited(s, e), e.op), w')
      && w'.now == s.w.now + e.elapsed
  {
    var s1 := Waited(s, e);
    StepIs(s, e);
    AppliedIs(s1, e);
    ReconcileWorld(Applied(s1, e.op));
    AppliedWorld(s1, e.op);
    AgentsOf(s1, e.op);
    KernelOf(s1, e.op);
    TasksOf(s1, e.op);
    SameAfter(s.w, s1.w, e.op, Completes(s1, e.op), Step(s, e).0.w);
  }

  lemma SameAfter(w: World, w1: World, op: Op, done: Option<TaskId>, w': World)
    requires w1 == w.(now := w1.now) && ((op.GrantCapability? || op.RevokeCapability?) ==> op.a < |w.agents|)
    requires AgentsAfter(w1, op, w') && KernelAfter(w1, op, w') && TasksAfter(w1, op, done, w')
    ensures AgentsAfter(w, op, w') && KernelAfter(w, op, w') && TasksAfter(w, op, done, w')
  {
  }


  // ---- what an offer does ----

  /** Nothing is offered to a task that is claimed, has no requirements on file or was
      dispatched at this version, nor when no agent fits and has room, nor when version,
      frontier or process have changed in between, nor without room in the agent's pool. */
  ghost predicate Blocked(s: State, version: int, t: TaskId, e: Env, answer: Answer)
  {
    || (exists i: nat :: i < |s.claims| && s.claims[i].status == Active && s.claims[i].task == t)
    || t !in s.w.reqs || (t, version) in s.idem || Choice(s, t) == None
    || s.w.version + e.bump != version || t !in (if e.frontier.Some? then e.frontier.value else s.w.frontier)
    || !ProcessUp(s.w, s.w.agents[Choice(s, t).value].pid) || s.w.agents[Choice(s, t).value].pid in e.dead || answer == NoRoom
  }

  /** A granted claim is ACTIVE with a new lease of 300 seconds on its task for its agent's
      process; one whose lease could not be taken back stays ACQUIRING with it, and the pass
      ends with an exception; every other is REJECTED without a lease. */
  ghost predicate Offered(s: State, version: int, t: TaskId, e: Env, answer: Answer, s': State, raised: bool)
  {
    var n, id := |s.claims|, s.counter + 1;
    && |s'.claims| == n + 1 && s'.claims[..n] == s.claims
    && s'.claims[n].task == t && s'.claims[n].version == version && s'.claims[n].agent < |s.w.agents|
    && s'.claims[n].pid == s.w.agents[s'.claims[n].agent].pid
    && s'.claims[n].lease == (if answer in {Grants, Unconfirmed} then Some(id) else None)
    && s'.claims[n].status == (if answer == Grants then Active else if answer == Unconfirmed then Acquiring else Rejected)
    && s'.leases == (if answer !in {Grants, Unconfirmed} then s.leases
                     else s.leases[id := Lease(t, s'.claims[n].pid, s.w.now + e.elapsed + 300)])
    && s'.counter == (if answer in {Grants, Unconfirmed, TakenBack} then id else s.counter)
    && s'.idem == s.idem + (if answer == Grants then {(t, version)} else {})
    && (raised <==> answer in {Unconfirmed, Fails})
  }

  lemma ClaimedExact(claims: seq<Claim>, t: TaskId)
    ensures Claimed(claims, t) <==> exists i: nat :: i < |claims| && claims[i].status == Active && claims[i].task == t
  {
  }

  lemma BlockedNothing(s: State, version: int, t: TaskId, e: Env, answer: Answer)
    requires Blocked(s, version, t, e, answer)
    ensures var (s', raised) := Offer(s, version, t, e, answer);
      s'.claims == s.claims && s'.leases == s.leases && s'.counter == s.counter && s'.idem == s.idem && !raised
  {
    ClaimedExact(s.claims, t);
  }

  lemma OpenOffered(s: State, version: int, t: TaskId, e: Env, answer: Answer)
    requires !Blocked(s, version, t, e, answer) && s.counter + 1 !in s.leases
    ensures var (s', raised) := Offer(s, version, t, e, answer); Offered(s, version, t, e, answer, s', raised)
  {
    ClaimedExact(s.claims, t);
    var a := Choice(s, t).value;
    assert StillValid(Interfere(s.w, e), t, version, a);
    AcquireIs(s.(w := Interfere(s.w, e)), t, version, a, answer);
  }

  /** An offer that is not blocked makes exactly one claim, as it is answered. */
  lemma OfferExactly(s: State, version: int, t: TaskId, e: Env, answer: Answer)
    requires Core(s)
    ensures var (s', raised) := Offer(s, version, t, e, answer);
      if Blocked(s, version, t, e, answer)
      then s'.claims == s.claims && s'.leases == s.leases && s'.counter == s.counter && s'.idem == s.idem && !raised
      else Offered(s, version, t, e, answer, s', raised)
  {
    NextIsNew(s);
    if Blocked(s, version, t, e, answer) {
      BlockedNothing(s, version, t, e, answer);
    } else {
      OpenOffered(s, version, t, e, answer);
    }
  }

  // ---- once per version ----

  function KeyOf(c: Claim): (TaskId, int)
  {
    (c.task, c.version)
  }

  /** The claims from k on are for keys that were not dispatched before, and what has been
      dispatched since is theirs. */
  ghost predicate NewKeys(idem: set<(TaskId, int)>, s: State, k: nat)
  {
    && k <= |s.claims| && idem <= s.idem
    && (forall i: nat | k <= i < |s.claims| :: KeyOf(s.claims[i]) !in idem)
    && (forall x | x in s.idem && x !in idem :: Dispatched(s.claims, k, x))
  }

  ghost predicate Dispatched(claims: seq<Claim>, k: nat, x: (TaskId, int))
  {
    exists i: nat :: k <= i < |claims| && KeyOf(claims[i]) == x && claims[i].lease.Some?
  }

  lemma DispatchedGrows(claims: seq<Claim>, claims': seq<Claim>, k: nat, x: (TaskId, int))
    requires Dispatched(claims, k, x) && |claims| <= |claims'|
    requires forall i: nat | i < |claims| :: SameClaim(claims[i], claims'[i])
    ensures Dispatched(claims', k, x)
  {
    var i: nat :| k <= i < |claims| && KeyOf(claims[i]) == x && claims[i].lease.Some?;
    assert KeyOf(claims'[i]) == x && claims'[i].lease.Some?;
  }

  lemma OfferIdem(s: State, version: int, t: TaskId, e: Env, answer: Answer, s': State)
    requires s' == Offer(s, version, t, e, answer).0
    ensures s.claims <= s'.claims && |s'.claims| <= |s.claims| + 1 && s.idem <= s'.idem <= s.idem + {(t, version)}
    ensures |s'.claims| > |s.claims| ==> KeyOf(s'.claims[|s.claims|]) == (t, version) && (t, version) !in s.idem
    ensures s'.idem != s.idem ==> |s'.claims| > |s.claims| && s'.claims[|s.claims|].lease.Some?
  {
  }

  lemma OfferNewKeys(idem: set<(TaskId, int)>, s: State, version: int, t: TaskId, m: Moment, k: nat, s': State)
    requires NewKeys(idem, s, k) && s' == Offer(s, version, t, m.env, m.answer).0
    ensures NewKeys(idem, s', k)
  {
    OfferIdem(s, version, t, m.env, m.answer, s');
    forall x | x in s'.idem && x !in idem ensures Dispatched(s'.claims, k, x) {
      if x in s.idem {
        DispatchedGrows(s.claims, s'.claims, k, x);
      } else {
        assert KeyOf(s'.claims[|s.claims|]) == x;
      }
    }
  }

  lemma {:induction false} OffersNewKeys(idem: set<(TaskId, int)>, s: State, version: int, cands: seq<TaskId>, ms: seq<Moment>,
                                         n: nat, k: nat)
    requires n <= |cands| && NewKeys(idem, s, k)
    ensures NewKeys(idem, Offers(s, version, cands, ms, n).0, k)
  {
    if n > 0 {
      OffersNewKeys(idem, s, version, cands, ms, n - 1, k);
      var (r, raised) := Offers(s, version, cands, ms, n - 1);
      if !raised {
        OfferNewKeys(idem, r, version, cands[n - 1], At(ms, n - 1), k, Offers(s, version, cands, ms, n).0);
      }
    }
  }

  lemma ScheduleNewKeys(idem: set<(TaskId, int)>, s: State, ms: seq<Moment>, k: nat)
    requires NewKeys(idem, s, k)
    ensures NewKeys(idem, Schedule(s, ms).0, k)
  {
    OffersNewKeys(idem, s, s.w.version, s.w.frontier, ms, |s.w.frontier|, k);
  }

  lemma AppliedIdem(s: State, op: Op)
    requires !Schedules(s, op)
    ensures Applied(s, op).idem == s.idem && |Applied(s, op).claims| == |s.claims|
  {
  }

  lemma ApplyNewKeys(s: State, e: Event, s2: State)
    requires s2 == Apply(s, e).0
    ensures NewKeys(s.idem, s2, |s.claims|)
  {
    if Schedules(s, e.op) {
      ScheduleNewKeys(s.idem, s, e.first, |s.claims|);
      if Available(s, e.op) {
        ScheduleNewKeys(s.idem, Schedule(s, e.first).0, e.second, |s.claims|);
      }
    } else {
      AppliedIs(s, e);
      AppliedIdem(s, e.op);
    }
  }

  lemma ReconcileNewKeys(idem: set<(TaskId, int)>, s: State, k: nat)
    requires Core(s) && NewKeys(idem, s, k)
    ensures NewKeys(idem, Reconcile(s), k)
  {
    ReconcileSettles(s);
    var s' := Reconcile(s);
    forall i: nat | i < |s.claims| ensures SameClaim(s.claims[i], s'.claims[i]) {
      ReconcileVerdicts(s, i);
    }
    forall x | x in s'.idem && x !in idem ensures Dispatched(s'.claims, k, x) {
      DispatchedGrows(s.claims, s'.claims, k, x);
    }
  }

  lemma StepNewKeys(s: State, e: Event, s2: State)
    requires Core(s) && Reconciled(s) && s2 == Apply(Waited(s, e), e).0
    ensures NewKeys(s.idem, Reconcile(s2), |s.claims|)
  {
    WorldChange(s, Waited(s, e).w);
    ApplyKeeps(Waited(s, e), e);
    ApplyNewKeys(Waited(s, e), e, s2);
    ReconcileNewKeys(s.idem, s2, |s.claims|);
  }

  /** Over every run, an operation makes no claim for a task at a version at which the task
      was dispatched before; and it counts as dispatched only what got a lease. */
  lemma DispatchedOnce(es: seq<Event>, e: Event)
    ensures NewKeys(Run(es).idem, Step(Run(es), e).0, |Run(es).claims|)
  {
    RunKeeps(es);
    StepIs(Run(es), e);
    StepNewKeys(Run(es), e, Apply(Waited(Run(es), e), e).0);
  }


  // ---- the order of a pass ----

  /** The claims from k on are for candidates at the places at, in this order. */
  ghost predicate Placed(claims: seq<Claim>, k: nat, cands: seq<TaskId>, n: nat, at: seq<nat>)
  {
    && k + |at| == |claims| && n <= |cands|
    && (forall j | 0 <= j < |at| :: at[j] < n && claims[k + j].task == cands[at[j]])
    && (forall i, j | 0 <= i < j < |at| :: at[i] < at[j])
  }

  /** Nothing, or one claim on t, was added. */
  ghost predicate Adds(claims: seq<Claim>, claims': seq<Claim>, t: TaskId)
  {
    claims <= claims' && (|claims'| == |claims| || (|claims'| == |claims| + 1 && claims'[|claims|].task == t))
  }

  lemma OfferAdds(s: State, version: int, t: TaskId, m: Moment)
    ensures Adds(s.claims, Offer(s, version, t, m.env, m.answer).0.claims, t)
  {
  }

  lemma PlacedNext(claims: seq<Claim>, claims': seq<Claim>, k: nat, cands: seq<TaskId>, n: nat, at: seq<nat>) returns (at': seq<nat>)
    requires 0 < n <= |cands| && Placed(claims, k, cands, n - 1, at) && Adds(claims, claims', cands[n - 1])
    ensures Placed(claims', k, cands, n, at')
  {
    if |claims'| == |claims| {
      assert claims' == claims;
      at' := at;
    } else {
      at' := at + [n - 1];
      forall j | 0 <= j < |at'| ensures at'[j] < n && claims'[k + j].task == cands[at'[j]] {
        assert j < |at| ==> claims'[k + j] == claims[k + j];
      }
    }
  }

  lemma {:induction false} OffersInOrder(s: State, version: int, cands: seq<TaskId>, ms: seq<Moment>, n: nat) returns (at: seq<nat>)
    requires n <= |cands|
    ensures Placed(Offers(s, version, cands, ms, n).0.claims, |s.claims|, cands, n, at)
  {
    at := [];
    if n > 0 {
      at := OffersInOrder(s, version, cands, ms, n - 1);
      var (r, raised) := Offers(s, version, cands, ms, n - 1);
      if !raised {
        OfferAdds(r, version, cands[n - 1], At(ms, n - 1));
      }
      at := PlacedNext(r.claims, Offers(s, version, cands, ms, n).0.claims, |s.claims|, cands, n, at);
    }
  }

  /** A pass makes at most one claim per candidate, in the order of the frontier, whatever
      happens while it lasts. */
  lemma ServedInOrder(s: State, ms: seq<Moment>) returns (at: seq<nat>)
    ensures Placed(Schedule(s, ms).0.claims, |s.claims|, s.w.frontier, |s.w.frontier|, at)
  {
    at := OffersInOrder(s, s.w.version, s.w.frontier, ms, |s.w.frontier|);
  }

  /** The duplicate request is a second request. */
  lemma TwiceIsAgain(s: State, e: Event)
    requires e.op == ScheduleTwice && !Apply(s, e.(op := ScheduleOnce)).1
    ensures Apply(s, e) == Apply(Apply(s, e.(op := ScheduleOnce)).0, e.(op := ScheduleOnce, first := e.second))
  {
  }
}

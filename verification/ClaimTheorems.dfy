/** What holds after every operation of every run of the claim protocol. */
module ClaimTheorems {
  import opened Collections
  import opened Matching
  import opened Claims
  import opened ClaimInvariant
  import opened ClaimRuns

  // ---- safety ----

  ghost predicate OneActivePerTask(s: State)
  {
    forall i: nat, j: nat | i < j < |s.claims| && s.claims[i].status == Active && s.claims[j].status == Active ::
      s.claims[i].task != s.claims[j].task
  }

  ghost function ActiveLeases(s: State): set<LeaseId>
  {
    set i: nat | i < |s.claims| && s.claims[i].status == Active && s.claims[i].lease.Some? :: s.claims[i].lease.value
  }

  ghost predicate ProcessUp(w: World, pid: Pid)
  {
    pid in w.kernel.procs && w.kernel.procs[pid] in {Created, Ready, Running, Blocked}
  }

  ghost predicate TaskOpen(w: World, t: TaskId)
  {
    t in w.validity ==> w.validity[t] == Unverified
  }

  ghost predicate LeaseLive(s: State, c: Claim)
  {
    c.lease.Some? && c.lease.value in s.leases && s.w.now <= s.leases[c.lease.value].expires
  }

  /** A live lease of its own on its task, a living process, and a task that is neither
      verified nor stale. */
  ghost predicate Live(s: State, c: Claim)
  {
    && LeaseLive(s, c) && s.leases[c.lease.value].task == c.task && s.leases[c.lease.value].owner == c.pid
    && ProcessUp(s.w, c.pid) && TaskOpen(s.w, c.task)
  }

  lemma LiveIsExecutable(s: State, c: Claim)
    ensures Executable(s.w, s.leases, c) <==> c.status == Active && Live(s, c)
  {
  }

  lemma ActiveIsHeld(s: State, i: nat)
    requires Core(s) && Reconciled(s) && i < |s.claims|
    ensures s.claims[i].status == Active <==> Holds(s.leases, s.claims[i])
  {
  }

  lemma SafeState(s: State)
    requires Core(s) && Reconciled(s)
    ensures OneActivePerTask(s)
    ensures forall i: nat | i < |s.claims| && s.claims[i].status == Active :: Live(s, s.claims[i])
    ensures forall a: nat | a < |s.w.agents| :: |ActiveBy(s.claims, a)| <= s.w.agents[a].maxConcurrency
    ensures s.leases.Keys == ActiveLeases(s)
  {
    forall i: nat | i < |s.claims| ensures s.claims[i].status == Active <==> Holds(s.leases, s.claims[i]) {
      ActiveIsHeld(s, i);
    }
    forall i: nat | i < |s.claims| && s.claims[i].status == Active ensures Live(s, s.claims[i]) {
      LiveIsExecutable(s, s.claims[i]);
    }
    forall a: nat | a < |s.w.agents| ensures |ActiveBy(s.claims, a)| <= s.w.agents[a].maxConcurrency {
      assert ActiveBy(s.claims, a) == HeldBy(s.leases, s.claims, a);
    }
    LeasesAreActive(s);
  }

  lemma LeasesAreActive(s: State)
    requires Core(s) && Reconciled(s)
    ensures s.leases.Keys == ActiveLeases(s)
  {
    forall l | l in s.leases ensures l in ActiveLeases(s) {
      assert Owned(s.claims, l);
      var i: nat :| i < |s.claims| && s.claims[i].lease == Some(l);
      Matches(s, i);
    }
  }

  /** After every operation of every run: a task has at most one ACTIVE claim; an ACTIVE
      claim holds a live lease of its own on its task, its process is alive and its task
      is neither verified nor stale; no agent exceeds its max_concurrency; and the stored
      leases are exactly those of the ACTIVE claims. */
  lemma RunSafe(es: seq<Event>)
    ensures var s := Run(es);
      && OneActivePerTask(s)
      && (forall i: nat | i < |s.claims| && s.claims[i].status == Active :: Live(s, s.claims[i]))
      && (forall a: nat | a < |s.w.agents| :: |ActiveBy(s.claims, a)| <= s.w.agents[a].maxConcurrency)
      && s.leases.Keys == ActiveLeases(s)
      && DistinctLeases(s.claims)
  {
    RunKeeps(es);
    SafeState(Run(es));
  }

  /** What reconcile makes of each claim: COMPLETED only for a leased ACTIVE claim whose
      task is verified, even if its process or lease is gone; ACTIVE only if it was and is
      live; every other open claim is LOST. */
  lemma ReconcileVerdicts(s: State, i: nat)
    requires Core(s) && i < |s.claims|
    ensures |Reconcile(s).claims| == |s.claims| && SameClaim(s.claims[i], Reconcile(s).claims[i])
    ensures var c, st := s.claims[i], Reconcile(s).claims[i].status;
      && (!Open(c.status) ==> st == c.status)
      && (Open(c.status) ==>
            && (st == Completed <==>
                  c.status == Active && c.lease.Some? && c.task in s.w.validity && s.w.validity[c.task] == Verified)
            && (st == Active <==> c.status == Active && Live(s, c))
            && (st == Lost <==> st != Completed && st != Active))
  {
    ReconcileSettles(s);
    Matches(s, i);
    LiveIsExecutable(s, s.claims[i]);
  }

  // ---- history ----

  /** The same claim later on. */
  predicate SameClaim(c: Claim, d: Claim)
  {
    d == c.(status := d.status)
  }

  lemma OfferExtends(s: State, version: int, t: TaskId, e: Env, answer: Answer)
    ensures s.claims <= Offer(s, version, t, e, answer).0.claims
  {
  }

  lemma {:induction false} OffersExtend(s: State, version: int, cands: seq<TaskId>, ms: seq<Moment>, n: nat)
    requires n <= |cands|
    ensures s.claims <= Offers(s, version, cands, ms, n).0.claims
  {
    if n > 0 {
      OffersExtend(s, version, cands, ms, n - 1);
      OfferExtends(Offers(s, version, cands, ms, n - 1).0, version, cands[n - 1], At(ms, n - 1).env, At(ms, n - 1).answer);
    }
  }

  lemma CloseHistory(p: Pass, s: State)
    requires Core(s) && !Close(p, s).1
    ensures var s' := Close(p, s).0;
      && |s'.claims| == |s.claims|
      && forall i: nat | i < |s.claims| ::
           SameClaim(s.claims[i], s'.claims[i]) && (!Open(s.claims[i].status) ==> s'.claims[i] == s.claims[i])
  {
    CloseIs(p, s);
  }

  /** Same claims, and closed ones untouched. */
  ghost predicate KeepsClosed(s: State, s': State)
  {
    && |s.claims| <= |s'.claims|
    && forall i: nat | i < |s.claims| ::
         SameClaim(s.claims[i], s'.claims[i]) && (!Open(s.claims[i].status) ==> s'.claims[i] == s.claims[i])
  }

  lemma KeepsClosedTrans(s: State, t: State, u: State)
    requires KeepsClosed(s, t) && KeepsClosed(t, u)
    ensures KeepsClosed(s, u)
  {
  }

  lemma ReconcileHistory(s: State)
    requires Core(s)
    ensures KeepsClosed(s, Reconcile(s))
  {
    ReconcileSettles(s);
    CloseHistory(Reconciling, s);
  }

  lemma ScheduleHistory(s: State, ms: seq<Moment>)
    ensures KeepsClosed(s, Schedule(s, ms).0)
  {
    OffersExtend(s, s.w.version, s.w.frontier, ms, |s.w.frontier|);
  }

  lemma ApplyHistory(s: State, e: Event)
    requires Core(s) && Backed(s) && !(Available(s, e.op) && e.op.ProjectionCorrupt?)
    ensures KeepsClosed(s, Apply(s, e).0)
  {
    if !Available(s, e.op) {
      ScheduleHistory(s, e.first);
    } else if e.op.ScheduleTwice? {
      ScheduleHistory(s, e.first);
      ScheduleHistory(Schedule(s, e.first).0, e.second);
    } else if e.op.CompleteAttempt? {
      var t := s.claims[e.op.i].task;
      CompleteKeeps(s, t, e.op.evidence);
      WorldChange(s, WithVerified(s, t).w);
      CloseHistory(Observing(e.op.evidence), WithVerified(s, t));
    } else if e.op.SchedulerRestart? {
      CloseKeeps(Restarting, s);
      CloseHistory(Restarting, s);
      ReconcileHistory(Close(Restarting, s).0);
    } else if e.op.ReconcileOnly? {
      ReconcileHistory(s);
    }
  }

  lemma SameClaimsHistory(s: State, s1: State, t: State)
    requires s1.claims == s.claims && KeepsClosed(s1, t)
    ensures KeepsClosed(s, t)
  {
  }

  lemma ThenReconcile(s: State, s1: State, t: State)
    requires s1.claims == s.claims && Core(t) && KeepsClosed(s1, t)
    ensures KeepsClosed(s, Reconcile(t))
  {
    ReconcileHistory(t);
    SameClaimsHistory(s, s1, t);
    KeepsClosedTrans(s, t, Reconcile(t));
  }

  /** Outside projection corruption a terminal claim never changes again. */
  lemma StepHistory(s: State, e: Event)
    requires Core(s) && Reconciled(s)
    requires !(Available(s.(w := s.w.(now := s.w.now + e.elapsed)), e.op) && e.op.ProjectionCorrupt?)
    ensures KeepsClosed(s, Step(s, e).0)
  {
    var s1 := s.(w := s.w.(now := s.w.now + e.elapsed));
    WorldChange(s, s1.w);
    ApplyHistory(s1, e);
    ApplyKeeps(s1, e);
    ThenReconcile(s, s1, Apply(s1, e).0);
  }

  lemma CorruptedFate(s: State, i: nat)
    requires Core(s) && i < |s.claims| && !Open(s.claims[i].status)
    ensures Fate(Reconciling, s.w, s.leases, i, Corrupted(s, i).claims[i]) != Active
  {
    Matches(s, i);
  }

  /** Even a terminal claim that corruption marks ACTIVE is closed again before the step
      ends: it cannot have got its lease back. */
  lemma CorruptionUndone(s: State, i: nat)
    requires Core(s) && i < |s.claims|
    ensures var s' := Reconcile(Corrupted(s, i));
      && |s'.claims| == |s.claims|
      && forall j: nat | j < |s.claims| ::
           SameClaim(s.claims[j], s'.claims[j]) && (!Open(s.claims[j].status) ==> !Open(s'.claims[j].status))
  {
    CorruptKeeps(s, i);
    ReconcileSettles(Corrupted(s, i));
    FatesClose(Reconciling, Corrupted(s, i));
    forall j: nat | j < |s.claims| && !Open(s.claims[j].status)
      ensures !Open(Fates(Reconciling, Corrupted(s, i))[j])
    {
      if j == i {
        CorruptedFate(s, i);
      }
    }
  }

  /** The j-th claim is still c, and closed. */
  predicate ClosedAs(s: State, j: nat, c: Claim)
  {
    j < |s.claims| && SameClaim(c, s.claims[j]) && !Open(s.claims[j].status)
  }

  lemma CorruptStep(s: State, i: nat, j: nat, c: Claim)
    requires Core(s) && i < |s.claims| && ClosedAs(s, j, c)
    ensures ClosedAs(Reconcile(Reconcile(Corrupted(s, i))), j, c)
  {
    CorruptionUndone(s, i);
    CorruptKeeps(s, i);
    ReconcileSettles(Corrupted(s, i));
    ReconcileTwice(Reconcile(Corrupted(s, i)));
  }

  /** No terminal claim is ever open again, after any operation whatever. */
  lemma TerminalForever(s: State, e: Event, j: nat, c: Claim)
    requires Core(s) && Reconciled(s) && ClosedAs(s, j, c)
    ensures ClosedAs(Step(s, e).0, j, c)
  {
    var s1 := s.(w := s.w.(now := s.w.now + e.elapsed));
    if Available(s1, e.op) && e.op.ProjectionCorrupt? {
      WorldChange(s, s1.w);
      CorruptStep(s1, e.op.i, j, c);
    } else {
      StepHistory(s, e);
    }
  }

  lemma TerminalNext(es: seq<Event>, j: nat, c: Claim)
    requires es != [] && ClosedAs(Run(es[..|es| - 1]), j, c)
    ensures ClosedAs(Run(es), j, c)
  {
    RunKeeps(es[..|es| - 1]);
    TerminalForever(Run(es[..|es| - 1]), es[|es| - 1], j, c);
  }

  /** A claim that was terminal after some prefix of a run is terminal after the whole. */
  lemma {:induction false} TerminalInRuns(es: seq<Event>, k: nat, j: nat, c: Claim)
    requires k <= |es| && ClosedAs(Run(es[..k]), j, c)
    ensures ClosedAs(Run(es), j, c)
    decreases |es|
  {
    if k == |es| {
      assert es[..k] == es;
    } else {
      assert es[..|es| - 1][..k] == es[..k];
      TerminalInRuns(es[..|es| - 1], k, j, c);
      TerminalNext(es, j, c);
    }
  }

  // ---- exceptions ----

  /** The lease provider neither fails nor leaves a release unconfirmed. */
  predicate AllConfirmed(ms: seq<Moment>)
  {
    forall m | m in ms :: m.answer != Unconfirmed && m.answer != Fails
  }

  lemma {:induction false} OffersConfirmed(s: State, version: int, cands: seq<TaskId>, ms: seq<Moment>, n: nat)
    requires n <= |cands| && AllConfirmed(ms)
    ensures !Offers(s, version, cands, ms, n).1
  {
    if n > 0 {
      OffersConfirmed(s, version, cands, ms, n - 1);
      assert At(ms, n - 1).answer != Unconfirmed && At(ms, n - 1).answer != Fails;
    }
  }

  lemma TwiceConfirmed(s: State, e: Event)
    requires e.op.ScheduleTwice? && AllConfirmed(e.first) && AllConfirmed(e.second)
    ensures !Apply(s, e).1
  {
    OffersConfirmed(s, s.w.version, s.w.frontier, e.first, |s.w.frontier|);
    var s1 := Schedule(s, e.first).0;
    OffersConfirmed(s1, s1.w.version, s1.w.frontier, e.second, |s1.w.frontier|);
  }

  lemma ApplyNeverRaises(s: State, e: Event)
    requires Core(s) && Backed(s) && AllConfirmed(e.first) && AllConfirmed(e.second)
    ensures !Apply(s, e).1
  {
    if !Available(s, e.op) {
      OffersConfirmed(s, s.w.version, s.w.frontier, e.first, |s.w.frontier|);
    } else if ClosesClaims(e.op) {
      ClosingKeeps(s, e);
    } else if e.op.ScheduleTwice? {
      TwiceConfirmed(s, e);
    }
  }

  lemma StepNeverRaises(s: State, e: Event)
    requires Core(s) && Reconciled(s) && AllConfirmed(e.first) && AllConfirmed(e.second)
    ensures !Step(s, e).1
  {
    var s1 := s.(w := s.w.(now := s.w.now + e.elapsed));
    WorldChange(s, s1.w);
    ApplyNeverRaises(s1, e);
  }

  /** No operation of a run raises, unless the lease provider fails, or hands out a lease
      with an unusable token and then refuses to take it back. */
  lemma NeverRaises(es: seq<Event>, e: Event)
    requires AllConfirmed(e.first) && AllConfirmed(e.second)
    ensures !Step(Run(es), e).1
  {
    RunKeeps(es);
    StepNeverRaises(Run(es), e);
  }

  // ---- versions ----

  predicate AllQuiet(ms: seq<Moment>)
  {
    forall m | m in ms :: m.env == QUIET
  }

  lemma QuietWorld(w: World)
    ensures Interfere(w, QUIET) == w
  {
    assert Interfere(w, QUIET).kernel.procs == w.kernel.procs;
  }

  /** Whatever happens between matching and acquiring, a claim is only ever made at the
      version current at that instant, on a ready task and for a live process. */
  lemma AcquireIsCurrent(s: State, version: int, t: TaskId, e: Env, answer: Answer)
    requires |Offer(s, version, t, e, answer).0.claims| > |s.claims|
    ensures var s' := Offer(s, version, t, e, answer).0; var c := s'.claims[|s.claims|];
      && |s'.claims| == |s.claims| + 1 && c.task == t
      && c.version == s'.w.version == version && t in s'.w.frontier && Alive(s'.w.kernel, c.pid)
  {
  }

  /** Claims from position k on carry versions between lo and hi. */
  predicate VersionsWithin(claims: seq<Claim>, k: nat, lo: int, hi: int)
  {
    k <= |claims| && lo <= hi && forall i: nat | k <= i < |claims| :: lo <= claims[i].version <= hi
  }

  lemma OfferWithin(s: State, version: int, k: nat, lo: int, t: TaskId, e: Env, answer: Answer)
    requires VersionsWithin(s.claims, k, lo, s.w.version)
    ensures var s' := Offer(s, version, t, e, answer).0;
      s.w.version <= s'.w.version && VersionsWithin(s'.claims, k, lo, s'.w.version) && (e == QUIET ==> s'.w == s.w)
  {
    QuietWorld(s.w);
    OfferExtends(s, version, t, e, answer);
    if |Offer(s, version, t, e, answer).0.claims| > |s.claims| {
      AcquireIsCurrent(s, version, t, e, answer);
    }
  }

  lemma {:induction false} OffersWithin(s: State, version: int, k: nat, lo: int, cands: seq<TaskId>, ms: seq<Moment>, n: nat)
    requires n <= |cands| && VersionsWithin(s.claims, k, lo, s.w.version)
    ensures var s' := Offers(s, version, cands, ms, n).0;
      && s.w.version <= s'.w.version && VersionsWithin(s'.claims, k, lo, s'.w.version)
      && (AllQuiet(ms) ==> s'.w == s.w)
  {
    if n > 0 {
      OffersWithin(s, version, k, lo, cands, ms, n - 1);
      var (r, raised) := Offers(s, version, cands, ms, n - 1);
      if !raised {
        OfferWithin(r, version, k, lo, cands[n - 1], At(ms, n - 1).env, At(ms, n - 1).answer);
      }
    }
  }

  lemma ScheduleWithin(s: State, k: nat, lo: int, ms: seq<Moment>)
    requires VersionsWithin(s.claims, k, lo, s.w.version)
    ensures var s' := Schedule(s, ms).0;
      && s.w.version <= s'.w.version && VersionsWithin(s'.claims, k, lo, s'.w.version)
      && (AllQuiet(ms) ==> s'.w == s.w)
  {
    OffersWithin(s, s.w.version, k, lo, s.w.frontier, ms, |s.w.frontier|);
  }

  predicate Schedules(s: State, op: Op)
  {
    !Available(s, op) || op.ScheduleTwice?
  }

  lemma OnlySchedulingClaims(s: State, e: Event)
    requires !Schedules(s, e.op)
    ensures |Apply(s, e).0.claims| == |s.claims| && s.w.version <= Apply(s, e).0.w.version
  {
  }

  lemma ApplyWithin(s: State, e: Event)
    ensures var s' := Apply(s, e).0; VersionsWithin(s'.claims, |s.claims|, s.w.version, s'.w.version)
    ensures Schedules(s, e.op) && AllQuiet(e.first) && AllQuiet(e.second) ==> Apply(s, e).0.w == s.w
  {
    if !Schedules(s, e.op) {
      OnlySchedulingClaims(s, e);
    } else {
      ScheduleWithin(s, |s.claims|, s.w.version, e.first);
      if Available(s, e.op) {
        ScheduleWithin(Schedule(s, e.first).0, |s.claims|, s.w.version, e.second);
      }
    }
  }

  lemma ReconcileWithin(s: State, k: nat, lo: int, hi: int)
    requires Core(s) && VersionsWithin(s.claims, k, lo, hi)
    ensures VersionsWithin(Reconcile(s).claims, k, lo, hi) && |Reconcile(s).claims| == |s.claims| && Reconcile(s).w == s.w
  {
    ReconcileSettles(s);
    forall i: nat | i < |s.claims| ensures SameClaim(s.claims[i], Reconcile(s).claims[i]) {
      ReconcileVerdicts(s, i);
    }
  }

  /** ACTIVE after a step and made before it means ACTIVE before it, projection corruption
      included. */
  lemma NoneReopened(s: State, e: Event, i: nat)
    requires Core(s) && Reconciled(s) && i < |s.claims|
    ensures i < |Step(s, e).0.claims| && Step(s, e).0.claims[i].status == Active ==> s.claims[i].status == Active
  {
    if !Open(s.claims[i].status) {
      TerminalForever(s, e, i, s.claims[i]);
    }
  }

  ghost predicate NewCurrent(s: State, s': State)
  {
    forall i: nat | |s.claims| <= i < |s'.claims| :: s'.claims[i].version == s'.w.version
  }

  lemma AfterApply(s: State, s1: State, e: Event)
    requires s1.claims == s.claims && s1.w.version == s.w.version && Core(Apply(s1, e).0)
    ensures var s' := Reconcile(Apply(s1, e).0);
      && VersionsWithin(s'.claims, |s.claims|, s.w.version, s'.w.version)
      && (AllQuiet(e.first) && AllQuiet(e.second) ==> NewCurrent(s, s'))
  {
    var s2 := Apply(s1, e).0;
    ApplyWithin(s1, e);
    ReconcileWithin(s2, |s.claims|, s.w.version, s2.w.version);
    if !Schedules(s1, e.op) {
      OnlySchedulingClaims(s1, e);
    }
  }

  lemma StepWithin(s: State, e: Event)
    requires Core(s) && Reconciled(s)
    ensures var s' := Step(s, e).0;
      && VersionsWithin(s'.claims, |s.claims|, s.w.version, s'.w.version)
      && (AllQuiet(e.first) && AllQuiet(e.second) ==> NewCurrent(s, s'))
  {
    var s1 := Waited(s, e);
    StepIs(s, e);
    WorldChange(s, s1.w);
    ApplyKeeps(s1, e);
    AfterApply(s, s1, e);
  }

  /** After every operation of every run and the reconciliation that follows it, a claim
      made by the operation carries a version the graph had during the operation: the
      current one if nothing interfered. A claim that is ACTIVE now and was not before is
      such a new one. */
  lemma NewClaimsCurrent(es: seq<Event>, e: Event)
    ensures var s, s' := Run(es), Step(Run(es), e).0;
      && VersionsWithin(s'.claims, |s.claims|, s.w.version, s'.w.version)
      && (AllQuiet(e.first) && AllQuiet(e.second) ==> NewCurrent(s, s'))
      && forall i: nat | i < |s.claims| && s'.claims[i].status == Active :: s.claims[i].status == Active
  {
    RunKeeps(es);
    StepWithin(Run(es), e);
    forall i: nat | i < |Run(es).claims| && Step(Run(es), e).0.claims[i].status == Active
      ensures Run(es).claims[i].status == Active
    {
      NoneReopened(Run(es), e, i);
    }
  }

  // ---- scheduling twice ----

  /** Nothing will come of offering t: it is skipped, or no agent can take it. */
  ghost predicate Settled(s: State, t: TaskId)
  {
    Skipped(s, s.w.version, t) || Choice(s, t) == None
  }

  lemma ActiveByGrows(claims: seq<Claim>, c: Claim, a: AgentId)
    ensures |ActiveBy(claims, a)| <= |ActiveBy(claims + [c], a)|
  {
    SubsetSize(ActiveBy(claims, a), ActiveBy(claims + [c], a));
  }

  lemma SettledStays(s: State, c: Claim, leases: map<LeaseId, Lease>, counter: nat, idem: set<(TaskId, int)>, t: TaskId)
    requires Settled(s, t) && s.idem <= idem
    ensures Settled(s.(claims := s.claims + [c], leases := leases, counter := counter, idem := idem), t)
  {
    var s' := s.(claims := s.claims + [c], leases := leases, counter := counter, idem := idem);
    if Claimed(s.claims, t) {
      var i: nat :| i < |s.claims| && s.claims[i].status == Active && s.claims[i].task == t;
      assert s'.claims[i] == s.claims[i];
    } else if !Skipped(s, s.w.version, t) {
      var n := |s.w.agents|;
      forall a: nat | a < n ensures Loads(s.claims, n)[a] <= Loads(s'.claims, n)[a] {
        ActiveByGrows(s.claims, c, a);
      }
      LoadOnlyBlocks(s.w.kernel, s.w.agents, s.w.reqs[t], Loads(s.claims, n), Loads(s'.claims, n));
    }
  }

  /** A calm offer: nothing, or one granted claim. */
  lemma CalmOffer(s: State, u: TaskId)
    requires u in s.w.frontier
    ensures !Offer(s, s.w.version, u, QUIET, Grants).1
    ensures Settled(s, u) ==> Offer(s, s.w.version, u, QUIET, Grants).0 == s
    ensures !Settled(s, u) ==>
      var s' := Offer(s, s.w.version, u, QUIET, Grants).0;
      && (exists c :: s' == s.(claims := s.claims + [c], leases := s'.leases, counter := s'.counter, idem := s'.idem))
      && s.idem <= s'.idem && (u, s.w.version) in s'.idem
  {
    QuietWorld(s.w);
    if !Settled(s, u) {
      var s' := Offer(s, s.w.version, u, QUIET, Grants).0;
      assert StillValid(s.w, u, s.w.version, Choice(s, u).value);
      var c := s'.claims[|s.claims|];
      assert s' == s.(claims := s.claims + [c], leases := s'.leases, counter := s'.counter, idem := s'.idem);
    }
  }

  lemma CalmKeepsSettled(s: State, u: TaskId, t: TaskId)
    requires u in s.w.frontier && (Settled(s, t) || t == u)
    ensures var s' := Offer(s, s.w.version, u, QUIET, Grants).0; s'.w == s.w && Settled(s', t)
  {
    CalmOffer(s, u);
    if !Settled(s, u) {
      var s' := Offer(s, s.w.version, u, QUIET, Grants).0;
      var c :| s' == s.(claims := s.claims + [c], leases := s'.leases, counter := s'.counter, idem := s'.idem);
      if t != u {
        SettledStays(s, c, s'.leases, s'.counter, s'.idem, t);
      }
    }
  }

  ghost predicate AllSettled(s: State, ts: seq<TaskId>, n: nat)
  {
    n <= |ts| && forall k | 0 <= k < n :: Settled(s, ts[k])
  }

  lemma CalmNext(s: State, s': State, n: nat)
    requires 0 < n <= |s.w.frontier| && AllSettled(s, s.w.frontier, n - 1)
    requires s' == Offer(s, s.w.version, s.w.frontier[n - 1], QUIET, Grants).0
    ensures s'.w == s.w && AllSettled(s', s.w.frontier, n)
  {
    var u := s.w.frontier[n - 1];
    forall k | 0 <= k < n ensures Settled(s', s.w.frontier[k]) {
      CalmKeepsSettled(s, u, s.w.frontier[k]);
    }
    CalmKeepsSettled(s, u, u);
  }

  /** An undisturbed pass leaves nothing to dispatch: every candidate offered is claimed,
      was dispatched at this version before, has no requirements on file, or is beyond
      every agent. */
  lemma {:induction false} CalmPass(s: State, n: nat)
    requires n <= |s.w.frontier|
    ensures !Offers(s, s.w.version, s.w.frontier, [], n).1
    ensures var s' := Offers(s, s.w.version, s.w.frontier, [], n).0; s'.w == s.w && AllSettled(s', s.w.frontier, n)
  {
    if n > 0 {
      CalmPass(s, n - 1);
      var r := Offers(s, s.w.version, s.w.frontier, [], n - 1).0;
      CalmOffer(r, s.w.frontier[n - 1]);
      CalmNext(r, Offers(s, s.w.version, s.w.frontier, [], n).0, n);
    }
  }

  lemma {:induction false} SettledPass(s: State, n: nat)
    requires n <= |s.w.frontier| && forall k | 0 <= k < |s.w.frontier| :: Settled(s, s.w.frontier[k])
    ensures Offers(s, s.w.version, s.w.frontier, [], n) == (s, false)
  {
    if n > 0 {
      SettledPass(s, n - 1);
      CalmOffer(s, s.w.frontier[n - 1]);
    }
  }

  /** Scheduling again right away dispatches nothing and changes nothing. */
  lemma DuplicateSchedule(s: State)
    ensures Schedule(Schedule(s, []).0, []) == (Schedule(s, []).0, false)
  {
    CalmPass(s, |s.w.frontier|);
    assert AllSettled(Schedule(s, []).0, s.w.frontier, |s.w.frontier|);
    SettledPass(Schedule(s, []).0, |s.w.frontier|);
  }
}

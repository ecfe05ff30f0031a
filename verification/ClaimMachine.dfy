/** The scheduler's loops over its mutable claim list, proved against Claims. */
module ClaimMachine {
  import opened Collections
  import opened Matching
  import opened Claims
  import opened ClaimInvariant
  import opened ClaimRuns

  /** active_claim_count_by_agent. */
  method ActiveCounts(claims: seq<Claim>, n: nat) returns (loads: seq<nat>)
    ensures loads == Loads(claims, n)
  {
    loads := seq(n, _ => 0);
    for i := 0 to |claims|
      invariant |loads| == n && forall a | 0 <= a < n :: loads[a] == |ActiveBy(claims[..i], a)|
    {
      ActiveNext(claims, i, n);
      if claims[i].status == Active && claims[i].agent < n {
        loads := loads[claims[i].agent := loads[claims[i].agent] + 1];
      }
    }
    assert claims[..|claims|] == claims;
  }

  lemma ActiveAppend(claims: seq<Claim>, c: Claim, a: AgentId)
    ensures |ActiveBy(claims + [c], a)| == |ActiveBy(claims, a)| + if c.status == Active && c.agent == a then 1 else 0
  {
    assert ActiveBy(claims + [c], a)
        == ActiveBy(claims, a) + if c.status == Active && c.agent == a then {|claims|} else {};
  }

  lemma ActiveNext(claims: seq<Claim>, i: nat, n: nat)
    requires i < |claims|
    ensures forall a: nat | a < n ::
      |ActiveBy(claims[..i + 1], a)| == |ActiveBy(claims[..i], a)| + if claims[i].status == Active && claims[i].agent == a then 1 else 0
  {
    assert claims[..i + 1] == claims[..i] + [claims[i]];
    forall a: nat | a < n
      ensures |ActiveBy(claims[..i] + [claims[i]], a)|
           == |ActiveBy(claims[..i], a)| + if claims[i].status == Active && claims[i].agent == a then 1 else 0
    {
      ActiveAppend(claims[..i], claims[i], a);
    }
  }

  method EligiblePool(k: Kernel, agents: seq<Agent>, r: Requirements, loads: seq<nat>) returns (pool: seq<AgentId>)
    requires |loads| == |agents|
    ensures forall x: AgentId :: x in pool <==> x in EligibleBelow(k, agents, r, loads, |agents|)
  {
    pool := [];
    for i := 0 to |agents|
      invariant forall x: AgentId :: x in pool <==> x in EligibleBelow(k, agents, r, loads, i)
    {
      if Eligible(k, agents[i], r, loads[i]) {
        pool := pool + [i];
      }
    }
  }

  class Scheduler {
    var w: World
    var leases: map<LeaseId, Lease>
    var counter: nat
    var claims: seq<Claim>
    var idem: set<(TaskId, int)>

    ghost function View(): State
      reads this
    {
      State(w, leases, counter, claims, idem)
    }

    constructor (w: World)
      ensures View() == State(w, map[], 0, [], {})
    {
      this.w, leases, counter, claims, idem := w, map[], 0, [], {};
    }

    /** Forget the claim's lease if the lookup finds it, and set the status. */
    method Settle(i: nat, status: Status)
      requires i < |claims|
      modifies `leases, `claims
      ensures claims == old(claims)[i := old(claims)[i].(status := status)]
      ensures leases == if Found(old(leases), old(claims)[i]) then old(leases) - {old(claims)[i].lease.value} else old(leases)
    {
      var c := claims[i];
      if Found(leases, c) {
        leases := leases - {c.lease.value};
      }
      claims := claims[i := c.(status := status)];
    }

    /** One round of reconcile, on a claim that has a lease id unless it is closed. */
    method ReconcileClaim(i: nat)
      requires i < |claims| && (claims[i].status == Active ==> claims[i].lease.Some?)
      modifies `leases, `claims
      ensures Swept(leases, claims, false) == Visit(Reconciling, w, Swept(old(leases), old(claims), false), i)
    {
      var c := claims[i];
      if c.status == Active {
        if IsValidity(w, c.task, Verified) {
          Settle(i, Completed);
        } else if IsValidity(w, c.task, Stale) {
          Settle(i, Lost);
        } else if !Alive(w.kernel, c.pid) {
          Settle(i, Lost);
        } else if !Found(leases, c) || !Unexpired(w, leases[c.lease.value]) {
          Settle(i, Lost);
        }
      } else if c.status == Proposed || c.status == Acquiring {
        Settle(i, Lost);
      }
    }

    /** ACTIVE claims without a lease id are lost before anything else. */
    method LoseUnleased()
      modifies `claims
      ensures |claims| == |old(claims)|
      ensures forall k | 0 <= k < |claims| :: claims[k] == Repaired(old(claims)[k])
    {
      for i := 0 to |claims|
        invariant |claims| == |old(claims)|
        invariant forall k | 0 <= k < |claims| :: claims[k] == if k < i then Repaired(old(claims)[k]) else old(claims)[k]
      {
        if claims[i].status == Active && claims[i].lease == None {
          claims := claims[i := claims[i].(status := Lost)];
        }
      }
    }

    /** do_reconcile. */
    method DoReconcile()
      modifies `leases, `claims
      ensures View() == Reconcile(old(View()))
    {
      ghost var s := View();
      LoseUnleased();
      for i := 0 to |claims|
        invariant Mid(s, i, leases, claims)
      {
        MidStep(s, i, leases, claims);
        ReconcileClaim(i);
      }
      assert claims == Sweep(Reconciling, s.w, s.leases, s.claims, |s.claims|).claims;
    }

    /** finalize_after_restart. */
    method FinalizeAfterRestart() returns (raised: bool)
      modifies `leases, `claims
      ensures (View(), raised) == Close(Restarting, old(View()))
    {
      ghost var s := View();
      raised := false;
      var i := 0;
      while i < |claims| && !raised
        invariant i <= |claims| == |s.claims|
        invariant Swept(leases, claims, raised) == Sweep(Restarting, s.w, s.leases, s.claims, i)
        decreases |claims| - i, !raised
      {
        raised := RestartClaim(i);
        i := i + 1;
      }
      SweepStops(Restarting, s.w, s.leases, s.claims, i, |s.claims|);
    }

    method RestartClaim(i: nat) returns (raised: bool)
      requires i < |claims|
      modifies `leases, `claims
      ensures Swept(leases, claims, raised) == Visit(Restarting, w, Swept(old(leases), old(claims), false), i)
    {
      var c := claims[i];
      raised := false;
      if c.status == Active {
        if c.lease == None {
          claims := claims[i := c.(status := Lost)];
        } else {
          var live := c.lease.value in leases && Unexpired(w, leases[c.lease.value]);
          if !live || !Alive(w.kernel, c.pid) {
            if c.lease.value !in leases {
              raised := true;
            } else {
              leases := leases - {c.lease.value};
              claims := claims[i := c.(status := Lost)];
            }
          }
        }
      }
    }
    /** The loop of observe_vpg; a claim in `evidence` has evidence from its own attempt. */
    method ObserveGraph(evidence: set<nat>) returns (raised: bool)
      modifies `leases, `claims
      ensures (View(), raised) == Close(Observing(evidence), old(View()))
    {
      ghost var s := View();
      raised := false;
      var i := 0;
      while i < |claims| && !raised
        invariant i <= |claims| == |s.claims|
        invariant Swept(leases, claims, raised) == Sweep(Observing(evidence), s.w, s.leases, s.claims, i)
        decreases |claims| - i, !raised
      {
        var c := claims[i];
        if c.status == Active && IsValidity(w, c.task, Verified) && i in evidence {
          raised := GiveUp(i, Completed);
        }
        i := i + 1;
      }
      SweepStops(Observing(evidence), s.w, s.leases, s.claims, i, |s.claims|);
    }

    /** Release the claim's lease, if it has one, and close the claim; raise when the
        provider does not know the lease. */
    method GiveUp(i: nat, status: Status) returns (raised: bool)
      requires i < |claims|
      modifies `leases, `claims
      ensures var c := old(claims)[i];
        && (raised <==> c.lease.Some? && c.lease.value !in old(leases))
        && (raised ==> leases == old(leases) && claims == old(claims))
        && (!raised ==>
              && leases == (if c.lease.Some? then old(leases) - {c.lease.value} else old(leases))
              && claims == old(claims)[i := c.(status := status)])
    {
      var c := claims[i];
      raised := false;
      if c.lease.Some? {
        if c.lease.value !in leases {
          return true;
        }
        leases := leases - {c.lease.value};
      }
      claims := claims[i := c.(status := status)];
    }

    /** _acquire_claim; `answer` is what the lease provider does. */
    method AcquireClaim(t: TaskId, version: int, a: AgentId, answer: Answer) returns (ok: bool, raised: bool)
      modifies `leases, `counter, `claims
      ensures (View(), ok, raised) == Acquire(old(View()), t, version, a, answer)
    {
      ok, raised := false, false;
      if a >= |w.agents| || w.version != version || t !in w.frontier || !Alive(w.kernel, w.agents[a].pid) {
        return;
      }
      if answer == NoRoom {
        return;
      }
      var pid := w.agents[a].pid;
      var c := Claim(t, a, pid, w.version, None, Proposed).(status := Acquiring);
      if answer == Refuses || answer == Fails {
        claims := claims + [c.(status := Rejected)];
        raised := answer == Fails;
        return;
      }
      counter := counter + 1;
      leases := leases[counter := Lease(t, pid, w.now + LEASE_TTL)];
      if answer == TakenBack {
        leases := leases - {counter};
        assert leases == old(leases) - {counter};
        claims := claims + [c.(status := Rejected)];
      } else {
        ok, raised := answer == Grants, answer == Unconfirmed;
        claims := claims + [c.(lease := Some(counter), status := if ok then Active else Acquiring)];
      }
    }

    /** One candidate, decided from the index and the running counts. */
    method Consider(t: TaskId, version: int, busy: set<TaskId>, loads: seq<nat>, m: Moment)
      returns (loads': seq<nat>, raised: bool)
      requires loads == Loads(claims, |w.agents|) && Indexed(busy, idem, version, claims)
      modifies this
      ensures (View(), raised) == Offer(old(View()), version, t, m.env, m.answer)
      ensures |w.agents| == |old(w).agents|
      ensures loads' == Loads(claims, |w.agents|) && Indexed(busy, idem, version, claims)
    {
      loads', raised := loads, false;
      if t in busy || t !in w.reqs || (t, version) in idem {
        return;
      }
      var pool := EligiblePool(w.kernel, w.agents, w.reqs[t], loads);
      var choice := Match(w.kernel, w.agents, w.reqs[t], loads, pool);
      if choice == None {
        return;
      }
      ghost var before := View();
      w := Interfere(w, m.env);
      var ok: bool;
      ok, raised := AcquireClaim(t, version, choice.value, m.answer);
      if ok {
        loads' := loads[choice.value := loads[choice.value] + 1];
        idem := idem + {(t, version)};
      }
      LoadsAfter(before, version, t, m, choice.value);
      IndexedAfter(before, busy, version, t, m, choice.value);
    }

    /** schedule_once: the claim index is built once per pass and the loads are counted
        up as claims are made, yet every candidate is treated as if both were asked of
        the current claims. */
    method ScheduleOnce(ms: seq<Moment>) returns (raised: bool)
      modifies this
      ensures (View(), raised) == Schedule(old(View()), ms)
    {
      ghost var s := View();
      var version, cands := w.version, w.frontier;
      var loads := ActiveCounts(claims, |w.agents|);
      var busy := set c | c in claims && c.status == Active :: c.task;
      raised := false;
      var i := 0;
      while i < |cands| && !raised
        invariant i <= |cands|
        invariant (View(), raised) == Offers(s, version, cands, ms, i)
        invariant loads == Loads(claims, |w.agents|)
        invariant Indexed(busy, idem, version, claims)
        decreases |cands| - i, !raised
      {
        loads, raised := Consider(cands[i], version, busy, loads, At(ms, i));
        i := i + 1;
      }
      if raised {
        OffersStop(s, version, cands, ms, i, |cands|, (View(), raised));
      }
    }

    /** One operation of the random state machine. */
    method Perform(e: Event) returns (raised: bool)
      modifies this
      ensures (View(), raised) == Apply(old(View()), e)
    {
      raised := false;
      if !Available(State(w, leases, counter, claims, idem), e.op) {
        raised := ScheduleOnce(e.first);
        return;
      }
      match e.op
      case ScheduleTwice =>
        raised := ScheduleOnce(e.first);
        if !raised {
          raised := ScheduleOnce(e.second);
        }
      case Release(i) => raised := GiveUp(i, Released);
      case CompleteAttempt(i, evidence) =>
        w := w.(validity := w.validity[claims[i].task := Verified]);
        raised := ObserveGraph(evidence);
      case LeaseExpire(l) => leases := leases[l := leases[l].(expires := LONG_PAST)];
      case SchedulerRestart =>
        raised := FinalizeAfterRestart();
        DoReconcile();
      case ProjectionCorrupt(i) =>
        claims := claims[i := claims[i].(status := Active)];
        DoReconcile();
      case ReconcileOnly => DoReconcile();
      case _ => w := Outside(w, e.op);
    }

    /** One round of run_graph. */
    method Round(e: Event) returns (raised: bool)
      modifies this
      ensures (View(), raised) == Step(old(View()), e)
    {
      w := w.(now := w.now + e.elapsed);
      raised := Perform(e);
      DoReconcile();
    }

    /** run_graph: after every round the state is that of the run so far, and safe. */
    method RunGraph(es: seq<Event>)
      requires View() == START
      modifies this
      ensures View() == Run(es) && Core(View()) && Reconciled(View())
    {
      for i := 0 to |es|
        invariant View() == Run(es[..i])
      {
        assert es[..i + 1][..i] == es[..i];
        var _ := Round(es[i]);
      }
      assert es[..|es|] == es;
      RunKeeps(es);
    }
  }

  /** The index of a pass: it holds exactly what was ACTIVE when the pass began, and any
      claim made since is known by its idempotency key. */
  ghost predicate Indexed(busy: set<TaskId>, idem: set<(TaskId, int)>, version: int, claims: seq<Claim>)
  {
    && (forall t | t in busy :: Claimed(claims, t))
    && (forall t: TaskId | Claimed(claims, t) :: t in busy || (t, version) in idem)
  }

  lemma LoadsAfter(s: State, version: int, t: TaskId, m: Moment, a: AgentId)
    requires a < |s.w.agents|
    ensures var (s', ok, raised) := Acquire(s.(w := Interfere(s.w, m.env)), t, version, a, m.answer);
      var loads, n := Loads(s.claims, |s.w.agents|), |s.w.agents|;
      Loads(s'.claims, n) == if ok then loads[a := loads[a] + 1] else loads
  {
    var (s', ok, raised) := Acquire(s.(w := Interfere(s.w, m.env)), t, version, a, m.answer);
    if |s'.claims| > |s.claims| {
      var c := s'.claims[|s.claims|];
      assert s'.claims == s.claims + [c];
      forall x: nat | x < |s.w.agents|
        ensures |ActiveBy(s'.claims, x)| == |ActiveBy(s.claims, x)| + if c.status == Active && c.agent == x then 1 else 0
      {
        ActiveAppend(s.claims, c, x);
      }
    }
  }

  lemma ClaimedAppend(claims: seq<Claim>, c: Claim, t: TaskId)
    ensures Claimed(claims + [c], t) <==> Claimed(claims, t) || (c.status == Active && c.task == t)
  {
    if Claimed(claims, t) {
      var i: nat :| i < |claims| && claims[i].status == Active && claims[i].task == t;
      assert (claims + [c])[i] == claims[i];
    }
    if c.status == Active && c.task == t {
      assert (claims + [c])[|claims|] == c;
    }
  }

  lemma IndexedAfter(s: State, busy: set<TaskId>, version: int, t: TaskId, m: Moment, a: AgentId)
    requires Indexed(busy, s.idem, version, s.claims)
    ensures var (s', ok, raised) := Acquire(s.(w := Interfere(s.w, m.env)), t, version, a, m.answer);
      Indexed(busy, if ok then s'.idem + {(t, version)} else s'.idem, version, s'.claims)
  {
    var (s', ok, raised) := Acquire(s.(w := Interfere(s.w, m.env)), t, version, a, m.answer);
    if |s'.claims| > |s.claims| {
      var c := s'.claims[|s.claims|];
      assert s'.claims == s.claims + [c];
      forall u: TaskId ensures Claimed(s'.claims, u) <==> Claimed(s.claims, u) || (c.status == Active && c.task == u) {
        ClaimedAppend(s.claims, c, u);
      }
    }
  }

  lemma {:induction false} OffersStop(s: State, version: int, cands: seq<TaskId>, ms: seq<Moment>, i: nat, n: nat, r: (State, bool))
    requires i <= n <= |cands| && r == Offers(s, version, cands, ms, i) && r.1
    ensures Offers(s, version, cands, ms, n) == r
    decreases n
  {
    if i < n {
      OffersStop(s, version, cands, ms, i, n - 1, r);
      RaisedStays(s, version, cands, ms, n);
    }
  }

  lemma RaisedStays(s: State, version: int, cands: seq<TaskId>, ms: seq<Moment>, n: nat)
    requires 0 < n <= |cands| && Offers(s, version, cands, ms, n - 1).1
    ensures Offers(s, version, cands, ms, n) == Offers(s, version, cands, ms, n - 1)
  {
  }

  function Repaired(c: Claim): Claim
  {
    if c.status == Active && c.lease == None then c.(status := Lost) else c
  }

  /** Reconcile midway: i claims done, the others only repaired. */
  ghost predicate Mid(s: State, i: nat, leases: map<LeaseId, Lease>, claims: seq<Claim>)
  {
    && |claims| == |s.claims| && i <= |claims|
    && leases == Sweep(Reconciling, s.w, s.leases, s.claims, i).leases
    && !Sweep(Reconciling, s.w, s.leases, s.claims, i).raised
    && forall k: nat | k < |claims| ::
         claims[k] == if k < i then Sweep(Reconciling, s.w, s.leases, s.claims, i).claims[k] else Repaired(s.claims[k])
  }

  lemma RepairedVisit(w: World, r: Swept, c: Claim, claims: seq<Claim>, i: nat)
    requires i < |r.claims| == |claims| && r.claims[i] == c && claims[i] == Repaired(c) && !r.raised
    ensures var a := Visit(Reconciling, w, r, i); var b := Visit(Reconciling, w, Swept(r.leases, claims, false), i);
      !a.raised && a.leases == b.leases && a.claims[i] == b.claims[i]
  {
  }

  lemma {:induction false} SweepAhead(p: Pass, w: World, leases: map<LeaseId, Lease>, claims: seq<Claim>, n: nat, k: nat)
    requires n <= k < |claims|
    ensures Sweep(p, w, leases, claims, n).claims[k] == claims[k]
  {
    if n > 0 {
      SweepAhead(p, w, leases, claims, n - 1, k);
    }
  }

  lemma MidStep(s: State, i: nat, leases: map<LeaseId, Lease>, claims: seq<Claim>)
    requires Mid(s, i, leases, claims) && i < |claims|
    ensures var b := Visit(Reconciling, s.w, Swept(leases, claims, false), i); Mid(s, i + 1, b.leases, b.claims)
  {
    var r := Sweep(Reconciling, s.w, s.leases, s.claims, i);
    SweepAhead(Reconciling, s.w, s.leases, s.claims, i, i);
    RepairedVisit(s.w, r, s.claims[i], claims, i);
    assert Sweep(Reconciling, s.w, s.leases, s.claims, i + 1) == Visit(Reconciling, s.w, r, i);
  }

  lemma {:induction false} SweepStops(p: Pass, w: World, leases: map<LeaseId, Lease>, claims: seq<Claim>, i: nat, n: nat)
    requires i <= n <= |claims| && (i < n ==> Sweep(p, w, leases, claims, i).raised)
    ensures Sweep(p, w, leases, claims, n) == Sweep(p, w, leases, claims, i)
  {
    if i < n {
      SweepStops(p, w, leases, claims, i, n - 1);
    }
  }
}

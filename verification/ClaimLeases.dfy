/** The lease table of the claim protocol is the table of the lease authority: whatever the
    scheduler does to it is a sequence of the authority's own operations. */
module ClaimLeases {
  import opened Collections
  import opened Claims
  import opened ClaimInvariant
  import opened ClaimRuns
  import L = Leases

  function AsStored(l: Lease): L.Lease
  {
    L.Lease(l.task, l.owner, l.expires)
  }

  function Table(leases: map<LeaseId, Lease>): map<L.LeaseId, L.Lease>
  {
    map l | l in leases :: AsStored(leases[l])
  }

  /** The authority's store holds the scheduler's leases. */
  ghost predicate Backs(st: L.Store, leases: map<LeaseId, Lease>, counter: nat)
  {
    st.leases == Table(leases) && st.counter == counter
  }

  lemma {:induction false} RunConcat(st: L.Store, xs: seq<L.Op>, ys: seq<L.Op>)
    ensures L.Run(st, xs + ys) == L.Run(L.Run(st, xs), ys)
  {
    if ys == [] {
      assert xs + ys == xs;
    } else {
      var init, y := ys[..|ys| - 1], ys[|ys| - 1];
      RunConcat(st, xs, init);
      assert (xs + ys)[..|xs + ys| - 1] == xs + init;
    }
  }

  lemma RunOne(st: L.Store, op: L.Op)
    ensures L.Run(st, [op]) == L.Apply(st, op)
  {
    assert [op][..0] == [];
  }

  // ---- single operations ----

  lemma Granted(st: L.Store, leases: map<LeaseId, Lease>, counter: nat, l: Lease, op: L.Op)
    requires Backs(st, leases, counter) && op.Acquire? && L.Lease(op.resource, op.pid, op.now + op.ttl) == AsStored(l)
    ensures Backs(L.Apply(st, op), leases[counter + 1 := l], counter + 1)
  {
    SameMap(L.Apply(st, op).leases, Table(leases[counter + 1 := l]));
  }

  lemma Dropped(st: L.Store, leases: map<LeaseId, Lease>, counter: nat, id: LeaseId)
    requires Backs(st, leases, counter)
    ensures Backs(L.Apply(st, L.Release(id)), leases - {id}, counter)
  {
    SameMap(L.Apply(st, L.Release(id)).leases, Table(leases - {id}));
  }

  lemma Expired(st: L.Store, leases: map<LeaseId, Lease>, counter: nat, id: LeaseId)
    requires Backs(st, leases, counter) && id in leases
    ensures Backs(L.Apply(st, L.Expire(id)), leases[id := leases[id].(expires := LONG_PAST)], counter)
  {
    SameMap(L.Apply(st, L.Expire(id)).leases, Table(leases[id := leases[id].(expires := LONG_PAST)]));
  }

  /** These operations take the store from one table to the other. */
  ghost predicate Takes(st: L.Store, ops: seq<L.Op>, s: State)
  {
    Backs(L.Run(st, ops), s.leases, s.counter)
  }

  // ---- passes ----

  lemma {:induction false} SweepOps(st: L.Store, p: Pass, s: State, n: nat) returns (ops: seq<L.Op>)
    requires Backs(st, s.leases, s.counter) && n <= |s.claims|
    ensures Backs(L.Run(st, ops), Sweep(p, s.w, s.leases, s.claims, n).leases, s.counter)
  {
    if n == 0 {
      ops := [];
    } else {
      ops := SweepOps(st, p, s, n - 1);
      var r := Sweep(p, s.w, s.leases, s.claims, n - 1);
      var c := r.claims[n - 1];
      if !r.raised && !Raises(p, s.w, r.leases, n - 1, c) && Drops(p, s.w, r.leases, n - 1, c) {
        Dropped(L.Run(st, ops), r.leases, s.counter, c.lease.value);
        RunConcat(st, ops, [L.Release(c.lease.value)]);
        RunOne(L.Run(st, ops), L.Release(c.lease.value));
        ops := ops + [L.Release(c.lease.value)];
      }
    }
  }

  lemma CloseOps(st: L.Store, p: Pass, s: State) returns (ops: seq<L.Op>)
    requires Backs(st, s.leases, s.counter)
    ensures Takes(st, ops, Close(p, s).0)
  {
    ops := SweepOps(st, p, s, |s.claims|);
  }

  lemma AcquireOps(st: L.Store, s: State, t: TaskId, version: int, a: nat, answer: Answer) returns (ops: seq<L.Op>)
    requires Backs(st, s.leases, s.counter)
    ensures Takes(st, ops, Acquire(s, t, version, a, answer).0)
  {
    ops := [];
    if StillValid(s.w, t, version, a) && answer in {Grants, TakenBack, Unconfirmed} {
      var pid, id := s.w.agents[a].pid, s.counter + 1;
      var op, l := L.Acquire(pid, t, s.w.now, LEASE_TTL), Lease(t, pid, s.w.now + LEASE_TTL);
      Granted(st, s.leases, s.counter, l, op);
      RunOne(st, op);
      ops := [op];
      if answer == TakenBack {
        Dropped(L.Run(st, [op]), s.leases[id := l], id, id);
        RunConcat(st, [op], [L.Release(id)]);
        RunOne(L.Run(st, [op]), L.Release(id));
        assert s.leases[id := l] - {id} == s.leases - {id};
        ops := [op] + [L.Release(id)];
      }
    }
  }

  lemma {:induction false} OffersOps(st: L.Store, s: State, version: int, cands: seq<TaskId>, ms: seq<Moment>, n: nat)
    returns (ops: seq<L.Op>)
    requires Backs(st, s.leases, s.counter) && n <= |cands|
    ensures Takes(st, ops, Offers(s, version, cands, ms, n).0)
  {
    if n == 0 {
      ops := [];
    } else {
      ops := OffersOps(st, s, version, cands, ms, n - 1);
      var (r, raised) := Offers(s, version, cands, ms, n - 1);
      if !raised {
        var more := OfferOps(L.Run(st, ops), r, version, cands[n - 1], At(ms, n - 1));
        RunConcat(st, ops, more);
        ops := ops + more;
      }
    }
  }

  lemma OfferOps(st: L.Store, s: State, version: int, t: TaskId, m: Moment) returns (ops: seq<L.Op>)
    requires Backs(st, s.leases, s.counter)
    ensures Takes(st, ops, Offer(s, version, t, m.env, m.answer).0)
  {
    if Skipped(s, version, t) || Choice(s, t) == None {
      ops := [];
    } else {
      ops := AcquireOps(st, s.(w := Interfere(s.w, m.env)), t, version, Choice(s, t).value, m.answer);
    }
  }

  lemma ScheduleOps(st: L.Store, s: State, ms: seq<Moment>) returns (ops: seq<L.Op>)
    requires Backs(st, s.leases, s.counter)
    ensures Takes(st, ops, Schedule(s, ms).0)
  {
    ops := OffersOps(st, s, s.w.version, s.w.frontier, ms, |s.w.frontier|);
  }

  // ---- operations and runs ----

  lemma TwiceOps(st: L.Store, s: State, first: seq<Moment>, second: seq<Moment>) returns (ops: seq<L.Op>)
    requires Backs(st, s.leases, s.counter)
    ensures Takes(st, ops, Schedule(Schedule(s, first).0, second).0)
  {
    var one := ScheduleOps(st, s, first);
    var two := ScheduleOps(L.Run(st, one), Schedule(s, first).0, second);
    RunConcat(st, one, two);
    ops := one + two;
  }

  lemma CloseTwiceOps(st: L.Store, p: Pass, s: State) returns (ops: seq<L.Op>)
    requires Backs(st, s.leases, s.counter)
    ensures Takes(st, ops, Reconcile(Close(p, s).0))
  {
    var one := CloseOps(st, p, s);
    var two := CloseOps(L.Run(st, one), Reconciling, Close(p, s).0);
    RunConcat(st, one, two);
    ops := one + two;
  }

  lemma ReleaseOps(st: L.Store, s: State, i: nat) returns (ops: seq<L.Op>)
    requires Backs(st, s.leases, s.counter) && i < |s.claims|
    ensures Takes(st, ops, ReleaseClaim(s, i).0)
  {
    var c := s.claims[i];
    ops := [];
    if Stored(s.leases, c) {
      Dropped(st, s.leases, s.counter, c.lease.value);
      RunOne(st, L.Release(c.lease.value));
      ops := [L.Release(c.lease.value)];
    }
  }

  lemma ApplyOps(st: L.Store, s: State, e: Event) returns (ops: seq<L.Op>)
    requires Backs(st, s.leases, s.counter)
    ensures Takes(st, ops, Apply(s, e).0)
  {
    if !Available(s, e.op) {
      ops := ScheduleOps(st, s, e.first);
    } else {
      match e.op
      case ScheduleTwice =>
        if Schedule(s, e.first).1 {
          ops := ScheduleOps(st, s, e.first);
        } else {
          ops := TwiceOps(st, s, e.first, e.second);
        }
      case Release(i) => ops := ReleaseOps(st, s, i);
      case CompleteAttempt(i, evidence) => ops := CloseOps(st, Observing(evidence), WithVerified(s, s.claims[i].task));
      case LeaseExpire(l) =>
        Expired(st, s.leases, s.counter, l);
        RunOne(st, L.Expire(l));
        ops := [L.Expire(l)];
      case SchedulerRestart => ops := CloseTwiceOps(st, Restarting, s);
      case ProjectionCorrupt(i) => ops := CloseOps(st, Reconciling, Corrupted(s, i));
      case ReconcileOnly => ops := CloseOps(st, Reconciling, s);
      case _ => ops := [];
    }
  }

  lemma StepOps(st: L.Store, s: State, e: Event) returns (ops: seq<L.Op>)
    requires Backs(st, s.leases, s.counter)
    ensures Takes(st, ops, Step(s, e).0)
  {
    var s1 := s.(w := s.w.(now := s.w.now + e.elapsed));
    var one := ApplyOps(st, s1, e);
    var two := CloseOps(L.Run(st, one), Reconciling, Apply(s1, e).0);
    RunConcat(st, one, two);
    ops := one + two;
  }

  /** From any prefix of a run to the whole run, the authority's store is brought along by
      operations of its own. */
  lemma {:induction false} RunOps(es: seq<Event>, k: nat, st: L.Store) returns (ops: seq<L.Op>)
    requires k <= |es| && Backs(st, Run(es[..k]).leases, Run(es[..k]).counter)
    ensures Takes(st, ops, Run(es))
    decreases |es|
  {
    if k == |es| {
      assert es[..k] == es;
      ops := [];
    } else {
      var init := es[..|es| - 1];
      assert init[..k] == es[..k];
      var one := RunOps(init, k, st);
      var two := StepOps(L.Run(st, one), Run(init), es[|es| - 1]);
      RunConcat(st, one, two);
      ops := one + two;
    }
  }

  /** Hence what is proved of the authority holds of the protocol: over every run, a lease
      id that was given out and is gone never comes back. */
  lemma LeaseIdsNeverReturn(es: seq<Event>, k: nat, id: LeaseId)
    requires k <= |es| && 1 <= id <= Run(es[..k]).counter && id !in Run(es[..k]).leases
    ensures id <= Run(es).counter && id !in Run(es).leases
  {
    var st := L.Store(Table(Run(es[..k]).leases), map[], Run(es[..k]).counter);
    var ops := RunOps(es, k, st);
    L.DeadForever(st, ops, id);
  }

  /** And over every run the protocol's leases are those of a store that the authority's
      operations reach from the empty one, so its index by process is exact. */
  lemma ProtocolStore(es: seq<Event>) returns (ops: seq<L.Op>)
    ensures Backs(L.Run(L.EMPTY, ops), Run(es).leases, Run(es).counter)
    ensures L.Valid(L.Run(L.EMPTY, ops))
  {
    ops := RunOps(es, 0, L.EMPTY);
    L.RunValid(L.EMPTY, ops);
  }
}

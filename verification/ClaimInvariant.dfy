/** What every operation on claims keeps, corruption of the claim list included: the
    lease store and the claims that hold a stored lease match one to one. */
module ClaimInvariant {
  import opened Collections
  import opened Matching
  import opened Claims

  // ---- the invariant ----

  predicate Holds(leases: map<LeaseId, Lease>, c: Claim)
  {
    Open(c.status) && Stored(leases, c)
  }

  ghost function HeldBy(leases: map<LeaseId, Lease>, claims: seq<Claim>, a: AgentId): set<nat>
  {
    set i: nat | i < |claims| && Holds(leases, claims[i]) && claims[i].agent == a
  }

  predicate Issued(counter: nat, c: Claim)
  {
    c.lease.Some? ==> 1 <= c.lease.value <= counter
  }

  /** A stored lease is the lease of an open claim on its task, by its owner. */
  predicate Matched(leases: map<LeaseId, Lease>, c: Claim)
  {
    Stored(leases, c) ==>
      var l := leases[c.lease.value]; Open(c.status) && l.task == c.task && l.owner == c.pid
  }

  ghost predicate Owned(claims: seq<Claim>, l: LeaseId)
  {
    exists i: nat | i < |claims| :: claims[i].lease == Some(l)
  }

  predicate Registered(w: World, c: Claim)
  {
    c.agent < |w.agents| && c.pid == w.agents[c.agent].pid
  }

  /** Each claim by itself. */
  predicate Sound(w: World, leases: map<LeaseId, Lease>, counter: nat, c: Claim)
  {
    Issued(counter, c) && Matched(leases, c) && Registered(w, c)
  }

  predicate AllSound(s: State)
  {
    forall i: nat | i < |s.claims| :: Sound(s.w, s.leases, s.counter, s.claims[i])
  }

  /** No lease outlives its claim. */
  ghost predicate NoOrphans(s: State)
  {
    forall l | l in s.leases :: Owned(s.claims, l)
  }

  ghost predicate DistinctLeases(claims: seq<Claim>)
  {
    forall i: nat, j: nat | i < j < |claims| && claims[i].lease.Some? :: claims[i].lease != claims[j].lease
  }

  ghost predicate OneHolder(leases: map<LeaseId, Lease>, claims: seq<Claim>)
  {
    forall i: nat, j: nat | i < j < |claims| && Holds(leases, claims[i]) && Holds(leases, claims[j]) ::
      claims[i].task != claims[j].task
  }

  ghost predicate WithinCapacity(s: State)
  {
    forall a: nat | a < |s.w.agents| :: |HeldBy(s.leases, s.claims, a)| <= s.w.agents[a].maxConcurrency
  }

  ghost predicate Core(s: State)
  {
    AllSound(s) && NoOrphans(s) && DistinctLeases(s.claims) && OneHolder(s.leases, s.claims) && WithinCapacity(s)
  }

  /** No acquisition is pending and no ACTIVE claim has lost its lease. */
  predicate Backed(s: State)
  {
    forall i: nat | i < |s.claims| && Open(s.claims[i].status) ::
      s.claims[i].status == Active && Stored(s.leases, s.claims[i])
  }

  /** Every ACTIVE claim is executable: live lease, live process, open task. */
  predicate Executable(w: World, leases: map<LeaseId, Lease>, c: Claim)
  {
    && c.status == Active
    && Found(leases, c) && leases[c.lease.value].owner == c.pid && Unexpired(w, leases[c.lease.value])
    && Alive(w.kernel, c.pid)
    && !IsValidity(w, c.task, Verified) && !IsValidity(w, c.task, Stale)
  }

  predicate Reconciled(s: State)
  {
    forall i: nat | i < |s.claims| && Open(s.claims[i].status) :: Executable(s.w, s.leases, s.claims[i])
  }

  // ---- changing only the world ----

  lemma WorldChange(s: State, w: World)
    requires Core(s) && |s.w.agents| <= |w.agents|
    requires forall a: nat | a < |s.w.agents| ::
      w.agents[a].pid == s.w.agents[a].pid && w.agents[a].maxConcurrency == s.w.agents[a].maxConcurrency
    ensures Core(s.(w := w))
  {
    forall a: nat | a < |w.agents| ensures |HeldBy(s.leases, s.claims, a)| <= w.agents[a].maxConcurrency {
      if a >= |s.w.agents| {
        assert HeldBy(s.leases, s.claims, a) == {};
      }
    }
  }

  // ---- closing claims ----

  /** The statuses st are reached from s by closing open claims only. */
  predicate Closing(s: State, st: seq<Status>)
  {
    && |st| == |s.claims|
    && forall i: nat | i < |st| :: st[i] == s.claims[i].status || (Open(s.claims[i].status) && !Open(st[i]))
  }

  ghost function Gone(s: State, st: seq<Status>): set<LeaseId>
    requires |st| == |s.claims|
  {
    set i: nat | i < |st| && st[i] != s.claims[i].status && s.claims[i].lease.Some? :: s.claims[i].lease.value
  }

  ghost function Restated(claims: seq<Claim>, st: seq<Status>): (r: seq<Claim>)
    requires |st| == |claims|
    ensures |r| == |claims| && forall i: nat | i < |r| :: r[i] == claims[i].(status := st[i])
  {
    seq(|claims|, (i: nat) requires i < |claims| => claims[i].(status := st[i]))
  }

  /** All closing claims closed at once, each giving up its lease. */
  ghost function Finish(s: State, st: seq<Status>): State
    requires |st| == |s.claims|
  {
    s.(claims := Restated(s.claims, st), leases := s.leases - Gone(s, st))
  }

  lemma GoneIs(s: State, st: seq<Status>, i: nat)
    requires DistinctLeases(s.claims) && |st| == |s.claims| && i < |st| && s.claims[i].lease.Some?
    ensures s.claims[i].lease.value in Gone(s, st) <==> st[i] != s.claims[i].status
  {
    if s.claims[i].lease.value in Gone(s, st) {
      var j: nat :| j < |st| && st[j] != s.claims[j].status && s.claims[j].lease == s.claims[i].lease;
      assert i == j;
    }
  }

  lemma FinishSound(s: State, st: seq<Status>, i: nat)
    requires AllSound(s) && DistinctLeases(s.claims) && Closing(s, st) && i < |s.claims|
    ensures var s' := Finish(s, st);
      && Sound(s'.w, s'.leases, s'.counter, s'.claims[i])
      && (Holds(s'.leases, s'.claims[i]) ==> Holds(s.leases, s.claims[i]))
  {
    assert Sound(s.w, s.leases, s.counter, s.claims[i]);
    if s.claims[i].lease.Some? {
      GoneIs(s, st, i);
    }
  }

  lemma FinishOwned(s: State, st: seq<Status>)
    requires NoOrphans(s) && Closing(s, st)
    ensures NoOrphans(Finish(s, st))
  {
    var s' := Finish(s, st);
    forall l | l in s'.leases ensures Owned(s'.claims, l) {
      assert Owned(s.claims, l);
      var i: nat :| i < |s.claims| && s.claims[i].lease == Some(l);
      assert s'.claims[i].lease == Some(l);
    }
  }

  lemma FinishKeeps(s: State, st: seq<Status>)
    requires Core(s) && Closing(s, st)
    ensures Core(Finish(s, st))
  {
    var s' := Finish(s, st);
    forall i: nat | i < |s'.claims|
      ensures Sound(s'.w, s'.leases, s'.counter, s'.claims[i])
      ensures Holds(s'.leases, s'.claims[i]) ==> Holds(s.leases, s.claims[i])
    {
      FinishSound(s, st, i);
    }
    FinishOwned(s, st);
    forall a: nat | a < |s.w.agents| ensures |HeldBy(s'.leases, s'.claims, a)| <= s.w.agents[a].maxConcurrency {
      SubsetSize(HeldBy(s'.leases, s'.claims, a), HeldBy(s.leases, s.claims, a));
    }
  }

  // ---- the closing loops have a closed form ----

  /** The status each claim leaves a loop with, judged on the store the loop began with. */
  ghost function Fates(p: Pass, s: State): (st: seq<Status>)
    ensures |st| == |s.claims| && forall i: nat | i < |st| :: st[i] == Fate(p, s.w, s.leases, i, s.claims[i])
  {
    seq(|s.claims|, (i: nat) requires i < |s.claims| => Fate(p, s.w, s.leases, i, s.claims[i]))
  }

  lemma FatesClose(p: Pass, s: State)
    ensures Closing(s, Fates(p, s))
  {
  }

  /** The first n fates, the rest as they were. */
  ghost function FatesUpTo(p: Pass, s: State, n: nat): (st: seq<Status>)
    requires n <= |s.claims|
    ensures |st| == |s.claims|
    ensures forall i: nat | i < |st| :: st[i] == if i < n then Fate(p, s.w, s.leases, i, s.claims[i]) else s.claims[i].status
  {
    seq(|s.claims|, (i: nat) requires i < |s.claims| =>
      if i < n then Fate(p, s.w, s.leases, i, s.claims[i]) else s.claims[i].status)
  }

  /** Some claim of the first n asks for the release of a lease that is not there. */
  predicate RaisesBelow(p: Pass, s: State, n: nat)
    requires n <= |s.claims|
  {
    exists i: nat | i < n :: Raises(p, s.w, s.leases, i, s.claims[i])
  }

  /** Taking away other claims' leases does not change a claim's verdict. */
  lemma VerdictLocal(p: Pass, w: World, leases: map<LeaseId, Lease>, gone: set<LeaseId>, i: nat, c: Claim)
    requires c.lease.Some? ==> c.lease.value !in gone
    ensures Fate(p, w, leases - gone, i, c) == Fate(p, w, leases, i, c)
    ensures Raises(p, w, leases - gone, i, c) <==> Raises(p, w, leases, i, c)
    ensures Drops(p, w, leases - gone, i, c) <==> Drops(p, w, leases, i, c)
  {
  }

  lemma GoneStep(p: Pass, s: State, n: nat)
    requires n < |s.claims| && DistinctLeases(s.claims)
    ensures var c := s.claims[n];
      && (c.lease.Some? ==> c.lease.value !in Gone(s, FatesUpTo(p, s, n)))
      && Gone(s, FatesUpTo(p, s, n + 1)) == Gone(s, FatesUpTo(p, s, n))
           + if Fate(p, s.w, s.leases, n, c) != c.status && c.lease.Some? then {c.lease.value} else {}
  {
    var c, a, b := s.claims[n], FatesUpTo(p, s, n), FatesUpTo(p, s, n + 1);
    if c.lease.Some? {
      GoneIs(s, a, n);
    }
    forall l | l in Gone(s, b) ensures l in Gone(s, a) || (c.lease == Some(l) && b[n] != c.status) {
      var j: nat :| j < |b| && b[j] != s.claims[j].status && s.claims[j].lease == Some(l);
    }
    forall l | l in Gone(s, a) ensures l in Gone(s, b) {
      var j: nat :| j < |a| && a[j] != s.claims[j].status && s.claims[j].lease == Some(l);
      assert b[j] == a[j];
    }
  }

  /** Without an exception, the lease of a condemned claim is dropped if it is stored. */
  lemma DropsStored(p: Pass, w: World, leases: map<LeaseId, Lease>, i: nat, c: Claim)
    requires Matched(leases, c)
    ensures Drops(p, w, leases, i, c) <==> Fate(p, w, leases, i, c) != c.status && Stored(leases, c)
  {
  }

  /** The loop after n claims, in closed form. */
  ghost predicate ClosedUpTo(p: Pass, s: State, n: nat, r: Swept)
    requires n <= |s.claims|
  {
    && r.claims == Restated(s.claims, FatesUpTo(p, s, n))
    && r.leases == s.leases - Gone(s, FatesUpTo(p, s, n))
  }

  lemma RestatedNext(p: Pass, s: State, i: nat)
    requires i < |s.claims|
    ensures Restated(s.claims, FatesUpTo(p, s, i))[i] == s.claims[i]
    ensures Restated(s.claims, FatesUpTo(p, s, i))[i := s.claims[i].(status := Fate(p, s.w, s.leases, i, s.claims[i]))]
         == Restated(s.claims, FatesUpTo(p, s, i + 1))
  {
  }

  lemma VisitIs(p: Pass, w: World, leases: map<LeaseId, Lease>, gone: set<LeaseId>, i: nat, c: Claim, r: Swept)
    requires i < |r.claims| && r.claims[i] == c && r.leases == leases - gone && Matched(leases, c)
    requires c.lease.Some? ==> c.lease.value !in gone
    ensures Visit(p, w, r, i).raised <==> Raises(p, w, leases, i, c)
    ensures !Raises(p, w, leases, i, c) ==>
      && Visit(p, w, r, i).claims == r.claims[i := c.(status := Fate(p, w, leases, i, c))]
      && Visit(p, w, r, i).leases
           == leases - (gone + if Fate(p, w, leases, i, c) != c.status && c.lease.Some? then {c.lease.value} else {})
  {
    VerdictLocal(p, w, leases, gone, i, c);
    DropsStored(p, w, leases, i, c);
  }

  lemma VisitClosed(p: Pass, s: State, i: nat, r: Swept)
    requires i < |s.claims| && DistinctLeases(s.claims) && Matched(s.leases, s.claims[i]) && ClosedUpTo(p, s, i, r)
    ensures Raises(p, s.w, s.leases, i, s.claims[i]) ==> Visit(p, s.w, r, i).raised
    ensures !Raises(p, s.w, s.leases, i, s.claims[i]) ==>
      !Visit(p, s.w, r, i).raised && ClosedUpTo(p, s, i + 1, Visit(p, s.w, r, i))
  {
    GoneStep(p, s, i);
    RestatedNext(p, s, i);
    VisitIs(p, s.w, s.leases, Gone(s, FatesUpTo(p, s, i)), i, s.claims[i], r);
  }

  lemma RaisesNext(p: Pass, s: State, n: nat)
    requires 0 < n <= |s.claims|
    ensures RaisesBelow(p, s, n) <==> RaisesBelow(p, s, n - 1) || Raises(p, s.w, s.leases, n - 1, s.claims[n - 1])
  {
  }

  lemma NoneClosed(p: Pass, s: State)
    ensures ClosedUpTo(p, s, 0, Swept(s.leases, s.claims, false))
  {
    assert Gone(s, FatesUpTo(p, s, 0)) == {};
  }

  lemma SweepNext(p: Pass, s: State, n: nat, r: Swept, r': Swept)
    requires 0 < n <= |s.claims| == |r.claims| && DistinctLeases(s.claims) && Matched(s.leases, s.claims[n - 1])
    requires r' == if r.raised then r else Visit(p, s.w, r, n - 1)
    requires r.raised <==> RaisesBelow(p, s, n - 1)
    requires !RaisesBelow(p, s, n - 1) ==> ClosedUpTo(p, s, n - 1, r)
    ensures r'.raised <==> RaisesBelow(p, s, n)
    ensures !RaisesBelow(p, s, n) ==> ClosedUpTo(p, s, n, r')
  {
    RaisesNext(p, s, n);
    if !RaisesBelow(p, s, n - 1) {
      VisitClosed(p, s, n - 1, r);
    }
  }

  /** In a state that satisfies the invariant, each loop closes exactly the claims its
      verdict on the starting state condemns, whatever the order; it raises exactly when
      some condemned claim's lease is missing. */
  lemma {:induction false} SweepClosed(p: Pass, s: State, n: nat)
    requires n <= |s.claims| && DistinctLeases(s.claims) && AllSound(s)
    ensures Sweep(p, s.w, s.leases, s.claims, n).raised <==> RaisesBelow(p, s, n)
    ensures !RaisesBelow(p, s, n) ==> ClosedUpTo(p, s, n, Sweep(p, s.w, s.leases, s.claims, n))
  {
    if n == 0 {
      NoneClosed(p, s);
    } else {
      SweepClosed(p, s, n - 1);
      assert Sound(s.w, s.leases, s.counter, s.claims[n - 1]);
      SweepNext(p, s, n, Sweep(p, s.w, s.leases, s.claims, n - 1), Sweep(p, s.w, s.leases, s.claims, n));
    }
  }

  lemma CloseIs(p: Pass, s: State)
    requires Core(s)
    ensures Close(p, s).1 <==> RaisesBelow(p, s, |s.claims|)
    ensures !Close(p, s).1 ==> Close(p, s).0 == Finish(s, Fates(p, s)) && Core(Close(p, s).0)
  {
    SweepClosed(p, s, |s.claims|);
    assert FatesUpTo(p, s, |s.claims|) == Fates(p, s);
    FatesClose(p, s);
    FinishKeeps(s, Fates(p, s));
  }

  /** When every open claim is backed, no loop raises. */
  lemma BackedNeverRaises(p: Pass, s: State)
    requires Core(s) && Backed(s)
    ensures !Close(p, s).1
  {
    CloseIs(p, s);
  }

  // ---- reconcile ----

  function Reconcile(s: State): State
  {
    Close(Reconciling, s).0
  }

  /** Reconcile never raises, keeps the invariant, and leaves only executable claims open. */
  lemma ReconcileSettles(s: State)
    requires Core(s)
    ensures !Close(Reconciling, s).1
    ensures Core(Reconcile(s)) && Reconciled(Reconcile(s))
    ensures Reconcile(s) == Finish(s, Fates(Reconciling, s))
  {
    CloseIs(Reconciling, s);
    var s', st := Reconcile(s), Fates(Reconciling, s);
    FatesClose(Reconciling, s);
    forall i: nat | i < |s'.claims| && Open(s'.claims[i].status)
      ensures Executable(s'.w, s'.leases, s'.claims[i])
    {
      assert Matched(s.leases, s.claims[i]);
      GoneIs(s, st, i);
    }
  }

  lemma ExecutableStays(w: World, leases: map<LeaseId, Lease>, i: nat, c: Claim)
    requires Open(c.status) ==> Executable(w, leases, c)
    ensures Fate(Reconciling, w, leases, i, c) == c.status
  {
  }

  /** Reconciling again changes nothing. */
  lemma ReconcileTwice(s: State)
    requires Core(s) && Reconciled(s)
    ensures Reconcile(s) == s
  {
    CloseIs(Reconciling, s);
    var st := Fates(Reconciling, s);
    forall i: nat | i < |st| ensures st[i] == s.claims[i].status {
      ExecutableStays(s.w, s.leases, i, s.claims[i]);
    }
    FinishNothing(s, st);
  }

  lemma FinishNothing(s: State, st: seq<Status>)
    requires |st| == |s.claims| && forall i: nat | i < |st| :: st[i] == s.claims[i].status
    ensures Finish(s, st) == s
  {
    assert Gone(s, st) == {};
    assert Restated(s.claims, st) == s.claims;
  }
}

/** The in-memory lease authority: a table of leases and an index by owner process. */
module Leases {
  type Pid = nat
  type Resource = nat
  type LeaseId = nat

  datatype Lease = Lease(resource: Resource, owner: Pid, expires: int)

  const LONG_PAST: int := -1_000_000_000

  /** The table, the index, and the number of ids given out. */
  datatype Store = Store(leases: map<LeaseId, Lease>, byPid: map<Pid, set<LeaseId>>, counter: nat)

  const EMPTY: Store := Store(map[], map[], 0)

  function Indexed(s: Store, pid: Pid): set<LeaseId>
  {
    if pid in s.byPid then s.byPid[pid] else {}
  }

  /** What a scan of the whole table finds for a process. */
  function Scan(s: Store, pid: Pid): set<LeaseId>
  {
    set l | l in s.leases && s.leases[l].owner == pid
  }

  ghost predicate Valid(s: Store)
  {
    && (forall l | l in s.leases :: 1 <= l <= s.counter)
    && forall pid: Pid :: Indexed(s, pid) == Scan(s, pid)
  }

  // ---- operations as functions ----

  datatype Op =
    | Acquire(pid: Pid, resource: Resource, now: int, ttl: nat)
    | Release(id: LeaseId)
    | ReleaseAllForPid(pid: Pid)
    | Expire(id: LeaseId)
    | ReclaimExpired(now: int)

  predicate Expired(l: Lease, now: int)
  {
    l.expires < now
  }

  function Released(s: Store, id: LeaseId): Store
  {
    if id !in s.leases then s
    else
      var owner := s.leases[id].owner;
      s.(leases := s.leases - {id}, byPid := s.byPid[owner := Indexed(s, owner) - {id}])
  }

  function ExpiredIds(s: Store, now: int): set<LeaseId>
  {
    set l | l in s.leases && Expired(s.leases[l], now)
  }

  /** Release a set of ids, in any order: table entries go, index entries follow. */
  function AllReleased(s: Store, ids: set<LeaseId>): Store
  {
    s.(leases := s.leases - ids, byPid := map pid | pid in s.byPid :: s.byPid[pid] - ids)
  }

  /** Two stores that answer every question alike. */
  ghost predicate Same(s: Store, t: Store)
  {
    s.leases == t.leases && s.counter == t.counter && forall pid: Pid :: Indexed(s, pid) == Indexed(t, pid)
  }

  function Apply(s: Store, op: Op): Store
  {
    match op
    case Acquire(pid, resource, now, ttl) =>
      var id := s.counter + 1;
      Store(s.leases[id := Lease(resource, pid, now + ttl)], s.byPid[pid := Indexed(s, pid) + {id}], id)
    case Release(id) => Released(s, id)
    case ReleaseAllForPid(pid) => s.(leases := s.leases - Indexed(s, pid), byPid := s.byPid - {pid})
    case Expire(id) =>
      if id in s.leases then s.(leases := s.leases[id := s.leases[id].(expires := LONG_PAST)]) else s
    case ReclaimExpired(now) => AllReleased(s, ExpiredIds(s, now))
  }

  function Run(s: Store, ops: seq<Op>): Store
  {
    if ops == [] then s else Apply(Run(s, ops[..|ops| - 1]), ops[|ops| - 1])
  }

  // ---- the index always agrees with a full scan ----

  lemma ReleasedValid(s: Store, id: LeaseId)
    requires Valid(s)
    ensures Valid(Released(s, id))
  {
    var s' := Released(s, id);
    forall pid: Pid ensures Indexed(s', pid) == Scan(s', pid) {
      assert Indexed(s, pid) == Scan(s, pid);
    }
  }

  lemma ApplyValid(s: Store, op: Op)
    requires Valid(s)
    ensures Valid(Apply(s, op)) && s.counter <= Apply(s, op).counter
  {
    var s' := Apply(s, op);
    if op.Release? {
      ReleasedValid(s, op.id);
    }
    forall pid: Pid ensures Indexed(s', pid) == Scan(s', pid) {
      assert Indexed(s, pid) == Scan(s, pid);
      if op.ReleaseAllForPid? {
        assert Indexed(s, op.pid) == Scan(s, op.pid);
      }
    }
  }

  lemma {:induction false} RunValid(s: Store, ops: seq<Op>)
    requires Valid(s)
    ensures Valid(Run(s, ops)) && s.counter <= Run(s, ops).counter
  {
    if ops != [] {
      RunValid(s, ops[..|ops| - 1]);
      ApplyValid(Run(s, ops[..|ops| - 1]), ops[|ops| - 1]);
    }
  }

  /** Over every run from an empty store, the index equals a full scan of the table. */
  lemma IndexIsScan(ops: seq<Op>, pid: Pid)
    ensures Indexed(Run(EMPTY, ops), pid) == Scan(Run(EMPTY, ops), pid)
  {
    RunValid(EMPTY, ops);
  }

  // ---- stale ids ----

  /** The id was given out once and its lease is gone. */
  predicate Dead(s: Store, id: LeaseId)
  {
    1 <= id <= s.counter && id !in s.leases
  }

  lemma DeadStep(s: Store, op: Op, id: LeaseId)
    requires Dead(s, id)
    ensures Dead(Apply(s, op), id)
  {
  }

  /** Ids are never reused: once a lease is gone no later operation brings its id back,
      and releasing or expiring it changes nothing. */
  lemma {:induction false} DeadForever(s: Store, ops: seq<Op>, id: LeaseId)
    requires Dead(s, id)
    ensures Dead(Run(s, ops), id)
    ensures Apply(Run(s, ops), Release(id)) == Run(s, ops) && Apply(Run(s, ops), Expire(id)) == Run(s, ops)
  {
    if ops != [] {
      DeadForever(s, ops[..|ops| - 1], id);
      DeadStep(Run(s, ops[..|ops| - 1]), ops[|ops| - 1], id);
    }
  }

  /** A lease handed out now can only go by its own id, its own owner, or its own expiry:
      releasing anything else leaves it in place. */
  lemma OnlyOwnRelease(s: Store, op: Op, id: LeaseId)
    requires Valid(s) && id in s.leases && id !in Apply(s, op).leases
    ensures || op == Release(id)
            || op == ReleaseAllForPid(s.leases[id].owner)
            || (op.ReclaimExpired? && s.leases[id].expires < op.now)
  {
    if op.ReleaseAllForPid? {
      assert Indexed(s, op.pid) == Scan(s, op.pid);
    }
  }

  /** Which leases each operation leaves in the table. */
  ghost predicate Remains(s: Store, op: Op, l: LeaseId)
  {
    match op
    case Acquire(_, _, _, _) => l in s.leases || l == s.counter + 1
    case Release(id) => l in s.leases && l != id
    case ReleaseAllForPid(pid) => l in s.leases && s.leases[l].owner != pid
    case Expire(_) => l in s.leases
    case ReclaimExpired(now) => l in s.leases && now <= s.leases[l].expires
  }

  /** Every operation leaves exactly those leases, each as it was, apart from the one it
      hands out and the one whose expiry it moves to the past. */
  lemma TableAfter(s: Store, op: Op, l: LeaseId)
    requires Valid(s)
    ensures l in Apply(s, op).leases <==> Remains(s, op, l)
    ensures l in Apply(s, op).leases ==>
      Apply(s, op).leases[l] ==
        if op.Acquire? && l == s.counter + 1 then Lease(op.resource, op.pid, op.now + op.ttl)
        else if op == Expire(l) then s.leases[l].(expires := LONG_PAST)
        else s.leases[l]
    ensures Apply(s, op).counter == s.counter + if op.Acquire? then 1 else 0
  {
    if op.ReleaseAllForPid? {
      assert Indexed(s, op.pid) == Scan(s, op.pid);
    }
  }

  // ---- the provider ----

  class Provider {
    var leases: map<LeaseId, Lease>
    var byPid: map<Pid, set<LeaseId>>
    var counter: nat

    ghost function View(): Store
      reads this
    {
      Store(leases, byPid, counter)
    }

    constructor ()
      ensures View() == EMPTY
    {
      leases, byPid, counter := map[], map[], 0;
    }

    method AcquireExclusive(pid: Pid, resource: Resource, now: int, ttl: nat) returns (id: LeaseId)
      modifies this
      ensures View() == Apply(old(View()), Acquire(pid, resource, now, ttl)) && id == counter
    {
      counter := counter + 1;
      id := counter;
      leases := leases[id := Lease(resource, pid, now + ttl)];
      byPid := byPid[pid := (if pid in byPid then byPid[pid] else {}) + {id}];
    }

    method ReleaseLease(id: LeaseId) returns (ok: bool)
      modifies `leases, `byPid
      ensures View() == Released(old(View()), id) && ok == (id in old(leases))
    {
      ok := id in leases;
      if ok {
        var owner := leases[id].owner;
        leases := leases - {id};
        byPid := byPid[owner := (if owner in byPid then byPid[owner] else {}) - {id}];
      }
    }

    /** The ids come from the index; each is popped from the table if it is still there. */
    method ReleaseAll(pid: Pid) returns (n: nat)
      requires Valid(View())
      modifies `leases, `byPid
      ensures View() == Apply(old(View()), ReleaseAllForPid(pid)) && n == |Scan(old(View()), pid)|
    {
      ghost var s := View();
      var ids := if pid in byPid then byPid[pid] else {};
      assert ids == Indexed(s, pid) == Scan(s, pid);
      byPid := byPid - {pid};
      n := 0;
      var rest := ids;
      while rest != {}
        invariant rest <= ids && leases == s.leases - (ids - rest) && n + |rest| == |ids| && byPid == s.byPid - {pid}
        decreases |rest|
      {
        var id :| id in rest;
        if id in leases {
          leases := leases - {id};
          n := n + 1;
        }
        rest := rest - {id};
      }
      assert ids - rest == ids;
    }

    method ExpireLease(id: LeaseId) returns (ok: bool)
      modifies `leases
      ensures View() == Apply(old(View()), Expire(id)) && ok == (id in old(leases))
    {
      ok := id in leases;
      if ok {
        leases := leases[id := leases[id].(expires := LONG_PAST)];
      }
    }

    /** reclaim_expired: collect the expired leases, then release them one by one. */
    method Reclaim(now: int) returns (n: nat)
      requires Valid(View())
      modifies `leases, `byPid
      ensures Same(View(), Apply(old(View()), ReclaimExpired(now)))
      ensures Valid(View()) && n == |ExpiredIds(old(View()), now)|
      ensures forall l :: l in leases <==> l in old(leases) && now <= old(leases)[l].expires
      ensures forall l | l in leases :: leases[l] == old(leases)[l]
    {
      ghost var s := View();
      var expired := ExpiredIds(Store(leases, byPid, counter), now);
      n := |expired|;
      var rest := expired;
      while rest != {}
        invariant rest <= expired && Valid(View())
        invariant leases == s.leases - (expired - rest) && counter == s.counter
        decreases |rest|
      {
        var id :| id in rest;
        ReleasedValid(View(), id);
        var _ := ReleaseLease(id);
        rest := rest - {id};
      }
      ApplyValid(s, ReclaimExpired(now));
      ScanDecides(View(), Apply(s, ReclaimExpired(now)));
    }

    /** list_for_pid: the index in id order, skipping ids no longer in the table. */
    method ListForPid(pid: Pid) returns (out: seq<LeaseId>)
      requires Valid(View())
      ensures forall i, j | 0 <= i < j < |out| :: out[i] < out[j]
      ensures forall l :: l in out <==> l in Scan(View(), pid)
    {
      assert Indexed(View(), pid) == Scan(View(), pid);
      var ids := if pid in byPid then byPid[pid] else {};
      out := [];
      var at := 0;
      while at <= counter
        invariant at <= counter + 1
        invariant forall i, j | 0 <= i < j < |out| :: out[i] < out[j]
        invariant forall i | 0 <= i < |out| :: out[i] < at
        invariant forall l :: l in out <==> l in ids && l < at && l in leases
      {
        if at in ids && at in leases {
          out := out + [at];
        }
        at := at + 1;
      }
    }
  }

  lemma ScanDecides(s: Store, t: Store)
    requires Valid(s) && Valid(t) && s.leases == t.leases && s.counter == t.counter
    ensures Same(s, t)
  {
    forall pid: Pid ensures Indexed(s, pid) == Indexed(t, pid) {
      assert Indexed(s, pid) == Scan(s, pid) && Indexed(t, pid) == Scan(t, pid);
    }
  }
}

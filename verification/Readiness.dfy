/** When a checkpoint is due: active time of a trial with instrumentation freezes taken
    out, computed from invocation records and the freeze ledger, against the actual
    timeline of invocations and freezes. Times are whole ticks. */
module Readiness {
  import opened Collections

  // ---- the records the watcher reads ----

  /** A running record may lack a usable start; a finished one a usable elapsed time. */
  datatype Record = Running(invocation: nat, started: Option<int>) | Done(invocation: nat, elapsed: Option<int>)

  datatype Activity = Invalid | Activity(active: int, running: Option<nat>, count: nat, completed: int)

  predicate Usable(r: Record)
  {
    match r
    case Running(_, started) => started.Some?
    case Done(_, elapsed) => elapsed.Some? && elapsed.value >= 0
  }

  function ActiveOf(r: Record, now: int): int
    requires Usable(r)
  {
    if r.Running? then Max(0, now - r.started.value) else r.elapsed.value
  }

  function SumActive(rs: seq<Record>, now: int): int
    requires forall r | r in rs :: Usable(r)
  {
    if rs == [] then 0 else SumActive(rs[..|rs| - 1], now) + ActiveOf(rs[|rs| - 1], now)
  }

  function DoneOf(r: Record): int
    requires Usable(r)
  {
    if r.Done? then r.elapsed.value else 0
  }

  function SumDone(rs: seq<Record>): int
    requires forall r | r in rs :: Usable(r)
  {
    if rs == [] then 0
    else SumDone(rs[..|rs| - 1]) + DoneOf(rs[|rs| - 1])
  }

  function RunningOf(rs: seq<Record>): seq<nat>
  {
    if rs == [] then []
    else RunningOf(rs[..|rs| - 1]) + if rs[|rs| - 1].Running? then [rs[|rs| - 1].invocation] else []
  }

  lemma {:induction false} RunningMember(rs: seq<Record>)
    ensures RunningOf(rs) != [] <==> exists i :: 0 <= i < |rs| && rs[i].Running?
  {
    if rs != [] {
      var n := |rs| - 1;
      RunningMember(rs[..n]);
      if i :| 0 <= i < n && rs[..n][i].Running? {
        assert rs[i].Running?;
      }
      if i :| 0 <= i < |rs| && rs[i].Running? {
        assert i < n ==> rs[..n][i].Running?;
      }
    }
  }

  ghost predicate TwoRunning(rs: seq<Record>)
  {
    exists i, j :: 0 <= i < j < |rs| && rs[i].Running? && rs[j].Running?
  }

  lemma TwoRunningStep(rs: seq<Record>, n: nat)
    requires |rs| == n + 1
    ensures TwoRunning(rs) <==> TwoRunning(rs[..n]) || (rs[n].Running? && exists i :: 0 <= i < n && rs[..n][i].Running?)
  {
    if i, j :| 0 <= i < j < |rs| && rs[i].Running? && rs[j].Running? {
      assert rs[..n][i].Running? && (j < n ==> rs[..n][j].Running?);
    }
    if i, j :| 0 <= i < j < n && rs[..n][i].Running? && rs[..n][j].Running? {
      assert rs[i].Running? && rs[j].Running?;
    }
    if rs[n].Running? {
      if i :| 0 <= i < n && rs[..n][i].Running? {
        assert rs[i].Running? && rs[n].Running?;
      }
    }
  }

  /** Two records say running exactly when the list of the running ones has two entries. */
  lemma {:induction false} RunningTwice(rs: seq<Record>)
    ensures |RunningOf(rs)| > 1 <==> TwoRunning(rs)
  {
    if rs != [] {
      var n := |rs| - 1;
      RunningTwice(rs[..n]);
      RunningMember(rs[..n]);
      TwoRunningStep(rs, n);
    }
  }

  /** The record lacks its start, or lacks its length or has a negative one. */
  ghost predicate Broken(r: Record)
  {
    match r
    case Running(_, started) => started == None
    case Done(_, elapsed) => elapsed == None || elapsed.value < 0
  }

  /** _invocation_active_time, on the records in invocation order. */
  method InvocationActiveTime(rs: seq<Record>, now: int) returns (a: Activity)
    ensures a == Invalid <==>
      (exists r | r in rs :: Broken(r)) || TwoRunning(rs)
    ensures a != Invalid ==>
      && a.active == SumActive(rs, now) && a.completed == SumDone(rs) && a.count == |rs|
      && a.running == if RunningOf(rs) == [] then None else Some(RunningOf(rs)[0])
  {
    RunningTwice(rs);
    var completed, extra, running := 0, 0, [];
    for i := 0 to |rs|
      invariant forall r | r in rs[..i] :: Usable(r)
      invariant completed + extra == SumActive(rs[..i], now) && completed == SumDone(rs[..i])
      invariant running == RunningOf(rs[..i])
    {
      var r := rs[i];
      assert rs[..i + 1][..i] == rs[..i];
      if !Usable(r) {
        assert r in rs && Broken(r);
        return Invalid;
      }
      if r.Running? {
        extra := extra + Max(0, now - r.started.value);
        running := running + [r.invocation];
      } else {
        completed := completed + r.elapsed.value;
      }
    }
    assert rs[..|rs|] == rs;
    if |running| > 1 {
      return Invalid;
    }
    return Activity(completed + extra, if running == [] then None else Some(running[0]), |rs|, completed);
  }

  /** A freeze ledger entry; the duration is None when it cannot be read. */
  datatype Entry = Entry(duration: Option<int>, invocation: Option<nat>)

  predicate Counts(e: Entry)
  {
    e.duration.Some? && e.duration.value >= 0
  }

  function SumFreezes(es: seq<Entry>): int
  {
    if es == [] then 0
    else SumFreezes(es[..|es| - 1]) + if Counts(es[|es| - 1]) then es[|es| - 1].duration.value else 0
  }

  function SumElsewhere(es: seq<Entry>, running: Option<nat>): int
  {
    if es == [] then 0
    else
      var e := es[|es| - 1];
      SumElsewhere(es[..|es| - 1], running) + if Counts(e) && e.invocation != running then e.duration.value else 0
  }

  /** _freeze_offsets: all freeze time, and the part outside the running invocation. */
  method FreezeOffsets(es: seq<Entry>, running: Option<nat>) returns (total: int, completed: int)
    ensures total == SumFreezes(es) && completed == SumElsewhere(es, running)
  {
    total, completed := 0, 0;
    for i := 0 to |es|
      invariant total == SumFreezes(es[..i]) && completed == SumElsewhere(es[..i], running)
    {
      assert es[..i + 1][..i] == es[..i];
      if Counts(es[i]) {
        total := total + es[i].duration.value;
        if es[i].invocation != running {
          completed := completed + es[i].duration.value;
        }
      }
    }
    assert es[..|es|] == es;
  }

  datatype Ready = Pending | Due | Late

  datatype Trial = Trial(active: int, running: Option<nat>, completed: int)

  /** _capture_readiness. */
  function CaptureReadiness(trial: Option<Trial>, cutoff: int, excluded: int, excludedCompleted: int): Ready
  {
    if trial == None then Pending
    else if Max(0, trial.value.active - excluded) < cutoff then Pending
    else if trial.value.running == None then Late
    else if Max(0, trial.value.completed - excludedCompleted) >= cutoff then Late
    else Due
  }

  // ---- the timeline ----

  /** Invocation i runs from start until finish, if it has finished. */
  datatype Invocation = Invocation(start: int, finish: Option<int>)

  /** The container was paused from `from` until `to`, during invocation `inv`. */
  datatype Freeze = Freeze(inv: nat, from: int, to: int)

  predicate Well(i: Invocation)
  {
    i.finish.Some? ==> i.start <= i.finish.value
  }

  predicate Precedes(i: Invocation, j: Invocation)
  {
    i.finish.Some? && i.finish.value <= j.start
  }

  /** One invocation at a time, in order. */
  predicate Sequential(invs: seq<Invocation>)
  {
    && (forall i | 0 <= i < |invs| :: Well(invs[i]))
    && (forall i, j | 0 <= i < j < |invs| :: Precedes(invs[i], invs[j]))
  }

  predicate Inside(invs: seq<Invocation>, f: Freeze)
  {
    && f.inv < |invs| && invs[f.inv].start <= f.from <= f.to
    && (invs[f.inv].finish.Some? ==> f.to <= invs[f.inv].finish.value)
  }

  predicate Disjoint(fs: seq<Freeze>)
  {
    forall i, j | 0 <= i < j < |fs| :: fs[i].to <= fs[j].from || fs[j].to <= fs[i].from
  }

  predicate Timeline(invs: seq<Invocation>, fs: seq<Freeze>)
  {
    Sequential(invs) && Disjoint(fs) && forall f | f in fs :: Inside(invs, f)
  }

  predicate FinishedBy(i: Invocation, now: int)
  {
    i.finish.Some? && i.finish.value <= now
  }

  function NextRecord(n: nat, i: Invocation, now: int): Record
  {
    if FinishedBy(i, now) then Done(n, Some(i.finish.value - i.start)) else Running(n, Some(i.start))
  }

  /** The records on disk at a moment. */
  function Records(invs: seq<Invocation>, now: int): seq<Record>
  {
    if invs == [] then []
    else
      var n := |invs| - 1;
      var before := Records(invs[..n], now);
      if invs[n].start > now then before else before + [NextRecord(n, invs[n], now)]
  }

  function Noting(f: Freeze): Entry
  {
    Entry(Some(f.to - f.from), Some(f.inv))
  }

  /** The ledger at a moment: a freeze is written down once it is over. */
  function Ledger(fs: seq<Freeze>, now: int): seq<Entry>
  {
    if fs == [] then []
    else
      var f := fs[|fs| - 1];
      var before := Ledger(fs[..|fs| - 1], now);
      if f.to > now then before else before + [Noting(f)]
  }

  // ---- instants ----

  /** The instants of [a, b). */
  ghost function Ticks(a: int, b: int): (r: set<int>)
    ensures forall t :: t in r <==> a <= t < b
    ensures |r| == Max(0, b - a)
    decreases b - a
  {
    if a < b then Ticks(a, b - 1) + {b - 1} else {}
  }

  datatype Span = Span(a: int, b: int)

  predicate Has(x: Span, t: int)
  {
    x.a <= t < x.b
  }

  ghost function Covered(xs: seq<Span>): set<int>
  {
    if xs == [] then {} else Covered(xs[..|xs| - 1]) + Ticks(xs[|xs| - 1].a, xs[|xs| - 1].b)
  }

  function Length(xs: seq<Span>): int
  {
    if xs == [] then 0 else Length(xs[..|xs| - 1]) + Max(0, xs[|xs| - 1].b - xs[|xs| - 1].a)
  }

  ghost predicate InSome(xs: seq<Span>, t: int)
  {
    exists i: nat | i < |xs| :: Has(xs[i], t)
  }

  lemma InSomePrefix(xs: seq<Span>, t: int)
    requires xs != []
    ensures InSome(xs, t) <==> InSome(xs[..|xs| - 1], t) || Has(xs[|xs| - 1], t)
  {
    var n := |xs| - 1;
    if InSome(xs[..n], t) {
      var i: nat :| i < n && Has(xs[..n][i], t);
      assert Has(xs[i], t);
    }
    if InSome(xs, t) {
      var i: nat :| i < |xs| && Has(xs[i], t);
      assert i < n ==> Has(xs[..n][i], t);
    }
  }

  lemma {:induction false} CoveredAt(xs: seq<Span>, t: int)
    ensures t in Covered(xs) <==> InSome(xs, t)
  {
    if xs != [] {
      CoveredAt(xs[..|xs| - 1], t);
      InSomePrefix(xs, t);
    }
  }

  predicate Apart(x: Span, y: Span)
  {
    x.b <= x.a || y.b <= y.a || x.b <= y.a || y.b <= x.a
  }

  predicate AllApart(xs: seq<Span>)
  {
    forall i, j | 0 <= i < j < |xs| :: Apart(xs[i], xs[j])
  }

  lemma ApartPrefix(xs: seq<Span>)
    requires xs != [] && AllApart(xs)
    ensures AllApart(xs[..|xs| - 1])
  {
    var n := |xs| - 1;
    forall i, j | 0 <= i < j < n ensures Apart(xs[..n][i], xs[..n][j]) {
      assert xs[..n][i] == xs[i] && xs[..n][j] == xs[j];
    }
  }

  lemma LastApart(xs: seq<Span>)
    requires xs != [] && AllApart(xs)
    ensures Covered(xs[..|xs| - 1]) !! Ticks(xs[|xs| - 1].a, xs[|xs| - 1].b)
  {
    var n := |xs| - 1;
    forall t | t in Covered(xs[..n]) ensures !Has(xs[n], t) {
      CoveredAt(xs[..n], t);
      var i: nat :| i < n && Has(xs[..n][i], t);
      assert Apart(xs[i], xs[n]);
    }
  }

  /** Lengths of disjoint spans add up to the number of instants they cover. */
  lemma {:induction false} CoveredSize(xs: seq<Span>)
    requires AllApart(xs)
    ensures |Covered(xs)| == Length(xs)
  {
    if xs != [] {
      ApartPrefix(xs);
      CoveredSize(xs[..|xs| - 1]);
      LastApart(xs);
    }
  }

  // ---- what the timeline covers ----

  function Until(i: Invocation, now: int): int
  {
    if FinishedBy(i, now) then i.finish.value else now
  }

  /** Each invocation as far as it has run, and as far as it is over. */
  function BusySpans(invs: seq<Invocation>, now: int): (xs: seq<Span>)
    ensures |xs| == |invs| && forall i | 0 <= i < |xs| :: xs[i] == Span(invs[i].start, Until(invs[i], now))
  {
    seq(|invs|, (i: nat) requires i < |invs| => Span(invs[i].start, Until(invs[i], now)))
  }

  function OverSpan(i: Invocation, now: int): Span
  {
    if FinishedBy(i, now) then Span(i.start, i.finish.value) else Span(i.start, i.start)
  }

  function OverSpans(invs: seq<Invocation>, now: int): (xs: seq<Span>)
    ensures |xs| == |invs| && forall i | 0 <= i < |xs| :: xs[i] == OverSpan(invs[i], now)
  {
    seq(|invs|, (i: nat) requires i < |invs| => OverSpan(invs[i], now))
  }

  /** Each freeze on record, all of them or those outside the running invocation. */
  function NotedSpan(f: Freeze, now: int): Span
  {
    if f.to <= now then Span(f.from, f.to) else Span(f.from, f.from)
  }

  function NotedSpans(fs: seq<Freeze>, now: int): (xs: seq<Span>)
    ensures |xs| == |fs| && forall i | 0 <= i < |xs| :: xs[i] == NotedSpan(fs[i], now)
  {
    seq(|fs|, (i: nat) requires i < |fs| => NotedSpan(fs[i], now))
  }

  function ElsewhereSpan(f: Freeze, now: int, running: Option<nat>): Span
  {
    if f.to <= now && running != Some(f.inv) then Span(f.from, f.to) else Span(f.from, f.from)
  }

  function ElsewhereSpans(fs: seq<Freeze>, now: int, running: Option<nat>): (xs: seq<Span>)
    ensures |xs| == |fs| && forall i | 0 <= i < |xs| :: xs[i] == ElsewhereSpan(fs[i], now, running)
  {
    seq(|fs|, (i: nat) requires i < |fs| => ElsewhereSpan(fs[i], now, running))
  }

  predicate AllWell(invs: seq<Invocation>)
  {
    forall i | 0 <= i < |invs| :: Well(invs[i])
  }

  lemma LengthStep(xs: seq<Span>, init: seq<Span>)
    requires xs != [] && init == xs[..|xs| - 1]
    ensures Length(xs) == Length(init) + Max(0, xs[|xs| - 1].b - xs[|xs| - 1].a)
  {
  }

  /** Every record of a timeline can be added up. */
  lemma {:induction false} RecordsUsable(invs: seq<Invocation>, now: int)
    requires AllWell(invs)
    ensures forall r | r in Records(invs, now) :: Usable(r)
  {
    if invs != [] {
      RecordsUsable(invs[..|invs| - 1], now);
      assert Well(invs[|invs| - 1]);
    }
  }

  lemma ActiveAppend(rs: seq<Record>, r: Record, now: int)
    requires (forall x | x in rs :: Usable(x)) && Usable(r)
    ensures SumActive(rs + [r], now) == SumActive(rs, now) + ActiveOf(r, now)
  {
    assert (rs + [r])[..|rs|] == rs;
  }

  lemma DoneAppend(rs: seq<Record>, r: Record)
    requires (forall x | x in rs :: Usable(x)) && Usable(r)
    ensures SumDone(rs + [r]) == SumDone(rs) + DoneOf(r)
  {
    assert (rs + [r])[..|rs|] == rs;
  }

  lemma RecordStep(invs: seq<Invocation>, init: seq<Invocation>, now: int)
    requires invs != [] && init == invs[..|invs| - 1]
    ensures invs[|invs| - 1].start > now ==> Records(invs, now) == Records(init, now)
    ensures invs[|invs| - 1].start <= now ==>
      Records(invs, now) == Records(init, now) + [NextRecord(|init|, invs[|invs| - 1], now)]
  {
  }

  lemma {:induction false} ActiveSum(invs: seq<Invocation>, now: int)
    requires AllWell(invs)
    ensures forall r | r in Records(invs, now) :: Usable(r)
    ensures SumActive(Records(invs, now), now) == Length(BusySpans(invs, now))
  {
    RecordsUsable(invs, now);
    if invs != [] {
      var n, init := |invs| - 1, invs[..|invs| - 1];
      ActiveSum(init, now);
      LengthStep(BusySpans(invs, now), BusySpans(init, now));
      RecordStep(invs, init, now);
      assert Well(invs[n]);
      if invs[n].start <= now {
        ActiveAppend(Records(init, now), NextRecord(n, invs[n], now), now);
      }
    }
  }

  lemma {:induction false} DoneSum(invs: seq<Invocation>, now: int)
    requires AllWell(invs)
    ensures forall r | r in Records(invs, now) :: Usable(r)
    ensures SumDone(Records(invs, now)) == Length(OverSpans(invs, now))
  {
    RecordsUsable(invs, now);
    if invs != [] {
      var n, init := |invs| - 1, invs[..|invs| - 1];
      DoneSum(init, now);
      LengthStep(OverSpans(invs, now), OverSpans(init, now));
      RecordStep(invs, init, now);
      assert Well(invs[n]);
      if invs[n].start <= now {
        DoneAppend(Records(init, now), NextRecord(n, invs[n], now));
      }
    }
  }

  lemma EntryAppend(es: seq<Entry>, e: Entry, running: Option<nat>)
    ensures SumFreezes(es + [e])
         == SumFreezes(es) + if e.duration.Some? && e.duration.value >= 0 then e.duration.value else 0
    ensures SumElsewhere(es + [e], running)
         == SumElsewhere(es, running)
            + if e.duration.Some? && e.duration.value >= 0 && e.invocation != running then e.duration.value else 0
  {
    assert (es + [e])[..|es|] == es;
  }

  lemma LedgerStep(fs: seq<Freeze>, init: seq<Freeze>, now: int)
    requires fs != [] && init == fs[..|fs| - 1]
    ensures fs[|fs| - 1].to > now ==> Ledger(fs, now) == Ledger(init, now)
    ensures fs[|fs| - 1].to <= now ==> Ledger(fs, now) == Ledger(init, now) + [Noting(fs[|fs| - 1])]
  {
  }

  lemma {:induction false} LedgerSum(fs: seq<Freeze>, now: int)
    requires forall f | f in fs :: f.from <= f.to
    ensures SumFreezes(Ledger(fs, now)) == Length(NotedSpans(fs, now))
  {
    if fs != [] {
      var n, init := |fs| - 1, fs[..|fs| - 1];
      LedgerSum(init, now);
      LengthStep(NotedSpans(fs, now), NotedSpans(init, now));
      LedgerStep(fs, init, now);
      EntryAppend(Ledger(init, now), Noting(fs[n]), None);
    }
  }

  lemma {:induction false} LedgerSumElsewhere(fs: seq<Freeze>, now: int, running: Option<nat>)
    requires forall f | f in fs :: f.from <= f.to
    ensures SumElsewhere(Ledger(fs, now), running) == Length(ElsewhereSpans(fs, now, running))
  {
    if fs != [] {
      var n, init := |fs| - 1, fs[..|fs| - 1];
      LedgerSumElsewhere(init, now, running);
      LengthStep(ElsewhereSpans(fs, now, running), ElsewhereSpans(init, now, running));
      LedgerStep(fs, init, now);
      EntryAppend(Ledger(init, now), Noting(fs[n]), running);
    }
  }
}

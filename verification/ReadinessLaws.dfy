/** Adjusted active time counts the instants at which a trial really worked, and
    readiness only moves forward. */
module ReadinessLaws {
  import opened Collections
  import opened Readiness

  // ---- the sets behind the sums ----

  ghost function Busy(invs: seq<Invocation>, now: int): set<int>
  {
    Covered(BusySpans(invs, now))
  }

  ghost function Over(invs: seq<Invocation>, now: int): set<int>
  {
    Covered(OverSpans(invs, now))
  }

  ghost function Noted(fs: seq<Freeze>, now: int): set<int>
  {
    Covered(NotedSpans(fs, now))
  }

  ghost function Elsewhere(fs: seq<Freeze>, now: int, running: Option<nat>): set<int>
  {
    Covered(ElsewhereSpans(fs, now, running))
  }

  ghost predicate BusyAt(invs: seq<Invocation>, now: int, i: nat, t: int)
  {
    i < |invs| && invs[i].start <= t < Until(invs[i], now)
  }

  ghost predicate FrozenIn(fs: seq<Freeze>, j: nat, t: int)
  {
    j < |fs| && fs[j].from <= t < fs[j].to
  }

  lemma InBusy(invs: seq<Invocation>, now: int, t: int)
    ensures t in Busy(invs, now) <==> exists i: nat :: BusyAt(invs, now, i, t)
  {
    var xs := BusySpans(invs, now);
    CoveredAt(xs, t);
    if InSome(xs, t) {
      var i: nat :| i < |xs| && Has(xs[i], t);
      assert BusyAt(invs, now, i, t);
    }
    if i: nat :| BusyAt(invs, now, i, t) {
      assert Has(xs[i], t);
    }
  }

  lemma InOver(invs: seq<Invocation>, now: int, t: int)
    ensures t in Over(invs, now) <==> exists i: nat :: BusyAt(invs, now, i, t) && FinishedBy(invs[i], now)
  {
    var xs := OverSpans(invs, now);
    CoveredAt(xs, t);
    if InSome(xs, t) {
      var i: nat :| i < |xs| && Has(xs[i], t);
      assert BusyAt(invs, now, i, t) && FinishedBy(invs[i], now);
    }
    if i: nat :| BusyAt(invs, now, i, t) && FinishedBy(invs[i], now) {
      assert Has(xs[i], t);
    }
  }

  lemma InNoted(fs: seq<Freeze>, now: int, t: int)
    ensures t in Noted(fs, now) <==> exists j: nat :: FrozenIn(fs, j, t) && fs[j].to <= now
  {
    var xs := NotedSpans(fs, now);
    CoveredAt(xs, t);
    if InSome(xs, t) {
      var j: nat :| j < |xs| && Has(xs[j], t);
      assert FrozenIn(fs, j, t);
    }
    if j: nat :| FrozenIn(fs, j, t) && fs[j].to <= now {
      assert Has(xs[j], t);
    }
  }

  lemma InElsewhere(fs: seq<Freeze>, now: int, running: Option<nat>, t: int)
    ensures t in Elsewhere(fs, now, running) <==>
      exists j: nat :: FrozenIn(fs, j, t) && fs[j].to <= now && running != Some(fs[j].inv)
  {
    var xs := ElsewhereSpans(fs, now, running);
    CoveredAt(xs, t);
    if InSome(xs, t) {
      var j: nat :| j < |xs| && Has(xs[j], t);
      assert FrozenIn(fs, j, t);
    }
    if j: nat :| FrozenIn(fs, j, t) && fs[j].to <= now && running != Some(fs[j].inv) {
      assert Has(xs[j], t);
    }
  }

  lemma SpansApart(invs: seq<Invocation>, now: int)
    requires Sequential(invs)
    ensures AllApart(BusySpans(invs, now)) && AllApart(OverSpans(invs, now))
  {
    forall i, j | 0 <= i < j < |invs|
      ensures Apart(BusySpans(invs, now)[i], BusySpans(invs, now)[j]) && Apart(OverSpans(invs, now)[i], OverSpans(invs, now)[j])
    {
      assert Precedes(invs[i], invs[j]);
    }
  }

  lemma FreezesApart(fs: seq<Freeze>, now: int, running: Option<nat>)
    requires Disjoint(fs)
    ensures AllApart(NotedSpans(fs, now)) && AllApart(ElsewhereSpans(fs, now, running))
  {
  }

  // ---- what is running ----

  /** The invocation the records show as running. */
  function Current(invs: seq<Invocation>, now: int): Option<nat>
  {
    var rs := RunningOf(Records(invs, now));
    if rs == [] then None else Some(rs[0])
  }

  predicate IsRunning(invs: seq<Invocation>, now: int, i: nat)
  {
    i < |invs| && invs[i].start <= now && !FinishedBy(invs[i], now)
  }

  lemma SequentialPrefix(invs: seq<Invocation>)
    requires invs != [] && Sequential(invs)
    ensures Sequential(invs[..|invs| - 1])
  {
    var n := |invs| - 1;
    forall i, j | 0 <= i < j < n ensures Precedes(invs[..n][i], invs[..n][j]) {
      assert Precedes(invs[i], invs[j]);
    }
  }

  lemma RunningAppend(rs: seq<Record>, r: Record)
    ensures RunningOf(rs + [r]) == if r.Running? then RunningOf(rs) + [r.invocation] else RunningOf(rs)
  {
    assert (rs + [r])[..|rs|] == rs;
  }

  lemma RunningStep(invs: seq<Invocation>, init: seq<Invocation>, now: int)
    requires invs != [] && init == invs[..|invs| - 1]
    ensures RunningOf(Records(invs, now))
         == if IsRunning(invs, now, |invs| - 1) then RunningOf(Records(init, now)) + [|invs| - 1]
            else RunningOf(Records(init, now))
  {
    RunningAppend(Records(init, now), NextRecord(|init|, invs[|invs| - 1], now));
  }

  lemma {:induction false} NoneRunning(invs: seq<Invocation>, now: int)
    requires forall i: nat | i < |invs| :: !IsRunning(invs, now, i)
    ensures RunningOf(Records(invs, now)) == []
  {
    if invs != [] {
      var init := invs[..|invs| - 1];
      forall i: nat | i < |init| ensures !IsRunning(init, now, i) {
        assert init[i] == invs[i] && !IsRunning(invs, now, i);
      }
      NoneRunning(init, now);
      RunningStep(invs, init, now);
    }
  }

  lemma RunningAlone(invs: seq<Invocation>, now: int, i: nat)
    requires Sequential(invs) && i < |invs| - 1 && IsRunning(invs, now, |invs| - 1)
    ensures !IsRunning(invs[..|invs| - 1], now, i) && !IsRunning(invs, now, i)
  {
    assert Precedes(invs[i], invs[|invs| - 1]);
    assert invs[..|invs| - 1][i] == invs[i];
  }

  /** At most one record says running, and it is the invocation that is. */
  lemma {:induction false} RunningExact(invs: seq<Invocation>, now: int, i: nat)
    requires Sequential(invs)
    ensures |RunningOf(Records(invs, now))| <= 1
    ensures Current(invs, now) == Some(i) <==> IsRunning(invs, now, i)
  {
    if invs != [] {
      var n, init := |invs| - 1, invs[..|invs| - 1];
      SequentialPrefix(invs);
      RunningStep(invs, init, now);
      if IsRunning(invs, now, n) {
        forall k: nat | k < |init| ensures !IsRunning(init, now, k) {
          RunningAlone(invs, now, k);
        }
        NoneRunning(init, now);
        if i < n {
          RunningAlone(invs, now, i);
        }
      } else {
        RunningExact(init, now, i);
        assert i < n ==> init[i] == invs[i];
      }
    }
  }

  // ---- the adjusted times ----

  function Adjusted(invs: seq<Invocation>, fs: seq<Freeze>, now: int): int
    requires Sequential(invs)
  {
    RecordsUsable(invs, now);
    SumActive(Records(invs, now), now) - SumFreezes(Ledger(fs, now))
  }

  function AdjustedDone(invs: seq<Invocation>, fs: seq<Freeze>, now: int): int
    requires Sequential(invs)
  {
    RecordsUsable(invs, now);
    SumDone(Records(invs, now)) - SumElsewhere(Ledger(fs, now), Current(invs, now))
  }

  lemma FreezeIsBusy(invs: seq<Invocation>, fs: seq<Freeze>, now: int, j: nat, t: int)
    requires Timeline(invs, fs) && FrozenIn(fs, j, t) && t < now
    ensures BusyAt(invs, now, fs[j].inv, t)
  {
    assert fs[j] in fs;
  }

  lemma NotedIsBusy(invs: seq<Invocation>, fs: seq<Freeze>, now: int)
    requires Timeline(invs, fs)
    ensures Noted(fs, now) <= Busy(invs, now)
  {
    forall t | t in Noted(fs, now) ensures t in Busy(invs, now) {
      InNoted(fs, now, t);
      var j: nat :| FrozenIn(fs, j, t) && fs[j].to <= now;
      FreezeIsBusy(invs, fs, now, j, t);
      InBusy(invs, now, t);
    }
  }

  lemma ElsewhereIsOver(invs: seq<Invocation>, fs: seq<Freeze>, now: int)
    requires Timeline(invs, fs)
    ensures Elsewhere(fs, now, Current(invs, now)) <= Over(invs, now)
  {
    forall t | t in Elsewhere(fs, now, Current(invs, now)) ensures t in Over(invs, now) {
      InElsewhere(fs, now, Current(invs, now), t);
      var j: nat :| FrozenIn(fs, j, t) && fs[j].to <= now && Current(invs, now) != Some(fs[j].inv);
      FreezeIsBusy(invs, fs, now, j, t);
      RunningExact(invs, now, fs[j].inv);
      InOver(invs, now, t);
    }
  }

  /** The adjusted times are counts of instants, so clipping them at zero does nothing. */
  lemma AdjustedCounts(invs: seq<Invocation>, fs: seq<Freeze>, now: int)
    requires Timeline(invs, fs)
    ensures Adjusted(invs, fs, now) == |Busy(invs, now) - Noted(fs, now)| >= 0
    ensures AdjustedDone(invs, fs, now) == |Over(invs, now) - Elsewhere(fs, now, Current(invs, now))| >= 0
  {
    var c := Current(invs, now);
    ActiveSum(invs, now);
    DoneSum(invs, now);
    assert forall f | f in fs :: Inside(invs, f);
    LedgerSum(fs, now);
    LedgerSumElsewhere(fs, now, c);
    SpansApart(invs, now);
    FreezesApart(fs, now, c);
    CoveredSize(BusySpans(invs, now));
    CoveredSize(OverSpans(invs, now));
    CoveredSize(NotedSpans(fs, now));
    CoveredSize(ElsewhereSpans(fs, now, c));
    NotedIsBusy(invs, fs, now);
    ElsewhereIsOver(invs, fs, now);
    SubsetSize(Noted(fs, now), Busy(invs, now));
    SubsetSize(Elsewhere(fs, now, c), Over(invs, now));
  }

  // ---- real work ----

  ghost predicate Frozen(fs: seq<Freeze>, t: int)
  {
    exists j: nat :: FrozenIn(fs, j, t)
  }

  /** The instants before `now` at which an invocation ran and nothing was frozen. */
  ghost function Worked(invs: seq<Invocation>, fs: seq<Freeze>, now: int): set<int>
  {
    set t | t in Busy(invs, now) && !Frozen(fs, t)
  }

  ghost function WorkedOver(invs: seq<Invocation>, fs: seq<Freeze>, now: int): set<int>
  {
    set t | t in Over(invs, now) && !Frozen(fs, t)
  }

  predicate During(f: Freeze, now: int)
  {
    f.from < now < f.to
  }

  /** The trial is frozen right now. */
  predicate MidFreeze(fs: seq<Freeze>, now: int)
  {
    exists j: nat | j < |fs| :: During(fs[j], now)
  }

  lemma WorkedBound(invs: seq<Invocation>, fs: seq<Freeze>, now: int)
    requires Timeline(invs, fs)
    ensures Worked(invs, fs, now) <= Busy(invs, now) - Noted(fs, now)
    ensures !MidFreeze(fs, now) ==> Worked(invs, fs, now) == Busy(invs, now) - Noted(fs, now)
  {
    forall t | t in Worked(invs, fs, now) ensures t !in Noted(fs, now) {
      InNoted(fs, now, t);
    }
    if !MidFreeze(fs, now) {
      forall t | t in Busy(invs, now) && t !in Noted(fs, now) ensures !Frozen(fs, t) {
        InNoted(fs, now, t);
        InBusy(invs, now, t);
        if j: nat :| FrozenIn(fs, j, t) {
          assert fs[j].to > now && t < now;
          assert During(fs[j], now);
        }
      }
    }
  }

  lemma FreezeStartMissed(invs: seq<Invocation>, fs: seq<Freeze>, now: int, j: nat)
    requires Timeline(invs, fs) && j < |fs| && During(fs[j], now)
    ensures fs[j].from in Busy(invs, now) - Noted(fs, now) && fs[j].from !in Worked(invs, fs, now)
  {
    var t := fs[j].from;
    assert FrozenIn(fs, j, t);
    FreezeIsBusy(invs, fs, now, j, t);
    InBusy(invs, now, t);
    InNoted(fs, now, t);
    forall k: nat | FrozenIn(fs, k, t) ensures k == j {
    }
  }

  /** The adjusted active time is the time really worked exactly when the observation is
      not made in the middle of a freeze. */
  lemma AdjustedExact(invs: seq<Invocation>, fs: seq<Freeze>, now: int)
    requires Timeline(invs, fs)
    ensures Adjusted(invs, fs, now) >= |Worked(invs, fs, now)|
    ensures Adjusted(invs, fs, now) == |Worked(invs, fs, now)| <==> !MidFreeze(fs, now)
  {
    AdjustedCounts(invs, fs, now);
    WorkedBound(invs, fs, now);
    SubsetSize(Worked(invs, fs, now), Busy(invs, now) - Noted(fs, now));
    if j: nat :| j < |fs| && During(fs[j], now) {
      FreezeStartMissed(invs, fs, now, j);
      ProperSize(Worked(invs, fs, now), Busy(invs, now) - Noted(fs, now), fs[j].from);
    }
  }

  lemma OneInvocation(invs: seq<Invocation>, now: int, i: nat, k: nat, t: int)
    requires Sequential(invs) && BusyAt(invs, now, i, t) && BusyAt(invs, now, k, t)
    ensures i == k
  {
  }

  lemma OverFrozen(invs: seq<Invocation>, fs: seq<Freeze>, now: int, i: nat, j: nat, t: int)
    requires Timeline(invs, fs) && BusyAt(invs, now, i, t) && FinishedBy(invs[i], now) && FrozenIn(fs, j, t)
    ensures t in Elsewhere(fs, now, Current(invs, now))
  {
    FreezeIsBusy(invs, fs, now, j, t);
    OneInvocation(invs, now, i, fs[j].inv, t);
    RunningExact(invs, now, i);
    InElsewhere(fs, now, Current(invs, now), t);
    assert fs[j] in fs;
  }

  /** The adjusted completed time is exact at every moment. */
  lemma DoneExact(invs: seq<Invocation>, fs: seq<Freeze>, now: int)
    requires Timeline(invs, fs)
    ensures AdjustedDone(invs, fs, now) == |WorkedOver(invs, fs, now)|
  {
    AdjustedCounts(invs, fs, now);
    var c := Current(invs, now);
    forall t | t in Over(invs, now) ensures t in Elsewhere(fs, now, c) <==> Frozen(fs, t) {
      InOver(invs, now, t);
      InElsewhere(fs, now, c, t);
      var i: nat :| BusyAt(invs, now, i, t) && FinishedBy(invs[i], now);
      if j: nat :| FrozenIn(fs, j, t) {
        OverFrozen(invs, fs, now, i, j, t);
      }
    }
    assert WorkedOver(invs, fs, now) == Over(invs, now) - Elsewhere(fs, now, c);
  }

  // ---- time moves on ----

  lemma BusyGrows(invs: seq<Invocation>, now: int, later: int)
    requires Sequential(invs) && now <= later
    ensures Busy(invs, now) <= Busy(invs, later) && Over(invs, now) <= Over(invs, later)
  {
    forall t | t in Busy(invs, now) ensures t in Busy(invs, later) {
      InBusy(invs, now, t);
      InBusy(invs, later, t);
      var i: nat :| BusyAt(invs, now, i, t);
      assert BusyAt(invs, later, i, t);
    }
    forall t | t in Over(invs, now) ensures t in Over(invs, later) {
      InOver(invs, now, t);
      InOver(invs, later, t);
      var i: nat :| BusyAt(invs, now, i, t) && FinishedBy(invs[i], now);
      assert BusyAt(invs, later, i, t) && FinishedBy(invs[i], later);
    }
  }

  /** The adjusted completed time never drops. */
  lemma DoneGrows(invs: seq<Invocation>, fs: seq<Freeze>, now: int, later: int)
    requires Timeline(invs, fs) && now <= later
    ensures AdjustedDone(invs, fs, now) <= AdjustedDone(invs, fs, later)
  {
    BusyGrows(invs, now, later);
    DoneExact(invs, fs, now);
    DoneExact(invs, fs, later);
    SubsetSize(WorkedOver(invs, fs, now), WorkedOver(invs, fs, later));
  }

  lemma ActiveGrows(invs: seq<Invocation>, fs: seq<Freeze>, now: int, later: int)
    requires Timeline(invs, fs) && now <= later && !MidFreeze(fs, now)
    ensures Adjusted(invs, fs, now) <= Adjusted(invs, fs, later)
  {
    BusyGrows(invs, now, later);
    AdjustedExact(invs, fs, now);
    AdjustedExact(invs, fs, later);
    SubsetSize(Worked(invs, fs, now), Worked(invs, fs, later));
  }

  lemma FreezeEndsClear(fs: seq<Freeze>, now: int, j: nat)
    requires Disjoint(fs) && j < |fs| && During(fs[j], now)
    ensures !MidFreeze(fs, fs[j].to)
  {
  }

  lemma AlreadyBusy(invs: seq<Invocation>, now: int, later: int, t: int)
    requires Sequential(invs) && t < now <= later && t in Busy(invs, later)
    ensures t in Busy(invs, now)
  {
    InBusy(invs, later, t);
    var i: nat :| BusyAt(invs, later, i, t);
    assert BusyAt(invs, now, i, t);
    InBusy(invs, now, t);
  }

  lemma BusyIsPast(invs: seq<Invocation>, now: int, t: int)
    requires t in Busy(invs, now)
    ensures t < now
  {
    InBusy(invs, now, t);
  }

  /** From the observation to the end of the freeze nothing is worked. */
  lemma FreezeIsIdle(invs: seq<Invocation>, fs: seq<Freeze>, now: int, j: nat)
    requires Sequential(invs) && j < |fs| && During(fs[j], now)
    ensures Worked(invs, fs, fs[j].to) == Worked(invs, fs, now)
  {
    BusyGrows(invs, now, fs[j].to);
    forall t | t in Worked(invs, fs, fs[j].to) ensures t in Busy(invs, now) {
      assert !FrozenIn(fs, j, t);
      BusyIsPast(invs, fs[j].to, t);
      AlreadyBusy(invs, now, fs[j].to, t);
    }
  }

  /** Only one freeze is unfinished: the others are over or have not begun. */
  lemma OthersNoted(fs: seq<Freeze>, now: int, j: nat, k: nat, t: int)
    requires Disjoint(fs) && j < |fs| && During(fs[j], now) && FrozenIn(fs, k, t) && k != j && t < now
    ensures fs[k].to <= now
  {
  }

  lemma NotNotedYet(fs: seq<Freeze>, now: int, j: nat, t: int)
    requires Disjoint(fs) && j < |fs| && During(fs[j], now) && fs[j].from <= t < now
    ensures t !in Noted(fs, now)
  {
    InNoted(fs, now, t);
    forall k: nat | FrozenIn(fs, k, t) ensures k == j {
    }
  }

  lemma FrozenElsewhere(fs: seq<Freeze>, now: int, j: nat, t: int)
    requires Disjoint(fs) && j < |fs| && During(fs[j], now) && Frozen(fs, t) && t < fs[j].from
    ensures t in Noted(fs, now)
  {
    InNoted(fs, now, t);
    var k: nat :| FrozenIn(fs, k, t);
    OthersNoted(fs, now, j, k, t);
  }

  lemma UnnotedInFreeze(invs: seq<Invocation>, fs: seq<Freeze>, now: int, j: nat, t: int)
    requires Timeline(invs, fs) && j < |fs| && During(fs[j], now)
    ensures t in Busy(invs, now) - Noted(fs, now) <==> t in Worked(invs, fs, now) + Ticks(fs[j].from, now)
  {
    WorkedBound(invs, fs, now);
    if fs[j].from <= t < now {
      assert FrozenIn(fs, j, t);
      FreezeIsBusy(invs, fs, now, j, t);
      InBusy(invs, now, t);
      NotNotedYet(fs, now, j, t);
    } else if t in Busy(invs, now) {
      BusyIsPast(invs, now, t);
      if Frozen(fs, t) {
        FrozenElsewhere(fs, now, j, t);
      }
    }
  }

  /** Seen during a freeze, the adjusted active time is too high by the time the freeze
      has lasted so far. */
  lemma Overcount(invs: seq<Invocation>, fs: seq<Freeze>, now: int, j: nat)
    requires Timeline(invs, fs) && j < |fs| && During(fs[j], now)
    ensures Adjusted(invs, fs, now) == |Worked(invs, fs, now)| + (now - fs[j].from)
    ensures Adjusted(invs, fs, fs[j].to) == Adjusted(invs, fs, now) - (now - fs[j].from)
  {
    AdjustedCounts(invs, fs, now);
    forall t ensures t in Busy(invs, now) - Noted(fs, now) <==> t in Worked(invs, fs, now) + Ticks(fs[j].from, now) {
      UnnotedInFreeze(invs, fs, now, j, t);
    }
    assert Busy(invs, now) - Noted(fs, now) == Worked(invs, fs, now) + Ticks(fs[j].from, now);
    assert Worked(invs, fs, now) !! Ticks(fs[j].from, now) by {
      forall t | t in Ticks(fs[j].from, now) ensures Frozen(fs, t) {
        assert FrozenIn(fs, j, t);
      }
    }
    FreezeIsIdle(invs, fs, now, j);
    FreezeEndsClear(fs, now, j);
    AdjustedExact(invs, fs, fs[j].to);
  }

  /** The adjusted active time never drops after an observation exactly when that
      observation is not made in the middle of a freeze. */
  lemma AdjustedGrows(invs: seq<Invocation>, fs: seq<Freeze>, now: int)
    requires Timeline(invs, fs)
    ensures (forall later | now <= later :: Adjusted(invs, fs, now) <= Adjusted(invs, fs, later)) <==> !MidFreeze(fs, now)
  {
    if j: nat :| j < |fs| && During(fs[j], now) {
      Overcount(invs, fs, now, j);
      assert Adjusted(invs, fs, fs[j].to) < Adjusted(invs, fs, now);
    } else {
      forall later | now <= later ensures Adjusted(invs, fs, now) <= Adjusted(invs, fs, later) {
        ActiveGrows(invs, fs, now, later);
      }
    }
  }

  /** With nothing running, everything worked so far is completed. */
  lemma IdleIsOver(invs: seq<Invocation>, fs: seq<Freeze>, now: int)
    requires Timeline(invs, fs) && Current(invs, now) == None
    ensures Worked(invs, fs, now) == WorkedOver(invs, fs, now) && !MidFreeze(fs, now)
  {
    forall t | t in Busy(invs, now) ensures t in Over(invs, now) {
      InBusy(invs, now, t);
      InOver(invs, now, t);
      var i: nat :| BusyAt(invs, now, i, t);
      RunningExact(invs, now, i);
    }
    OverIsBusy(invs, now);
    if j: nat :| j < |fs| && During(fs[j], now) {
      assert fs[j] in fs;
      RunningExact(invs, now, fs[j].inv);
      assert false;
    }
  }

  // ---- readiness ----

  function Observe(invs: seq<Invocation>, now: int): Option<Trial>
    requires Sequential(invs)
  {
    RecordsUsable(invs, now);
    if Records(invs, now) == [] then None
    else Some(Trial(SumActive(Records(invs, now), now), Current(invs, now), SumDone(Records(invs, now))))
  }

  /** What the watcher concludes about a cutoff at a moment. */
  function ReadinessAt(invs: seq<Invocation>, fs: seq<Freeze>, now: int, cutoff: int): Ready
    requires Sequential(invs)
  {
    CaptureReadiness(Observe(invs, now), cutoff, SumFreezes(Ledger(fs, now)),
                     SumElsewhere(Ledger(fs, now), Current(invs, now)))
  }

  function Rank(r: Ready): nat
  {
    match r case Pending => 0 case Due => 1 case Late => 2
  }

  /** Readiness in terms of the adjusted times alone. */
  lemma ReadinessIs(invs: seq<Invocation>, fs: seq<Freeze>, now: int, cutoff: int)
    requires Timeline(invs, fs) && cutoff >= 1
    ensures ReadinessAt(invs, fs, now, cutoff)
         == if Adjusted(invs, fs, now) < cutoff then Pending
            else if Current(invs, now) == None || AdjustedDone(invs, fs, now) >= cutoff then Late
            else Due
  {
    AdjustedCounts(invs, fs, now);
    if Records(invs, now) == [] {
      NotedIsBusy(invs, fs, now);
      ActiveSum(invs, now);
      DoneSum(invs, now);
      assert forall f | f in fs :: Inside(invs, f);
      LedgerSum(fs, now);
      FreezesApart(fs, now, None);
      CoveredSize(NotedSpans(fs, now));
    }
  }

  lemma NeverBack(invs: seq<Invocation>, fs: seq<Freeze>, now: int, later: int, cutoff: int)
    requires Timeline(invs, fs) && now <= later && !MidFreeze(fs, now) && cutoff >= 1
    ensures Rank(ReadinessAt(invs, fs, now, cutoff)) <= Rank(ReadinessAt(invs, fs, later, cutoff))
  {
    ReadinessIs(invs, fs, now, cutoff);
    ReadinessIs(invs, fs, later, cutoff);
    ActiveGrows(invs, fs, now, later);
    DoneGrows(invs, fs, now, later);
    if Current(invs, now) == None {
      IdleIsOver(invs, fs, now);
      AdjustedExact(invs, fs, now);
      DoneExact(invs, fs, now);
    }
  }

  /** Seen during a freeze, a cutoff that falls into the time the freeze has lasted so far,
      and no other, looks due and is pending again once the freeze is over. */
  lemma MidFreezeGoesBack(invs: seq<Invocation>, fs: seq<Freeze>, now: int, j: nat, cutoff: int)
    requires Timeline(invs, fs) && j < |fs| && During(fs[j], now) && cutoff >= 1
    ensures ReadinessAt(invs, fs, now, cutoff) == Due && ReadinessAt(invs, fs, fs[j].to, cutoff) == Pending
       <==> Adjusted(invs, fs, now) - (now - fs[j].from) < cutoff <= Adjusted(invs, fs, now)
  {
    ReadinessIs(invs, fs, now, cutoff);
    ReadinessIs(invs, fs, fs[j].to, cutoff);
    Overcount(invs, fs, now, j);
    DoneExact(invs, fs, now);
    OverIsBusy(invs, now);
    SubsetSize(WorkedOver(invs, fs, now), Worked(invs, fs, now));
    if Current(invs, now) == None {
      IdleIsOver(invs, fs, now);
      assert false;
    }
  }

  /** Every cutoff only goes from pending to due to late after an observation exactly when
      that observation is not made in the middle of a freeze. */
  lemma OneWay(invs: seq<Invocation>, fs: seq<Freeze>, now: int)
    requires Timeline(invs, fs)
    ensures (forall later, cutoff | now <= later && cutoff >= 1 ::
               Rank(ReadinessAt(invs, fs, now, cutoff)) <= Rank(ReadinessAt(invs, fs, later, cutoff)))
       <==> !MidFreeze(fs, now)
  {
    if j: nat :| j < |fs| && During(fs[j], now) {
      var cutoff := Adjusted(invs, fs, now);
      Overcount(invs, fs, now, j);
      MidFreezeGoesBack(invs, fs, now, j, cutoff);
      assert Rank(ReadinessAt(invs, fs, now, cutoff)) > Rank(ReadinessAt(invs, fs, fs[j].to, cutoff));
    } else {
      forall later, cutoff | now <= later && cutoff >= 1
        ensures Rank(ReadinessAt(invs, fs, now, cutoff)) <= Rank(ReadinessAt(invs, fs, later, cutoff))
      {
        NeverBack(invs, fs, now, later, cutoff);
      }
    }
  }

  // ---- due means the cutoff was crossed in the running invocation ----

  ghost function Below(s: set<int>, x: int): set<int>
  {
    set t | t in s && t < x
  }

  lemma BelowStep(s: set<int>, x: int)
    ensures |Below(s, x + 1)| == |Below(s, x)| + if x in s then 1 else 0
  {
    assert Below(s, x + 1) == Below(s, x) + if x in s then {x} else {};
  }

  /** Counting up one by one passes every value. */
  lemma {:induction false} Crossing(s: set<int>, lo: int, hi: int, k: int) returns (t: int)
    requires lo <= hi && |Below(s, lo)| < k <= |Below(s, hi)|
    ensures lo <= t < hi && t in s && |Below(s, t)| == k - 1
    decreases hi - lo
  {
    BelowStep(s, hi - 1);
    assert lo < hi;
    if k <= |Below(s, hi - 1)| {
      t := Crossing(s, lo, hi - 1, k);
    } else {
      t := hi - 1;
    }
  }

  /** t is the cutoff-th instant of real work, and it fell into invocation i. */
  ghost predicate CrossedIn(invs: seq<Invocation>, fs: seq<Freeze>, now: int, cutoff: int, i: nat, t: int)
  {
    BusyAt(invs, now, i, t) && t in Worked(invs, fs, now) && |Below(Worked(invs, fs, now), t)| == cutoff - 1
  }

  lemma BeforeRunning(invs: seq<Invocation>, now: int, i: nat, k: nat, t: int)
    requires Sequential(invs) && IsRunning(invs, now, i) && BusyAt(invs, now, k, t)
    ensures t < now && (t < invs[i].start <==> FinishedBy(invs[k], now))
  {
    assert k < i ==> Precedes(invs[k], invs[i]);
  }

  lemma BusyBeforeRunning(invs: seq<Invocation>, now: int, i: nat, t: int)
    requires Sequential(invs) && IsRunning(invs, now, i) && t in Busy(invs, now)
    ensures t < now && (t < invs[i].start <==> t in Over(invs, now))
  {
    InBusy(invs, now, t);
    InOver(invs, now, t);
    forall k: nat | BusyAt(invs, now, k, t) ensures t < now && (t < invs[i].start <==> FinishedBy(invs[k], now)) {
      BeforeRunning(invs, now, i, k, t);
    }
  }

  lemma OverIsBusy(invs: seq<Invocation>, now: int)
    ensures Over(invs, now) <= Busy(invs, now)
  {
    forall t | t in Over(invs, now) ensures t in Busy(invs, now) {
      InBusy(invs, now, t);
      InOver(invs, now, t);
    }
  }

  /** Before the running invocation began, exactly the completed work was done. */
  lemma StartOfRunning(invs: seq<Invocation>, fs: seq<Freeze>, now: int, i: nat)
    requires Timeline(invs, fs) && IsRunning(invs, now, i)
    ensures Below(Worked(invs, fs, now), invs[i].start) == WorkedOver(invs, fs, now)
    ensures Below(Worked(invs, fs, now), now) == Worked(invs, fs, now)
  {
    forall t | t in Busy(invs, now) ensures t < now && (t < invs[i].start <==> t in Over(invs, now)) {
      BusyBeforeRunning(invs, now, i, t);
    }
    OverIsBusy(invs, now);
  }

  /** Seen outside a freeze, a cutoff is due exactly when its instant of real work lies in
      the invocation that is running. */
  lemma DueExact(invs: seq<Invocation>, fs: seq<Freeze>, now: int, cutoff: int)
    requires Timeline(invs, fs) && !MidFreeze(fs, now) && cutoff >= 1
    ensures ReadinessAt(invs, fs, now, cutoff) == Due <==> CrossedNow(invs, fs, now, cutoff)
  {
    ReadinessIs(invs, fs, now, cutoff);
    AdjustedExact(invs, fs, now);
    DoneExact(invs, fs, now);
    var s := Worked(invs, fs, now);
    if ReadinessAt(invs, fs, now, cutoff) == Due {
      var i := Current(invs, now).value;
      RunningExact(invs, now, i);
      StartOfRunning(invs, fs, now, i);
      var t := Crossing(s, invs[i].start, now, cutoff);
      assert IsRunning(invs, now, i) && CrossedIn(invs, fs, now, cutoff, i, t);
    }
    if i: nat, t: int :| IsRunning(invs, now, i) && CrossedIn(invs, fs, now, cutoff, i, t) {
      CrossedIsDue(invs, fs, now, cutoff, i, t);
    }
  }

  lemma CrossedIsDue(invs: seq<Invocation>, fs: seq<Freeze>, now: int, cutoff: int, i: nat, t: int)
    requires Timeline(invs, fs) && cutoff >= 1 && IsRunning(invs, now, i) && CrossedIn(invs, fs, now, cutoff, i, t)
    ensures Current(invs, now) == Some(i)
    ensures |WorkedOver(invs, fs, now)| < cutoff <= |Worked(invs, fs, now)|
  {
    var s := Worked(invs, fs, now);
    RunningExact(invs, now, i);
    StartOfRunning(invs, fs, now, i);
    BelowStep(s, t);
    SubsetSize(Below(s, t + 1), s);
    SubsetSize(Below(s, invs[i].start), Below(s, t));
  }


  // ---- late and pending ----

  /** The cutoff's instant of real work fell into an invocation that is over. */
  ghost predicate CrossedEarlier(invs: seq<Invocation>, fs: seq<Freeze>, now: int, cutoff: int)
  {
    exists i: nat, t: int :: i < |invs| && FinishedBy(invs[i], now) && CrossedIn(invs, fs, now, cutoff, i, t)
  }

  /** It fell into the invocation that is running. */
  ghost predicate CrossedNow(invs: seq<Invocation>, fs: seq<Freeze>, now: int, cutoff: int)
  {
    exists i: nat, t: int :: IsRunning(invs, now, i) && CrossedIn(invs, fs, now, cutoff, i, t)
  }

  lemma NoneBeforeFirst(invs: seq<Invocation>, fs: seq<Freeze>, now: int)
    requires Sequential(invs) && invs != []
    ensures Below(Worked(invs, fs, now), invs[0].start) == {} && Below(Worked(invs, fs, now), now) == Worked(invs, fs, now)
  {
    forall t | t in Worked(invs, fs, now) ensures invs[0].start <= t < now {
      InBusy(invs, now, t);
      var i: nat :| BusyAt(invs, now, i, t);
      assert i > 0 ==> Precedes(invs[0], invs[i]);
      assert Well(invs[0]);
      BusyIsPast(invs, now, t);
    }
  }

  /** Enough work means that the cutoff's instant is somewhere. */
  lemma SomeCrossing(invs: seq<Invocation>, fs: seq<Freeze>, now: int, cutoff: int) returns (i: nat, t: int)
    requires Sequential(invs) && 1 <= cutoff <= |Worked(invs, fs, now)|
    ensures CrossedIn(invs, fs, now, cutoff, i, t)
  {
    var s := Worked(invs, fs, now);
    assert invs == [] ==> Covered(BusySpans(invs, now)) == {} && s == {};
    NoneBeforeFirst(invs, fs, now);
    t := Crossing(s, Least(invs[0].start, now), now, cutoff);
    InBusy(invs, now, t);
    i :| BusyAt(invs, now, i, t);
  }

  function Least(a: int, b: int): int
  {
    if a < b then a else b
  }

  lemma SameInstant(s: set<int>, t: int, u: int)
    requires t in s && u in s && |Below(s, t)| == |Below(s, u)|
    ensures t == u
  {
    if t < u {
      ProperSize(Below(s, t), Below(s, u), t);
    } else if u < t {
      ProperSize(Below(s, u), Below(s, t), u);
    }
  }

  lemma CrossedEnough(invs: seq<Invocation>, fs: seq<Freeze>, now: int, cutoff: int, i: nat, t: int)
    requires CrossedIn(invs, fs, now, cutoff, i, t)
    ensures cutoff <= |Worked(invs, fs, now)|
  {
    var s := Worked(invs, fs, now);
    BelowStep(s, t);
    SubsetSize(Below(s, t + 1), s);
  }

  /** Seen outside a freeze, a cutoff is pending exactly while there has been less real work
      than that. */
  lemma PendingExact(invs: seq<Invocation>, fs: seq<Freeze>, now: int, cutoff: int)
    requires Timeline(invs, fs) && !MidFreeze(fs, now) && cutoff >= 1
    ensures ReadinessAt(invs, fs, now, cutoff) == Pending <==> |Worked(invs, fs, now)| < cutoff
  {
    ReadinessIs(invs, fs, now, cutoff);
    AdjustedExact(invs, fs, now);
  }

  lemma NotBoth(invs: seq<Invocation>, fs: seq<Freeze>, now: int, cutoff: int, i: nat, t: int, k: nat, u: int)
    requires Sequential(invs) && i < |invs| && FinishedBy(invs[i], now) && CrossedIn(invs, fs, now, cutoff, i, t)
    requires CrossedIn(invs, fs, now, cutoff, k, u)
    ensures !IsRunning(invs, now, k)
  {
    SameInstant(Worked(invs, fs, now), t, u);
    OneInvocation(invs, now, i, k, t);
  }

  /** Seen outside a freeze, a cutoff is late exactly when its instant of real work lies in
      an invocation that is over. */
  lemma LateExact(invs: seq<Invocation>, fs: seq<Freeze>, now: int, cutoff: int)
    requires Timeline(invs, fs) && !MidFreeze(fs, now) && cutoff >= 1
    ensures ReadinessAt(invs, fs, now, cutoff) == Late <==> CrossedEarlier(invs, fs, now, cutoff)
  {
    PendingExact(invs, fs, now, cutoff);
    DueExact(invs, fs, now, cutoff);
    if ReadinessAt(invs, fs, now, cutoff) == Late {
      var i, t := SomeCrossing(invs, fs, now, cutoff);
      assert FinishedBy(invs[i], now) by {
        assert !FinishedBy(invs[i], now) ==> IsRunning(invs, now, i);
      }
    }
    if i: nat, t: int :| i < |invs| && FinishedBy(invs[i], now) && CrossedIn(invs, fs, now, cutoff, i, t) {
      CrossedEnough(invs, fs, now, cutoff, i, t);
      forall k: nat, u: int | CrossedIn(invs, fs, now, cutoff, k, u) ensures !IsRunning(invs, now, k) {
        NotBoth(invs, fs, now, cutoff, i, t, k, u);
      }
    }
  }
}

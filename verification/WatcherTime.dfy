/** The watcher's polls on the trial's own time: captures freeze the trial, and the arm of a
    capture in flight is not polled, so no poll ever sees a freeze from within. */
module WatcherTime {
  import opened Collections
  import opened Watcher
  import opened WatcherLaws
  import R = Readiness
  import T = ReadinessLaws

  /** Actions, and the moment of each. */
  datatype Log = Log(acts: seq<Action>, clock: seq<int>)

  predicate Timed(log: Log)
  {
    |log.acts| == |log.clock| && forall i, j | 0 <= i <= j < |log.clock| :: log.clock[i] <= log.clock[j]
  }

  /** The watcher when action i begins. */
  function At(index: seq<Arm>, log: Log, times: seq<int>, max: nat, i: nat): State
    requires i <= |log.acts|
  {
    Run(Start(index), log.acts[..i], times, max)
  }

  lemma AtNext(index: seq<Arm>, log: Log, times: seq<int>, max: nat, i: nat)
    requires Initial(index, |times|) && max >= 1 && i < |log.acts|
    ensures var s := At(index, log, times, max, i);
      Good(s, times, max) && Shaped(s, times) && At(index, log, times, max, i + 1) == Apply(s, log.acts[i], times, max)
  {
    RunGood(index, log.acts[..i], times, max);
    GoodShaped(At(index, log, times, max, i), times, max);
    assert log.acts[..i + 1][..i] == log.acts[..i];
  }

  /** A poll that takes effect: the others are skipped. */
  predicate Polls(s: State, act: Action, a: nat)
  {
    act.Scan? && act.a == a && !s.complete && a < |s.index| && a !in s.keys
  }

  /** Action p starts the capture that becomes future g. */
  predicate Starts(s: State, act: Action, times: seq<int>, a: nat, g: Future)
    requires Shaped(s, times)
  {
    Polls(s, act, a) && ScanArm(s.index[a], act.look, times).1.Some? && g == s.next
  }

  /** Between actions p and q future g is not collected and the watcher not restarted. */
  predicate Flying(acts: seq<Action>, p: nat, q: nat, g: Future)
  {
    forall k | p < k < q && k < |acts| :: acts[k] != Restart && !(acts[k].Harvest? && acts[k].f == g)
  }

  predicate Carries(s: State, g: Future, a: nat)
  {
    g in s.inflight && s.inflight[g].0 == a
  }

  lemma FlyingStep(s: State, s': State, act: Action, times: seq<int>, max: nat, g: Future, a: nat)
    requires Good(s, times, max) && Shaped(s, times) && Carries(s, g, a) && s' == Apply(s, act, times, max)
    requires act != Restart && !(act.Harvest? && act.f == g)
    ensures Carries(s', g, a)
  {
    assert Flies(s, g);
  }

  lemma FlyingStart(s: State, s': State, act: Action, times: seq<int>, max: nat, g: Future, a: nat)
    requires Shaped(s, times) && Starts(s, act, times, a, g) && s' == Apply(s, act, times, max)
    ensures Carries(s', g, a)
  {
  }

  lemma {:induction false} InFlight(index: seq<Arm>, log: Log, times: seq<int>, max: nat, a: nat, p: nat, g: Future, k: nat)
    requires Initial(index, |times|) && max >= 1 && p < k <= |log.acts| && Flying(log.acts, p, k, g)
    requires Shaped(At(index, log, times, max, p), times)
    requires Starts(At(index, log, times, max, p), log.acts[p], times, a, g)
    ensures Carries(At(index, log, times, max, k), g, a)
    decreases k
  {
    var i := k - 1;
    AtNext(index, log, times, max, i);
    if i == p {
      FlyingStart(At(index, log, times, max, i), At(index, log, times, max, k), log.acts[i], times, max, g, a);
    } else {
      InFlight(index, log, times, max, a, p, g, i);
      FlyingStep(At(index, log, times, max, i), At(index, log, times, max, k), log.acts[i], times, max, g, a);
    }
  }

  /** While its capture is in flight an arm is not polled. */
  lemma NotPolled(index: seq<Arm>, log: Log, times: seq<int>, max: nat, a: nat, p: nat, g: Future, k: nat)
    requires Initial(index, |times|) && max >= 1 && p < k < |log.acts| && Flying(log.acts, p, k, g)
    requires Shaped(At(index, log, times, max, p), times)
    requires Starts(At(index, log, times, max, p), log.acts[p], times, a, g)
    ensures !Polls(At(index, log, times, max, k), log.acts[k], a)
  {
    InFlight(index, log, times, max, a, p, g, k);
    AtNext(index, log, times, max, k);
    assert Flies(At(index, log, times, max, k), g);
  }

  /** The freeze lies within the flight of a capture of arm a, from its start at action p to
      the action q that collects it, if there is one. */
  ghost predicate Covers(index: seq<Arm>, log: Log, times: seq<int>, max: nat, a: nat, f: R.Freeze, p: nat, q: nat)
    requires Timed(log)
  {
    && p < q <= |log.acts|
    && Shaped(At(index, log, times, max, p), times)
    && Starts(At(index, log, times, max, p), log.acts[p], times, a, At(index, log, times, max, p).next)
    && Flying(log.acts, p, q, At(index, log, times, max, p).next)
    && log.clock[p] <= f.from && (q < |log.acts| ==> f.to <= log.clock[q])
  }

  ghost predicate FrozenByCapture(index: seq<Arm>, log: Log, times: seq<int>, max: nat, a: nat, f: R.Freeze)
    requires Timed(log)
  {
    exists p: nat, q: nat :: Covers(index, log, times, max, a, f, p, q)
  }

  lemma PollOutside(index: seq<Arm>, log: Log, times: seq<int>, max: nat, a: nat, f: R.Freeze, p: nat, q: nat, i: nat)
    requires Initial(index, |times|) && max >= 1 && Timed(log) && Covers(index, log, times, max, a, f, p, q)
    requires i < |log.acts| && Polls(At(index, log, times, max, i), log.acts[i], a)
    ensures !T.During(f, log.clock[i])
  {
    if T.During(f, log.clock[i]) {
      assert p < i && i < q;
      NotPolled(index, log, times, max, a, p, At(index, log, times, max, p).next, i);
      assert false;
    }
  }

  /** When a trial is only ever frozen by captures of its own arm, no poll of the arm happens
      in the middle of a freeze. */
  lemma PollsOutsideFreezes(index: seq<Arm>, log: Log, times: seq<int>, max: nat, a: nat, fs: seq<R.Freeze>, i: nat)
    requires Initial(index, |times|) && max >= 1 && Timed(log)
    requires forall f | f in fs :: FrozenByCapture(index, log, times, max, a, f)
    requires i < |log.acts| && Polls(At(index, log, times, max, i), log.acts[i], a)
    ensures !T.MidFreeze(fs, log.clock[i])
  {
    forall j: nat | j < |fs| ensures !T.During(fs[j], log.clock[i]) {
      assert fs[j] in fs;
      var p: nat, q: nat :| Covers(index, log, times, max, a, fs[j], p, q);
      PollOutside(index, log, times, max, a, fs[j], p, q, i);
    }
  }

  // ---- what the polls find ----

  /** The look shows the trial as it is at the moment. */
  predicate ShowsTrial(invs: seq<R.Invocation>, fs: seq<R.Freeze>, now: int, look: Look)
    requires R.Sequential(invs)
  {
    match T.Observe(invs, now)
    case None => look.seen == None
    case Some(trial) =>
      && look.seen.Some? && look.seen.value.trial == trial
      && look.seen.value.freeze == R.SumFreezes(R.Ledger(fs, now))
      && look.seen.value.completedFreeze == R.SumElsewhere(R.Ledger(fs, now), T.Current(invs, now))
  }

  lemma ReadinessShown(invs: seq<R.Invocation>, fs: seq<R.Freeze>, now: int, look: Look, cutoff: int)
    requires R.Sequential(invs) && ShowsTrial(invs, fs, now, look)
    ensures ReadinessOf(look, cutoff) == T.ReadinessAt(invs, fs, now, cutoff)
  {
  }

  /** Arm a's polls see this trial, which is frozen by captures of the arm alone. */
  ghost predicate Watched(index: seq<Arm>, log: Log, times: seq<int>, max: nat, a: nat, invs: seq<R.Invocation>, fs: seq<R.Freeze>)
  {
    && Timed(log) && R.Timeline(invs, fs)
    && (forall f | f in fs :: FrozenByCapture(index, log, times, max, a, f))
    && (forall i: nat | i < |log.acts| && log.acts[i].Scan? && log.acts[i].a == a ::
          ShowsTrial(invs, fs, log.clock[i], log.acts[i].look))
  }

  /** Over every run of the watcher, the readiness of every cutoff only goes from pending to
      due to late from one poll of the arm to any later one. */
  lemma PollsOneWay(index: seq<Arm>, log: Log, times: seq<int>, max: nat, a: nat,
                    invs: seq<R.Invocation>, fs: seq<R.Freeze>, i: nat, j: nat, cutoff: int)
    requires Initial(index, |times|) && max >= 1 && Watched(index, log, times, max, a, invs, fs) && cutoff >= 1
    requires i <= j < |log.acts| && Polls(At(index, log, times, max, i), log.acts[i], a)
    requires Polls(At(index, log, times, max, j), log.acts[j], a)
    ensures T.Rank(ReadinessOf(log.acts[i].look, cutoff)) <= T.Rank(ReadinessOf(log.acts[j].look, cutoff))
  {
    PollsOutsideFreezes(index, log, times, max, a, fs, i);
    ReadinessShown(invs, fs, log.clock[i], log.acts[i].look, cutoff);
    ReadinessShown(invs, fs, log.clock[j], log.acts[j].look, cutoff);
    T.NeverBack(invs, fs, log.clock[i], log.clock[j], cutoff);
  }

  /** Over every run of the watcher, a capture is started only while the invocation is
      running in which the cutoff's instant of real work fell. */
  lemma CapturesOnTime(index: seq<Arm>, log: Log, times: seq<int>, max: nat, a: nat,
                       invs: seq<R.Invocation>, fs: seq<R.Freeze>, i: nat)
    returns (c: nat, n: nat, t: int)
    requires Initial(index, |times|) && max >= 1 && Watched(index, log, times, max, a, invs, fs) && i < |log.acts|
    requires forall k | 0 <= k < |times| :: times[k] >= 1
    requires var s := At(index, log, times, max, i); Shaped(s, times) && Starts(s, log.acts[i], times, a, s.next)
    ensures c < |times| && ScanArm(At(index, log, times, max, i).index[a], log.acts[i].look, times).1 == Some(c)
    ensures T.IsRunning(invs, log.clock[i], n) && T.CrossedIn(invs, fs, log.clock[i], times[c], n, t)
  {
    var s := At(index, log, times, max, i);
    c := ScanArm(s.index[a], log.acts[i].look, times).1.value;
    PollsOutsideFreezes(index, log, times, max, a, fs, i);
    ReadinessShown(invs, fs, log.clock[i], log.acts[i].look, times[c]);
    T.DueExact(invs, fs, log.clock[i], times[c]);
    assert T.CrossedNow(invs, fs, log.clock[i], times[c]);
    n, t :| T.IsRunning(invs, log.clock[i], n) && T.CrossedIn(invs, fs, log.clock[i], times[c], n, t);
  }


  // ---- what a poll does ----

  /** The arm belongs to another trial than the one seen. */
  predicate Replaced(arm: Arm, look: Look)
  {
    look.seen.Some? && arm.trial != None && arm.trial != Some(look.seen.value.name)
  }

  /** A running arm: every cutoff but the first pending one is as before; that one is given up
      when its instant of real work lies in an invocation that is over, captured when it lies
      in the running one, and left alone otherwise. */
  ghost predicate PollsRunning(s: State, s': State, times: seq<int>, a: nat, invs: seq<R.Invocation>, fs: seq<R.Freeze>, now: int)
    requires a < |s.index| && |s.index[a].cutoffs| == |times|
  {
    var cs, c := s.index[a].cutoffs, FirstPending(s.index[a].cutoffs);
    && |s'.index| == |s.index| && |s'.index[a].cutoffs| == |times|
    && (forall k | 0 <= k < |times| && k != c :: s'.index[a].cutoffs[k] == cs[k])
    && (c < |times| ==>
          s'.index[a].cutoffs[c] ==
            if T.CrossedEarlier(invs, fs, now, times[c]) then cs[c].(status := LateUnavailable)
            else if T.CrossedNow(invs, fs, now, times[c]) then Cutoff(Capturing, cs[c].attempts + 1)
            else cs[c])
    && if c < |times| && !T.CrossedEarlier(invs, fs, now, times[c]) && T.CrossedNow(invs, fs, now, times[c])
       then s'.inflight == s.inflight[s.next := (a, c)] && s'.keys == s.keys + {a}
       else s'.inflight == s.inflight && s'.keys == s.keys
  }

  /** An arm that has ended: nothing stays pending. */
  ghost predicate PollsEnded(s: State, s': State, times: seq<int>, a: nat, worked: nat)
    requires a < |s.index| && |s.index[a].cutoffs| == |times|
  {
    var cs := s.index[a].cutoffs;
    && |s'.index| == |s.index| && |s'.index[a].cutoffs| == |times| && s'.inflight == s.inflight && s'.keys == s.keys
    && forall k | 0 <= k < |times| ::
         s'.index[a].cutoffs[k] ==
           if cs[k].status != Pending then cs[k]
           else cs[k].(status := if worked >= times[k] then LateUnavailable else NotReached)
  }

  ghost predicate PollsReplaced(s: State, s': State, times: seq<int>, a: nat)
    requires a < |s.index| && |s.index[a].cutoffs| == |times|
  {
    && |s'.index| == |s.index| && |s'.index[a].cutoffs| == |times| && s'.inflight == s.inflight && s'.keys == s.keys
    && forall k | 0 <= k < |times| :: s'.index[a].cutoffs[k] == s.index[a].cutoffs[k].(status := Failed)
  }

  lemma ReadinessCrossed(invs: seq<R.Invocation>, fs: seq<R.Freeze>, now: int, look: Look, cutoff: int)
    requires R.Timeline(invs, fs) && !T.MidFreeze(fs, now) && cutoff >= 1 && ShowsTrial(invs, fs, now, look)
    ensures ReadinessOf(look, cutoff) ==
      if T.CrossedEarlier(invs, fs, now, cutoff) then R.Late
      else if T.CrossedNow(invs, fs, now, cutoff) then R.Due
      else R.Pending
  {
    ReadinessShown(invs, fs, now, look, cutoff);
    T.LateExact(invs, fs, now, cutoff);
    T.DueExact(invs, fs, now, cutoff);
  }

  lemma EndShown(invs: seq<R.Invocation>, fs: seq<R.Freeze>, now: int, look: Look)
    requires R.Timeline(invs, fs) && !T.MidFreeze(fs, now) && ShowsTrial(invs, fs, now, look)
    ensures IsOver(look) <==> look.terminal && T.Current(invs, now) == None
    ensures FinalActive(look) == |T.Worked(invs, fs, now)|
  {
    T.AdjustedExact(invs, fs, now);
    if T.Observe(invs, now) == None {
      assert R.Records(invs, now) == [];
      T.ReadinessIs(invs, fs, now, 1);
    }
  }

  lemma ScanRunning(arm: Arm, look: Look, times: seq<int>, c: nat, r: R.Ready)
    requires |times| == |arm.cutoffs| && !Replaced(arm, look) && !IsOver(look)
    requires c == FirstPending(arm.cutoffs) < |times| && r == ReadinessOf(look, times[c])
    ensures ScanArm(arm, look, times).0.cutoffs == match r
      case Pending => arm.cutoffs
      case Late => arm.cutoffs[c := arm.cutoffs[c].(status := LateUnavailable)]
      case Due => arm.cutoffs[c := Cutoff(Capturing, arm.cutoffs[c].attempts + 1)]
    ensures ScanArm(arm, look, times).1 == if r == R.Due then Some(c) else None
  {
  }

  lemma ScanNothing(arm: Arm, look: Look, times: seq<int>)
    requires |times| == |arm.cutoffs| && !Replaced(arm, look) && FirstPending(arm.cutoffs) == |times|
    ensures ScanArm(arm, look, times).0.cutoffs == arm.cutoffs && ScanArm(arm, look, times).1 == None
  {
  }

  lemma ScanEnded(arm: Arm, look: Look, times: seq<int>)
    requires |times| == |arm.cutoffs| && !Replaced(arm, look) && IsOver(look)
    ensures ScanArm(arm, look, times).0.cutoffs == AllEnded(arm.cutoffs, times, FinalActive(look))
    ensures ScanArm(arm, look, times).1 == None
  {
    if FirstPending(arm.cutoffs) == |times| {
      assert AllEnded(arm.cutoffs, times, FinalActive(look)) == arm.cutoffs;
    }
  }

  lemma PollIs(s: State, s': State, times: seq<int>, max: nat, a: nat, look: Look)
    requires Shaped(s, times) && Polls(s, Scan(a, look), a) && s' == Apply(s, Scan(a, look), times, max)
    ensures var (arm, due) := ScanArm(s.index[a], look, times);
      && s'.index == s.index[a := arm]
      && s'.inflight == (if due == None then s.inflight else s.inflight[s.next := (a, due.value)])
      && s'.keys == if due == None then s.keys else s.keys + {a}
  {
  }

  lemma PollRunning(s: State, s': State, times: seq<int>, max: nat, a: nat, invs: seq<R.Invocation>, fs: seq<R.Freeze>,
                    now: int, look: Look)
    requires Shaped(s, times) && Polls(s, Scan(a, look), a) && s' == Apply(s, Scan(a, look), times, max)
    requires R.Timeline(invs, fs) && !T.MidFreeze(fs, now) && ShowsTrial(invs, fs, now, look)
    requires forall k | 0 <= k < |times| :: times[k] >= 1
    requires !Replaced(s.index[a], look) && !(look.terminal && T.Current(invs, now) == None)
    ensures PollsRunning(s, s', times, a, invs, fs, now)
  {
    EndShown(invs, fs, now, look);
    PollIs(s, s', times, max, a, look);
    var c := FirstPending(s.index[a].cutoffs);
    if c < |times| {
      ReadinessCrossed(invs, fs, now, look, times[c]);
      ScanRunning(s.index[a], look, times, c, ReadinessOf(look, times[c]));
    } else {
      ScanNothing(s.index[a], look, times);
    }
  }

  lemma PollEnded(s: State, s': State, times: seq<int>, max: nat, a: nat, invs: seq<R.Invocation>, fs: seq<R.Freeze>,
                  now: int, look: Look)
    requires Shaped(s, times) && Polls(s, Scan(a, look), a) && s' == Apply(s, Scan(a, look), times, max)
    requires R.Timeline(invs, fs) && !T.MidFreeze(fs, now) && ShowsTrial(invs, fs, now, look)
    requires !Replaced(s.index[a], look) && look.terminal && T.Current(invs, now) == None
    ensures PollsEnded(s, s', times, a, |T.Worked(invs, fs, now)|)
  {
    EndShown(invs, fs, now, look);
    PollIs(s, s', times, max, a, look);
    ScanEnded(s.index[a], look, times);
  }

  lemma PollReplaced(s: State, s': State, times: seq<int>, max: nat, a: nat, look: Look)
    requires Shaped(s, times) && Polls(s, Scan(a, look), a) && s' == Apply(s, Scan(a, look), times, max)
    requires Replaced(s.index[a], look)
    ensures PollsReplaced(s, s', times, a)
  {
  }

  /** The arm belongs to the first trial seen under it; no other arm changes. */
  ghost predicate PollsOwnArm(s: State, s': State, a: nat, look: Look)
  {
    && a < |s.index| == |s'.index| && (forall b | 0 <= b < |s.index| && b != a :: s'.index[b] == s.index[b])
    && s'.index[a].trial ==
         if s.index[a].trial == None && look.seen.Some? then Some(look.seen.value.name) else s.index[a].trial
  }

  lemma PollBinds(s: State, s': State, times: seq<int>, max: nat, a: nat, look: Look)
    requires Shaped(s, times) && Polls(s, Scan(a, look), a) && s' == Apply(s, Scan(a, look), times, max)
    ensures PollsOwnArm(s, s', a, look)
  {
    PollIs(s, s', times, max, a, look);
  }

  /** Over every run of the watcher, exactly what an effective poll of an arm does, on the
      trial's own time. */
  lemma PollExactly(index: seq<Arm>, log: Log, times: seq<int>, max: nat, a: nat,
                    invs: seq<R.Invocation>, fs: seq<R.Freeze>, i: nat)
    requires Initial(index, |times|) && max >= 1 && Watched(index, log, times, max, a, invs, fs) && i < |log.acts|
    requires (forall k | 0 <= k < |times| :: times[k] >= 1) && Polls(At(index, log, times, max, i), log.acts[i], a)
    ensures var s, s', look, now := At(index, log, times, max, i), At(index, log, times, max, i + 1), log.acts[i].look, log.clock[i];
      && |s.index[a].cutoffs| == |times| && PollsOwnArm(s, s', a, look)
      && if Replaced(s.index[a], look) then PollsReplaced(s, s', times, a)
         else if look.terminal && T.Current(invs, now) == None then PollsEnded(s, s', times, a, |T.Worked(invs, fs, now)|)
         else PollsRunning(s, s', times, a, invs, fs, now)
  {
    var s, s', look, now := At(index, log, times, max, i), At(index, log, times, max, i + 1), log.acts[i].look, log.clock[i];
    AtNext(index, log, times, max, i);
    PollsOutsideFreezes(index, log, times, max, a, fs, i);
    PollBinds(s, s', times, max, a, look);
    if Replaced(s.index[a], look) {
      PollReplaced(s, s', times, max, a, look);
    } else if look.terminal && T.Current(invs, now) == None {
      PollEnded(s, s', times, max, a, invs, fs, now, look);
    } else {
      PollRunning(s, s', times, max, a, invs, fs, now, look);
    }
  }
}

/** What holds in every reachable state of the watcher, restarts included. */
module WatcherLaws {
  import opened Collections
  import opened Watcher
  import R = Readiness

  // ---- one arm's row of cutoffs ----

  type Row = seq<Cutoff>

  /** Only finished cutoffs precede one that is being captured. */
  predicate Orderly(cs: Row)
  {
    forall i, j | 0 <= i < j < |cs| && !Terminal(cs[i].status) :: cs[j].status != Capturing
  }

  /** A stretch of finished cutoffs, then at most one being captured, then pending ones. */
  predicate InOrder(cs: Row)
  {
    forall i, j | 0 <= i < j < |cs| && !Terminal(cs[i].status) :: cs[j].status == Pending
  }

  predicate Within(c: Cutoff, limit: nat)
  {
    c.attempts <= limit && (c.status == Pending ==> c.attempts < limit)
  }

  predicate Bounded(cs: Row, limit: nat)
  {
    forall i | 0 <= i < |cs| :: Within(cs[i], limit)
  }

  predicate Idle(cs: Row)
  {
    forall i | 0 <= i < |cs| :: cs[i].status != Capturing
  }

  /** Being captured: c and nothing else. */
  predicate Only(cs: Row, c: nat)
  {
    forall i | 0 <= i < |cs| :: cs[i].status == Capturing <==> i == c
  }

  /** What is finished stays finished. */
  predicate Ahead(cs: Row, later: Row)
  {
    |later| == |cs| && forall i | 0 <= i < |cs| && Terminal(cs[i].status) :: Terminal(later[i].status)
  }

  predicate RowOk(cs: Row, n: nat, limit: nat)
  {
    |cs| == n && Orderly(cs) && Bounded(cs, limit)
  }

  /** A change that keeps a row in shape. */
  predicate Moves(cs: Row, cs': Row, limit: nat)
  {
    RowOk(cs', |cs|, limit) && Ahead(cs, cs') && (InOrder(cs) ==> InOrder(cs'))
  }

  lemma FailedMoves(cs: Row, limit: nat)
    requires RowOk(cs, |cs|, limit)
    ensures Moves(cs, AllFailed(cs), limit) && Idle(AllFailed(cs))
  {
  }

  lemma EndedMoves(cs: Row, times: seq<int>, final: int, limit: nat)
    requires RowOk(cs, |times|, limit) && Idle(cs)
    ensures Moves(cs, AllEnded(cs, times, final), limit) && Idle(AllEnded(cs, times, final))
  {
  }

  lemma LateMoves(cs: Row, c: nat, limit: nat)
    requires RowOk(cs, |cs|, limit) && Idle(cs) && c < |cs| && forall k | 0 <= k < c :: cs[k].status != Pending
    ensures var cs' := cs[c := cs[c].(status := LateUnavailable)]; Moves(cs, cs', limit) && Idle(cs')
  {
  }

  lemma DueMoves(cs: Row, c: nat, limit: nat)
    requires RowOk(cs, |cs|, limit) && Idle(cs) && c < |cs| && cs[c].status == Pending
    requires forall k | 0 <= k < c :: cs[k].status != Pending
    ensures var cs' := cs[c := Cutoff(Capturing, cs[c].attempts + 1)]; Moves(cs, cs', limit) && Only(cs', c)
  {
  }

  lemma ScanMoves(arm: Arm, look: Look, times: seq<int>, limit: nat)
    requires RowOk(arm.cutoffs, |times|, limit) && Idle(arm.cutoffs)
    ensures Moves(arm.cutoffs, ScanArm(arm, look, times).0.cutoffs, limit)
    ensures match ScanArm(arm, look, times).1
      case None => Idle(ScanArm(arm, look, times).0.cutoffs)
      case Some(c) => c < |times| && Only(ScanArm(arm, look, times).0.cutoffs, c)
  {
    var cs := arm.cutoffs;
    var c := FirstPending(cs);
    if Renamed(arm, look) {
      FailedMoves(cs, limit);
    } else if c == |cs| {
    } else if IsOver(look) {
      EndedMoves(cs, times, FinalActive(look), limit);
    } else {
      LateMoves(cs, c, limit);
      DueMoves(cs, c, limit);
    }
  }

  lemma HarvestMoves(cs: Row, c: nat, ok: bool, max: nat, limit: nat)
    requires RowOk(cs, |cs|, limit) && c < |cs| && Only(cs, c) && max <= limit
    ensures var cs' := cs[c := Harvested(cs[c], ok, max)]; Moves(cs, cs', limit) && Idle(cs')
  {
  }

  lemma RecoverMoves(arm: Arm, limit: nat)
    requires RowOk(arm.cutoffs, |arm.cutoffs|, limit)
    ensures Moves(arm.cutoffs, Recovered(arm).cutoffs, limit + 1) && Idle(Recovered(arm).cutoffs)
  {
  }

  // ---- the whole watcher ----

  predicate AllOk(index: seq<Arm>, n: nat, limit: nat)
  {
    forall a | 0 <= a < |index| :: RowOk(index[a].cutoffs, n, limit)
  }

  predicate AllInOrder(index: seq<Arm>)
  {
    forall a | 0 <= a < |index| :: InOrder(index[a].cutoffs)
  }

  predicate AllAhead(index: seq<Arm>, later: seq<Arm>)
  {
    |index| == |later| && forall a | 0 <= a < |index| :: Ahead(index[a].cutoffs, later[a].cutoffs)
  }

  /** A capture in flight is the one capture of its arm. */
  predicate Flies(s: State, f: Future)
    requires f in s.inflight
  {
    && f < s.next && s.inflight[f].0 in s.keys
    && s.inflight[f].0 < |s.index| && s.inflight[f].1 < |s.index[s.inflight[f].0].cutoffs|
    && Only(s.index[s.inflight[f].0].cutoffs, s.inflight[f].1)
  }

  predicate OnePerArm(s: State)
  {
    forall f, g | f in s.inflight && g in s.inflight && f != g :: s.inflight[f].0 != s.inflight[g].0
  }

  predicate Manned(s: State, a: nat)
  {
    exists f :: f in s.inflight && s.inflight[f].0 == a
  }

  predicate Flight(s: State)
  {
    && (forall f | f in s.inflight :: Flies(s, f))
    && OnePerArm(s)
    && (forall a | a in s.keys :: Manned(s, a))
    && (forall a: nat | a < |s.index| && a !in s.keys :: Idle(s.index[a].cutoffs))
  }

  predicate Good(s: State, times: seq<int>, max: nat)
  {
    && AllOk(s.index, |times|, max + s.restarts)
    && AllOk(s.durable, |times|, max + s.restarts)
    && AllAhead(s.durable, s.index)
    && Flight(s)
    && (s.complete ==> IndexComplete(s.index) && s.inflight == map[] && s.durable == s.index)
  }

  lemma GoodShaped(s: State, times: seq<int>, max: nat)
    requires Good(s, times, max)
    ensures Shaped(s, times)
  {
    forall f | f in s.inflight ensures s.inflight[f].0 < |s.index| && s.inflight[f].1 < |times| {
      assert Flies(s, f);
      assert RowOk(s.index[s.inflight[f].0].cutoffs, |times|, max + s.restarts);
    }
  }

  lemma ReplaceRow(durable: seq<Arm>, index: seq<Arm>, a: nat, arm: Arm, n: nat, limit: nat)
    requires AllOk(index, n, limit) && AllAhead(durable, index) && a < |index| && Moves(index[a].cutoffs, arm.cutoffs, limit)
    ensures AllOk(index[a := arm], n, limit) && AllAhead(durable, index[a := arm]) && AllAhead(index, index[a := arm])
  {
    assert RowOk(index[a].cutoffs, n, limit) && Ahead(durable[a].cutoffs, index[a].cutoffs);
  }

  lemma HarvestGood(s: State, f: Future, ok: bool, times: seq<int>, max: nat)
    requires Good(s, times, max) && Shaped(s, times)
    ensures Good(Apply(s, Harvest(f, ok), times, max), times, max)
  {
    if !s.complete && f in s.inflight {
      var (a, c) := s.inflight[f];
      assert Flies(s, f);
      assert RowOk(s.index[a].cutoffs, |times|, max + s.restarts);
      HarvestMoves(s.index[a].cutoffs, c, ok, max, max + s.restarts);
      HarvestFlight(s, f, ok, times, max);
      var s' := Apply(s, Harvest(f, ok), times, max);
      ReplaceRow(s.durable, s.index, a, s'.index[a], |times|, max + s.restarts);
      ReplaceRow(s.index, s.index, a, s'.index[a], |times|, max + s.restarts);
    }
  }

  lemma HarvestFlight(s: State, f: Future, ok: bool, times: seq<int>, max: nat)
    requires Good(s, times, max) && Shaped(s, times) && !s.complete && f in s.inflight
    requires var (a, c) := s.inflight[f];
      Idle(s.index[a].cutoffs[c := Harvested(s.index[a].cutoffs[c], ok, max)])
    ensures Flight(Apply(s, Harvest(f, ok), times, max))
  {
    var s' := Apply(s, Harvest(f, ok), times, max);
    forall g | g in s'.inflight ensures Flies(s', g) {
      assert Flies(s, g);
    }
    forall b | b in s'.keys ensures Manned(s', b) {
      assert Manned(s, b);
      var g :| g in s.inflight && s.inflight[g].0 == b;
      assert g in s'.inflight;
    }
  }

  lemma ScanGood(s: State, a: nat, look: Look, times: seq<int>, max: nat)
    requires Good(s, times, max) && Shaped(s, times)
    ensures Good(Apply(s, Scan(a, look), times, max), times, max)
  {
    if !s.complete && a < |s.index| && a !in s.keys {
      assert RowOk(s.index[a].cutoffs, |times|, max + s.restarts) && Idle(s.index[a].cutoffs);
      ScanMoves(s.index[a], look, times, max + s.restarts);
      ScanFlight(s, a, look, times, max);
      RowReplaced(s, Apply(s, Scan(a, look), times, max), a, ScanArm(s.index[a], look, times).0, times, max);
    }
  }

  lemma RowReplaced(s: State, s': State, a: nat, arm: Arm, times: seq<int>, max: nat)
    requires Good(s, times, max) && a < |s.index| && Moves(s.index[a].cutoffs, arm.cutoffs, max + s.restarts)
    requires s'.index == s.index[a := arm] && s'.durable == s.durable && s'.restarts == s.restarts && !s'.complete
    requires Flight(s')
    ensures Good(s', times, max)
  {
    ReplaceRow(s.durable, s.index, a, arm, |times|, max + s.restarts);
  }

  lemma Launch(s: State, a: nat, arm: Arm, c: nat)
    requires Flight(s) && a < |s.index| && a !in s.keys && c < |arm.cutoffs| && Only(arm.cutoffs, c)
    ensures Flight(s.(index := s.index[a := arm], inflight := s.inflight[s.next := (a, c)], keys := s.keys + {a}, next := s.next + 1))
  {
    var s' := s.(index := s.index[a := arm], inflight := s.inflight[s.next := (a, c)], keys := s.keys + {a}, next := s.next + 1);
    forall g | g in s.inflight ensures g < s.next && s.inflight[g].0 != a && g in s'.inflight && Flies(s', g) {
      assert Flies(s, g);
    }
    assert Flies(s', s.next);
    forall b | b in s'.keys ensures Manned(s', b) {
      if b in s.keys {
        assert Manned(s, b);
        var g :| g in s.inflight && s.inflight[g].0 == b;
        assert g in s'.inflight && s'.inflight[g].0 == b;
      } else {
        assert s.next in s'.inflight && s'.inflight[s.next].0 == b;
      }
    }
  }

  lemma Stay(s: State, a: nat, arm: Arm)
    requires Flight(s) && a < |s.index| && a !in s.keys && Idle(arm.cutoffs)
    ensures Flight(s.(index := s.index[a := arm]))
  {
    var s' := s.(index := s.index[a := arm]);
    forall g | g in s.inflight ensures Flies(s', g) {
      assert Flies(s, g);
    }
    forall b | b in s.keys ensures Manned(s', b) {
      assert Manned(s, b);
    }
  }

  lemma ScanFlight(s: State, a: nat, look: Look, times: seq<int>, max: nat)
    requires Flight(s) && Shaped(s, times) && !s.complete && a < |s.index| && a !in s.keys
    requires var (arm', due) := ScanArm(s.index[a], look, times);
      && |arm'.cutoffs| == |times| && (due == None ==> Idle(arm'.cutoffs))
      && (due.Some? ==> due.value < |times| && Only(arm'.cutoffs, due.value))
    ensures Flight(Apply(s, Scan(a, look), times, max))
  {
    var (arm', due) := ScanArm(s.index[a], look, times);
    if due == None {
      Stay(s, a, arm');
    } else {
      Launch(s, a, arm', due.value);
    }
  }

  lemma RestartGood(s: State, times: seq<int>, max: nat)
    requires Good(s, times, max) && Shaped(s, times)
    ensures Good(Apply(s, Restart, times, max), times, max)
  {
    var s' := Apply(s, Restart, times, max);
    forall a | 0 <= a < |s.durable|
      ensures RowOk(s'.index[a].cutoffs, |times|, max + s'.restarts) && Idle(s'.index[a].cutoffs)
      ensures Ahead(s'.durable[a].cutoffs, s'.index[a].cutoffs)
    {
      assert RowOk(s.durable[a].cutoffs, |times|, max + s.restarts);
      RecoverMoves(s.durable[a], max + s.restarts);
    }
  }

  lemma ApplyGood(s: State, act: Action, times: seq<int>, max: nat)
    requires Good(s, times, max)
    ensures Shaped(s, times) && Good(Apply(s, act, times, max), times, max)
  {
    GoodShaped(s, times, max);
    match act
    case Harvest(f, ok) => HarvestGood(s, f, ok, times, max);
    case Scan(a, look) => ScanGood(s, a, look, times, max);
    case Publish(_) => 
    case Restart => RestartGood(s, times, max);
  }

  // ---- runs ----

  /** A new index: nothing done, or only snapshots found on disk. */
  predicate Initial(index: seq<Arm>, n: nat)
  {
    forall a | 0 <= a < |index| :: |index[a].cutoffs| == n && forall i | 0 <= i < n :: Unstarted(index[a].cutoffs[i])
  }

  predicate Unstarted(c: Cutoff)
  {
    c == Cutoff(Pending, 0) || c == Cutoff(Captured, 1)
  }

  function Start(index: seq<Arm>): State
  {
    State(index, index, map[], {}, 0, 0, false)
  }

  lemma StartGood(index: seq<Arm>, times: seq<int>, max: nat)
    requires Initial(index, |times|) && max >= 1
    ensures Good(Start(index), times, max)
  {
    forall a | 0 <= a < |index| ensures RowOk(index[a].cutoffs, |times|, max) && Idle(index[a].cutoffs) {
      assert forall i | 0 <= i < |times| :: Unstarted(index[a].cutoffs[i]);
    }
  }

  /** The watcher after some actions; Shaped holds all along, by RunGood. */
  function Run(s: State, acts: seq<Action>, times: seq<int>, max: nat): State
  {
    if acts == [] then s
    else
      var before := Run(s, acts[..|acts| - 1], times, max);
      if Shaped(before, times) then Apply(before, acts[|acts| - 1], times, max) else before
  }

  /** In every reachable state: per arm only finished cutoffs precede the one being
      captured; each arm has at most one capture in flight; attempts stay within
      max_capture_attempts plus the number of restarts; and "complete" means that every
      cutoff is finished, nothing is in flight and the file says the same. */
  lemma {:induction false} RunGood(index: seq<Arm>, acts: seq<Action>, times: seq<int>, max: nat)
    requires Initial(index, |times|) && max >= 1
    ensures Good(Run(Start(index), acts, times, max), times, max)
  {
    if acts == [] {
      StartGood(index, times, max);
    } else {
      RunGood(index, acts[..|acts| - 1], times, max);
      ApplyGood(Run(Start(index), acts[..|acts| - 1], times, max), acts[|acts| - 1], times, max);
    }
  }

  function Restarts(acts: seq<Action>): nat
  {
    if acts == [] then 0 else Restarts(acts[..|acts| - 1]) + if acts[|acts| - 1] == Restart then 1 else 0
  }

  lemma {:induction false} RestartsCounted(index: seq<Arm>, acts: seq<Action>, times: seq<int>, max: nat)
    requires Initial(index, |times|) && max >= 1
    ensures Run(Start(index), acts, times, max).restarts == Restarts(acts)
  {
    if acts != [] {
      var init := acts[..|acts| - 1];
      RestartsCounted(index, init, times, max);
      RunGood(index, init, times, max);
      GoodShaped(Run(Start(index), init, times, max), times, max);
    }
  }

  /** No cutoff is attempted more often than max_capture_attempts plus the restarts. */
  lemma AttemptsBounded(index: seq<Arm>, acts: seq<Action>, times: seq<int>, max: nat, a: nat, c: nat)
    requires Initial(index, |times|) && max >= 1
    requires var s := Run(Start(index), acts, times, max); a < |s.index| && c < |s.index[a].cutoffs|
    ensures Run(Start(index), acts, times, max).index[a].cutoffs[c].attempts <= max + Restarts(acts)
  {
    RunGood(index, acts, times, max);
    RestartsCounted(index, acts, times, max);
    var s := Run(Start(index), acts, times, max);
    assert RowOk(s.index[a].cutoffs, |times|, max + s.restarts);
    assert Within(s.index[a].cutoffs[c], max + s.restarts);
  }

  /** Two captures in flight belong to different arms, and each is being captured. */
  lemma OneCapturePerArm(index: seq<Arm>, acts: seq<Action>, times: seq<int>, max: nat, f: Future, g: Future)
    requires Initial(index, |times|) && max >= 1
    requires var s := Run(Start(index), acts, times, max); f in s.inflight && g in s.inflight && f != g
    ensures var s := Run(Start(index), acts, times, max); s.inflight[f].0 != s.inflight[g].0 && Flies(s, f)
  {
    RunGood(index, acts, times, max);
  }

  lemma CompleteMeans(index: seq<Arm>, acts: seq<Action>, times: seq<int>, max: nat)
    requires Initial(index, |times|) && max >= 1 && Run(Start(index), acts, times, max).complete
    ensures var s := Run(Start(index), acts, times, max);
      IndexComplete(s.index) && s.inflight == map[] && s.durable == s.index
  {
    RunGood(index, acts, times, max);
  }

  // ---- from a fresh index: finished, then capturing, then pending ----

  predicate Fresh(index: seq<Arm>, n: nat)
  {
    forall a | 0 <= a < |index| :: |index[a].cutoffs| == n && forall i | 0 <= i < n :: index[a].cutoffs[i] == Cutoff(Pending, 0)
  }

  lemma InOrderStep(s: State, act: Action, times: seq<int>, max: nat)
    requires Good(s, times, max) && Shaped(s, times) && AllInOrder(s.index) && AllInOrder(s.durable)
    ensures AllInOrder(Apply(s, act, times, max).index) && AllInOrder(Apply(s, act, times, max).durable)
  {
    match act
    case Harvest(f, ok) =>
      if !s.complete && f in s.inflight {
        var (a, c) := s.inflight[f];
        assert Flies(s, f) && RowOk(s.index[a].cutoffs, |times|, max + s.restarts);
        HarvestMoves(s.index[a].cutoffs, c, ok, max, max + s.restarts);
      }
    case Scan(a, look) =>
      if !s.complete && a < |s.index| && a !in s.keys {
        assert RowOk(s.index[a].cutoffs, |times|, max + s.restarts) && Idle(s.index[a].cutoffs);
        ScanMoves(s.index[a], look, times, max + s.restarts);
      }
    case Publish(_) =>
    case Restart =>
      forall a | 0 <= a < |s.durable| ensures InOrder(Recovered(s.durable[a]).cutoffs) {
        assert RowOk(s.durable[a].cutoffs, |times|, max + s.restarts) && InOrder(s.durable[a].cutoffs);
        RecoverMoves(s.durable[a], max + s.restarts);
      }
  }

  /** Every reachable row is a stretch of finished cutoffs, then at most one being
      captured, then only pending ones. */
  lemma {:induction false} RunInOrder(index: seq<Arm>, acts: seq<Action>, times: seq<int>, max: nat)
    requires Fresh(index, |times|) && max >= 1
    ensures AllInOrder(Run(Start(index), acts, times, max).index) && AllInOrder(Run(Start(index), acts, times, max).durable)
  {
    FreshInitial(index, |times|);
    if acts != [] {
      var init := acts[..|acts| - 1];
      RunInOrder(index, init, times, max);
      RunGood(index, init, times, max);
      GoodShaped(Run(Start(index), init, times, max), times, max);
      InOrderStep(Run(Start(index), init, times, max), acts[|acts| - 1], times, max);
    }
  }

  lemma FreshInitial(index: seq<Arm>, n: nat)
    requires Fresh(index, n)
    ensures Initial(index, n) && AllInOrder(index)
  {
    forall a, i | 0 <= a < |index| && 0 <= i < n ensures Unstarted(index[a].cutoffs[i]) {
    }
  }

  // ---- finished is finished ----

  lemma HarvestAhead(s: State, f: Future, ok: bool, times: seq<int>, max: nat)
    requires Good(s, times, max) && Shaped(s, times) && !s.complete && f in s.inflight
    ensures var index := Apply(s, Harvest(f, ok), times, max).index; AllAhead(s.index, index) && AllAhead(s.durable, index)
  {
    var (a, c) := s.inflight[f];
    assert Flies(s, f) && RowOk(s.index[a].cutoffs, |times|, max + s.restarts);
    HarvestMoves(s.index[a].cutoffs, c, ok, max, max + s.restarts);
    ReplaceRow(s.durable, s.index, a, Apply(s, Harvest(f, ok), times, max).index[a], |times|, max + s.restarts);
  }

  lemma ScanAhead(s: State, a: nat, look: Look, times: seq<int>, max: nat)
    requires Good(s, times, max) && Shaped(s, times) && !s.complete && a < |s.index| && a !in s.keys
    ensures AllAhead(s.index, Apply(s, Scan(a, look), times, max).index)
  {
    assert RowOk(s.index[a].cutoffs, |times|, max + s.restarts) && Idle(s.index[a].cutoffs);
    ScanMoves(s.index[a], look, times, max + s.restarts);
    ReplaceRow(s.durable, s.index, a, ScanArm(s.index[a], look, times).0, |times|, max + s.restarts);
  }

  lemma RestartAhead(s: State, times: seq<int>, max: nat)
    requires Good(s, times, max) && Shaped(s, times)
    ensures AllAhead(s.durable, Apply(s, Restart, times, max).durable)
  {
    forall a | 0 <= a < |s.durable| ensures Ahead(s.durable[a].cutoffs, Recovered(s.durable[a]).cutoffs) {
      assert RowOk(s.durable[a].cutoffs, |times|, max + s.restarts);
      RecoverMoves(s.durable[a], max + s.restarts);
    }
  }

  lemma FinishedStays(s: State, act: Action, times: seq<int>, max: nat)
    requires Good(s, times, max) && Shaped(s, times)
    ensures act != Restart ==> AllAhead(s.index, Apply(s, act, times, max).index)
    ensures AllAhead(s.durable, Apply(s, act, times, max).durable)
  {
    match act
    case Harvest(f, ok) =>
      if !s.complete && f in s.inflight {
        HarvestAhead(s, f, ok, times, max);
      }
    case Scan(a, look) =>
      if !s.complete && a < |s.index| && a !in s.keys {
        ScanAhead(s, a, look, times, max);
      }
    case Publish(_) =>
    case Restart => RestartAhead(s, times, max);
  }

  lemma AheadTrans(x: seq<Arm>, y: seq<Arm>, z: seq<Arm>)
    requires AllAhead(x, y) && AllAhead(y, z)
    ensures AllAhead(x, z)
  {
    forall a | 0 <= a < |x| ensures Ahead(x[a].cutoffs, z[a].cutoffs) {
      assert Ahead(x[a].cutoffs, y[a].cutoffs) && Ahead(y[a].cutoffs, z[a].cutoffs);
    }
  }

  /** From any prefix of a run to its end: the loop reopens no finished cutoff, and not even
      a restart reopens one that had reached the index file. */
  lemma {:induction false} FinishedForever(index: seq<Arm>, acts: seq<Action>, k: nat, times: seq<int>, max: nat)
    requires Initial(index, |times|) && max >= 1 && k <= |acts|
    ensures var s, s' := Run(Start(index), acts[..k], times, max), Run(Start(index), acts, times, max);
      && AllAhead(s.durable, s'.durable)
      && (Restart !in acts[k..] ==> AllAhead(s.index, s'.index))
    decreases |acts|
  {
    if k == |acts| {
      assert acts[..k] == acts;
    } else {
      var init, act := acts[..|acts| - 1], acts[|acts| - 1];
      assert init[..k] == acts[..k] && acts[k..] == init[k..] + [act];
      FinishedForever(index, init, k, times, max);
      FinishedNext(index, acts, init, Run(Start(index), acts[..k], times, max), times, max);
    }
  }

  lemma FinishedNext(index: seq<Arm>, acts: seq<Action>, init: seq<Action>, s: State, times: seq<int>, max: nat)
    requires Initial(index, |times|) && max >= 1 && acts != [] && init == acts[..|acts| - 1]
    requires AllAhead(s.durable, Run(Start(index), init, times, max).durable)
    ensures AllAhead(s.durable, Run(Start(index), acts, times, max).durable)
    ensures AllAhead(s.index, Run(Start(index), init, times, max).index) && acts[|acts| - 1] != Restart ==>
      AllAhead(s.index, Run(Start(index), acts, times, max).index)
  {
    var r, r' := Run(Start(index), init, times, max), Run(Start(index), acts, times, max);
    RunGood(index, init, times, max);
    GoodShaped(r, times, max);
    FinishedStays(r, acts[|acts| - 1], times, max);
    AheadTrans(s.durable, r.durable, r'.durable);
    if AllAhead(s.index, r.index) && acts[|acts| - 1] != Restart {
      AheadTrans(s.index, r.index, r'.index);
    }
  }

  // ---- why a cutoff is what it is ----

  predicate Grew(times: seq<int>)
  {
    forall i, j | 0 <= i < j < |times| :: times[i] <= times[j]
  }

  /** When an arm ends, the cutoffs it had passed are late and the later ones not reached. */
  lemma EndedSplit(cs: Row, times: seq<int>, final: int, i: nat, j: nat)
    requires |cs| == |times| && Grew(times) && i < j < |cs| && cs[i].status == cs[j].status == Pending
    ensures var r := AllEnded(cs, times, final);
      && (r[i].status == LateUnavailable <==> final >= times[i])
      && (r[j].status == LateUnavailable ==> r[i].status == LateUnavailable)
      && (r[i].status == NotReached ==> r[j].status == NotReached)
  {
  }

  /** What a poll of an arm must have seen to give cutoff c a new status. */
  predicate SeenBy(arm: Arm, look: Look, times: seq<int>, c: nat, st: Status)
    requires |arm.cutoffs| == |times| && c < |times|
  {
    match st
    case Failed => Renamed(arm, look)
    case NotReached => !Renamed(arm, look) && IsOver(look) && FinalActive(look) < times[c]
    case LateUnavailable =>
      && !Renamed(arm, look)
      && if IsOver(look) then FinalActive(look) >= times[c]
         else c == FirstPending(arm.cutoffs) && ReadinessOf(look, times[c]) == R.Late
    case Capturing =>
      && !Renamed(arm, look) && !IsOver(look)
      && c == FirstPending(arm.cutoffs) && ReadinessOf(look, times[c]) == R.Due
    case _ => false
  }

  lemma ScanCauses(arm: Arm, look: Look, times: seq<int>, c: nat)
    requires |arm.cutoffs| == |times| && c < |times|
    ensures |ScanArm(arm, look, times).0.cutoffs| == |times|
    ensures var st := ScanArm(arm, look, times).0.cutoffs[c].status;
      st != arm.cutoffs[c].status ==> SeenBy(arm, look, times, c, st)
  {
  }

  /** What a finished capture gives its cutoff: captured on success, otherwise pending
      again or, after the last attempt, failed. */
  predicate CaughtBy(x: Cutoff, ok: bool, max: nat, st: Status)
  {
    st == if ok then Captured else if x.attempts >= max then Failed else Pending
  }

  /** The cause of a change of status of cutoff c of arm a. */
  predicate Explained(s: State, act: Action, times: seq<int>, max: nat, a: nat, c: nat, st: Status)
    requires Shaped(s, times) && a < |s.index| && c < |times|
  {
    match act
    case Harvest(f, ok) => f in s.inflight && s.inflight[f] == (a, c) && CaughtBy(s.index[a].cutoffs[c], ok, max, st)
    case Scan(b, look) => b == a && a !in s.keys && SeenBy(s.index[a], look, times, c, st)
    case _ => false
  }

  /** Every change of status has its cause: the end of the cutoff's own capture, or a poll
      of its own arm that saw the trial change, the arm end, or the first pending cutoff
      due or late. */
  lemma Causes(s: State, act: Action, times: seq<int>, max: nat, a: nat, c: nat)
    requires Shaped(s, times) && a < |s.index| && c < |times| && act != Restart
    ensures |Apply(s, act, times, max).index| == |s.index| && |Apply(s, act, times, max).index[a].cutoffs| == |times|
    ensures var st := Apply(s, act, times, max).index[a].cutoffs[c].status;
      st != s.index[a].cutoffs[c].status ==> Explained(s, act, times, max, a, c, st)
  {
    if act.Scan? && act.a < |s.index| {
      ScanCauses(s.index[act.a], act.look, times, c);
    }
  }


  // ---- what the other actions do ----

  /** A collected capture: captured if it went well, else failed after the last attempt and
      pending again before it. Nothing else in the index changes, and the file is written. */
  lemma HarvestExactly(s: State, f: Future, ok: bool, times: seq<int>, max: nat, a: nat, c: nat)
    requires Shaped(s, times) && !s.complete && f in s.inflight && a < |s.index| && c < |times|
    ensures var s', x := Apply(s, Harvest(f, ok), times, max), s.index[a].cutoffs[c];
      && |s'.index| == |s.index| && |s'.index[a].cutoffs| == |times| && s'.index[a].trial == s.index[a].trial
      && s'.index[a].cutoffs[c] ==
           (if s.inflight[f] != (a, c) then x
            else if ok then Cutoff(Captured, x.attempts)
            else if max <= x.attempts then Cutoff(Failed, x.attempts)
            else Cutoff(Pending, x.attempts))
      && s'.durable == s'.index && f !in s'.inflight && s'.inflight == s.inflight - {f}
      && s'.keys == s.keys - {s.inflight[f].0}
  {
  }

  /** A restart: the index is the file's, with the captures that were under way pending again,
      their attempts counted. */
  lemma RestartExactly(s: State, times: seq<int>, max: nat, a: nat, c: nat)
    requires Shaped(s, times) && a < |s.durable| && c < |s.durable[a].cutoffs|
    ensures var s', x := Apply(s, Restart, times, max), s.durable[a].cutoffs[c];
      && |s'.index| == |s.durable| && |s'.index[a].cutoffs| == |s.durable[a].cutoffs| && s'.index[a].trial == s.durable[a].trial
      && s'.index[a].cutoffs[c] == (if x.status == Capturing then Cutoff(Pending, x.attempts) else x)
      && s'.durable == s'.index && s'.inflight == map[] && s'.keys == {} && !s'.complete
  {
  }

  ghost predicate Finished(x: Cutoff)
  {
    x.status in {Captured, NotReached, Failed, LateUnavailable}
  }

  ghost predicate AllFinished(index: seq<Arm>)
  {
    forall a, c | 0 <= a < |index| && 0 <= c < |index[a].cutoffs| :: Finished(index[a].cutoffs[c])
  }

  lemma CompleteExact(index: seq<Arm>)
    ensures IndexComplete(index) <==> index != [] && AllFinished(index)
  {
    if IndexComplete(index) {
      forall a, c | 0 <= a < |index| && 0 <= c < |index[a].cutoffs| ensures Finished(index[a].cutoffs[c]) {
        assert ArmDone(index[a]);
      }
    }
    if AllFinished(index) {
      forall a | 0 <= a < |index| ensures ArmDone(index[a]) {
        forall c | 0 <= c < |index[a].cutoffs| ensures Terminal(index[a].cutoffs[c].status) {
          assert Finished(index[a].cutoffs[c]);
        }
      }
    }
  }

  /** A publication writes the index and reports completion exactly when there are arms, every
      cutoff is finished, nothing is in flight and the primary run has ended. */
  lemma PublishExactly(s: State, primaryTerminal: bool, times: seq<int>, max: nat)
    requires Shaped(s, times) && !s.complete
    ensures var s' := Apply(s, Publish(primaryTerminal), times, max);
      && s' == s.(durable := s.index, complete := s'.complete)
      && (s'.complete <==> s.index != [] && AllFinished(s.index) && s.inflight == map[] && primaryTerminal)
  {
    CompleteExact(s.index);
  }
}

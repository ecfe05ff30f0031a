/** Usage accounting across phases and session generations. */
module Usage {
  import opened Collections

  /** The ten always-present counters of a trace, and CPU time, which may be unknown. */
  const FIELDS := 10

  datatype Counters = Counters(counts: seq<nat>, cpu: Option<nat>)

  type Reading = r: Counters | |r.counts| == FIELDS witness Counters([0, 0, 0, 0, 0, 0, 0, 0, 0, 0], None)

  const ZERO: Reading := Counters([0, 0, 0, 0, 0, 0, 0, 0, 0, 0], None)

  function Excess(current: nat, previous: nat): nat
  {
    if current > previous then current - previous else 0
  }

  /** x makes up for the way from one reading of a counter to the next. */
  predicate Bridges(current: nat, previous: nat, x: nat)
  {
    previous + x >= current
  }

  /** _usage_delta: the least amount that bridges every counter. It lands on the current
      reading exactly where the counter did not fall. CPU time is bridged in the same way
      when both readings know it and left unknown otherwise. */
  function Delta(current: Reading, previous: Reading): (d: Reading)
    ensures forall k, x: nat | 0 <= k < FIELDS :: Bridges(current.counts[k], previous.counts[k], x) <==> d.counts[k] <= x
    ensures forall k | 0 <= k < FIELDS ::
      previous.counts[k] + d.counts[k] == current.counts[k] <==> previous.counts[k] <= current.counts[k]
    ensures d.cpu.Some? <==> current.cpu.Some? && previous.cpu.Some?
    ensures d.cpu.Some? ==> forall x: nat :: Bridges(current.cpu.value, previous.cpu.value, x) <==> d.cpu.value <= x
  {
    Counters(seq(FIELDS, (k: nat) requires k < FIELDS => Excess(current.counts[k], previous.counts[k])),
             if current.cpu == None || previous.cpu == None then None else Some(Excess(current.cpu.value, previous.cpu.value)))
  }

  // ---- one counter over time ----

  function Last(rs: seq<nat>): nat
  {
    if rs == [] then 0 else rs[|rs| - 1]
  }

  /** The deltas of a row of cumulative readings that starts from zero, added up. */
  function SumDeltas(rs: seq<nat>): nat
  {
    if rs == [] then 0 else SumDeltas(rs[..|rs| - 1]) + Excess(Last(rs), Last(rs[..|rs| - 1]))
  }

  predicate NonDecreasing(rs: seq<nat>)
  {
    forall i, j | 0 <= i < j < |rs| :: rs[i] <= rs[j]
  }

  lemma NonDecreasingStep(rs: seq<nat>)
    requires rs != []
    ensures NonDecreasing(rs) <==> NonDecreasing(rs[..|rs| - 1]) && Last(rs[..|rs| - 1]) <= Last(rs)
  {
    var n := |rs| - 1;
    if NonDecreasing(rs[..n]) && Last(rs[..n]) <= Last(rs) {
      forall i, j | 0 <= i < j < |rs| ensures rs[i] <= rs[j] {
        assert i < n ==> rs[..n][i] <= rs[..n][n - 1];
        assert j < n ==> rs[..n][i] <= rs[..n][j];
      }
    }
  }

  /** Per-phase deltas add up to at least the last reading, and to exactly that just when
      the readings never went down. */
  lemma {:induction false} SumCovers(rs: seq<nat>)
    ensures SumDeltas(rs) >= Last(rs)
    ensures SumDeltas(rs) == Last(rs) <==> NonDecreasing(rs)
  {
    if rs != [] {
      SumCovers(rs[..|rs| - 1]);
      NonDecreasingStep(rs);
    }
  }

  // ---- phases and decisions ----

  datatype Decision = Resume | RestartCompacted | Terminate

  datatype Phase = Phase(generation: nat, reading: Reading, delta: Reading)

  datatype State = State(generation: nat, restarts: nat, halts: nat, usage: map<nat, Reading>, phases: seq<Phase>)

  const START: State := State(0, 0, 0, map[], [])

  datatype Event = Event(reading: Reading, decision: Decision)

  function Previous(s: State): Reading
  {
    if s.generation in s.usage then s.usage[s.generation] else ZERO
  }

  /** _observe_semantic_phase, then the decision taken on it. */
  function Step(s: State, e: Event): State
  {
    var g := s.generation;
    var seen := s.(usage := s.usage[g := e.reading], phases := s.phases + [NewPhase(s, e)]);
    match e.decision
    case Resume => seen
    case Terminate => seen.(halts := s.halts + 1)
    case RestartCompacted => seen.(restarts := s.restarts + 1, generation := g + 1)
  }

  function Run(es: seq<Event>): State
  {
    if es == [] then START else Step(Run(es[..|es| - 1]), es[|es| - 1])
  }

  function Count(es: seq<Event>, d: Decision): nat
  {
    if es == [] then 0 else Count(es[..|es| - 1], d) + if es[|es| - 1].decision == d then 1 else 0
  }

  /** The generation is the number of restarts is the number of RESTART_COMPACTED
      decisions, and the halts are the TERMINATE decisions. */
  lemma {:induction false} CountersExact(es: seq<Event>)
    ensures Run(es).generation == Run(es).restarts == Count(es, RestartCompacted) && Run(es).halts == Count(es, Terminate)
  {
    if es != [] {
      CountersExact(es[..|es| - 1]);
    }
  }

  // ---- conservation ----

  predicate Dated(s: State)
  {
    forall i | 0 <= i < |s.phases| :: s.phases[i].generation <= s.generation
  }

  /** One counter of one generation, phase by phase. */
  function Readings(ps: seq<Phase>, g: nat, k: nat): seq<nat>
    requires k < FIELDS
  {
    if ps == [] then []
    else
      var p, before := ps[|ps| - 1], Readings(ps[..|ps| - 1], g, k);
      if p.generation == g then before + [p.reading.counts[k]] else before
  }

  function Spent(ps: seq<Phase>, g: nat, k: nat): nat
    requires k < FIELDS
  {
    if ps == [] then 0
    else
      var p := ps[|ps| - 1];
      Spent(ps[..|ps| - 1], g, k) + if p.generation == g then p.delta.counts[k] else 0
  }

  /** What is on file for a generation. */
  function OnFile(s: State, g: nat, k: nat): nat
    requires k < FIELDS
  {
    if g in s.usage then s.usage[g].counts[k] else 0
  }

  ghost predicate Conserves(s: State)
  {
    forall g: nat, k: nat | k < FIELDS ::
      OnFile(s, g, k) == Last(Readings(s.phases, g, k)) && Spent(s.phases, g, k) == SumDeltas(Readings(s.phases, g, k))
  }

  lemma SumDeltasAppend(rs: seq<nat>, r: nat)
    ensures SumDeltas(rs + [r]) == SumDeltas(rs) + Excess(r, Last(rs)) && Last(rs + [r]) == r
  {
    assert (rs + [r])[..|rs|] == rs;
  }

  lemma PhasesAppend(ps: seq<Phase>, p: Phase, g: nat, k: nat)
    requires k < FIELDS
    ensures Readings(ps + [p], g, k) == if p.generation == g then Readings(ps, g, k) + [p.reading.counts[k]] else Readings(ps, g, k)
    ensures Spent(ps + [p], g, k) == Spent(ps, g, k) + if p.generation == g then p.delta.counts[k] else 0
  {
    assert (ps + [p])[..|ps|] == ps;
  }

  lemma CounterStep(ps: seq<Phase>, p: Phase, g: nat, k: nat, filed: nat)
    requires k < FIELDS && filed == Last(Readings(ps, g, k)) && Spent(ps, g, k) == SumDeltas(Readings(ps, g, k))
    requires p.generation == g ==> p.delta.counts[k] == Excess(p.reading.counts[k], filed)
    ensures Last(Readings(ps + [p], g, k)) == if p.generation == g then p.reading.counts[k] else filed
    ensures Spent(ps + [p], g, k) == SumDeltas(Readings(ps + [p], g, k))
  {
    PhasesAppend(ps, p, g, k);
    SumDeltasAppend(Readings(ps, g, k), p.reading.counts[k]);
  }

  function NewPhase(s: State, e: Event): Phase
  {
    Phase(s.generation, e.reading, Delta(e.reading, Previous(s)))
  }

  lemma NewPhaseDelta(s: State, e: Event, k: nat)
    requires k < FIELDS
    ensures NewPhase(s, e).delta.counts[k] == Excess(e.reading.counts[k], OnFile(s, s.generation, k))
  {
  }

  lemma StepConserves(s: State, e: Event)
    requires Dated(s) && Conserves(s)
    ensures Dated(Step(s, e)) && Conserves(Step(s, e))
  {
    var s', p := Step(s, e), NewPhase(s, e);
    assert s'.phases == s.phases + [p];
    forall g: nat, k: nat | k < FIELDS
      ensures OnFile(s', g, k) == Last(Readings(s'.phases, g, k))
      ensures Spent(s'.phases, g, k) == SumDeltas(Readings(s'.phases, g, k))
    {
      NewPhaseDelta(s, e, k);
      CounterStep(s.phases, p, g, k, OnFile(s, g, k));
    }
  }

  lemma {:induction false} RunConserves(es: seq<Event>)
    ensures Dated(Run(es)) && Conserves(Run(es))
  {
    if es == [] {
      assert forall g: nat, k: nat | k < FIELDS :: Readings(START.phases, g, k) == [];
    } else {
      RunConserves(es[..|es| - 1]);
      StepConserves(Run(es[..|es| - 1]), es[|es| - 1]);
    }
  }

  /** In every generation of every run, the phase deltas of each counter cover the last
      cumulative reading, and equal it exactly when the trace never went down. */
  lemma GenerationCovered(es: seq<Event>, s: State, g: nat, k: nat)
    requires s == Run(es) && k < FIELDS
    ensures Spent(s.phases, g, k) >= OnFile(s, g, k)
    ensures Spent(s.phases, g, k) == OnFile(s, g, k) <==> NonDecreasing(Readings(s.phases, g, k))
  {
    RunConserves(es);
    SumCovers(Readings(s.phases, g, k));
  }

  // ---- all generations together ----

  function Total(ps: seq<Phase>, k: nat): nat
    requires k < FIELDS
  {
    if ps == [] then 0 else Total(ps[..|ps| - 1], k) + ps[|ps| - 1].delta.counts[k]
  }

  function SpentBelow(ps: seq<Phase>, n: nat, k: nat): nat
    requires k < FIELDS
  {
    if n == 0 then 0 else SpentBelow(ps, n - 1, k) + Spent(ps, n - 1, k)
  }

  /** The cumulative figure of the heartbeat: the last reading of each generation, added. */
  function OnFileBelow(s: State, n: nat, k: nat): nat
    requires k < FIELDS
  {
    if n == 0 then 0 else OnFileBelow(s, n - 1, k) + OnFile(s, n - 1, k)
  }

  lemma {:induction false} SpentBelowAppend(ps: seq<Phase>, p: Phase, n: nat, k: nat)
    requires k < FIELDS
    ensures SpentBelow(ps + [p], n, k) == SpentBelow(ps, n, k) + if p.generation < n then p.delta.counts[k] else 0
  {
    if n > 0 {
      SpentBelowAppend(ps, p, n - 1, k);
      PhasesAppend(ps, p, n - 1, k);
    }
  }

  lemma {:induction false} NothingSpent(n: nat, k: nat)
    requires k < FIELDS
    ensures SpentBelow([], n, k) == 0
  {
    if n > 0 {
      NothingSpent(n - 1, k);
    }
  }

  lemma {:induction false} TotalSplits(ps: seq<Phase>, n: nat, k: nat)
    requires k < FIELDS && forall i | 0 <= i < |ps| :: ps[i].generation < n
    ensures Total(ps, k) == SpentBelow(ps, n, k)
  {
    if ps == [] {
      NothingSpent(n, k);
    } else {
      var init, p := ps[..|ps| - 1], ps[|ps| - 1];
      TotalSplits(init, n, k);
      SpentBelowAppend(init, p, n, k);
      assert ps == init + [p];
    }
  }

  /** A counter that never went down in any of the first n generations. */
  ghost predicate Steady(ps: seq<Phase>, n: nat, k: nat)
    requires k < FIELDS
  {
    forall g: nat | g < n :: NonDecreasing(Readings(ps, g, k))
  }

  lemma SteadyStep(ps: seq<Phase>, n: nat, k: nat)
    requires n > 0 && k < FIELDS
    ensures Steady(ps, n, k) <==> Steady(ps, n - 1, k) && NonDecreasing(Readings(ps, n - 1, k))
  {
  }

  lemma {:induction false} BelowCovered(s: State, n: nat, k: nat)
    requires Conserves(s) && k < FIELDS
    ensures SpentBelow(s.phases, n, k) >= OnFileBelow(s, n, k)
    ensures SpentBelow(s.phases, n, k) == OnFileBelow(s, n, k) <==> Steady(s.phases, n, k)
  {
    if n > 0 {
      BelowCovered(s, n - 1, k);
      SumCovers(Readings(s.phases, n - 1, k));
      SteadyStep(s.phases, n, k);
    }
  }

  lemma AllCovered(s: State, k: nat)
    requires Dated(s) && Conserves(s) && k < FIELDS
    ensures Total(s.phases, k) >= OnFileBelow(s, s.generation + 1, k)
    ensures Total(s.phases, k) == OnFileBelow(s, s.generation + 1, k) <==> Steady(s.phases, s.generation + 1, k)
  {
    TotalSplits(s.phases, s.generation + 1, k);
    BelowCovered(s, s.generation + 1, k);
  }

  /** Over a whole run, all phase deltas of a counter cover the sum of the last readings of
      all generations, and equal it exactly when no generation's trace went down. */
  lemma RunCovered(es: seq<Event>, s: State, k: nat)
    requires s == Run(es) && k < FIELDS
    ensures Total(s.phases, k) >= OnFileBelow(s, s.generation + 1, k)
    ensures Total(s.phases, k) == OnFileBelow(s, s.generation + 1, k) <==> Steady(s.phases, s.generation + 1, k)
  {
    RunConserves(es);
    AllCovered(s, k);
  }

  // ---- CPU time ----

  /** The CPU readings of one generation, phase by phase. */
  function CpuReadings(ps: seq<Phase>, g: nat): seq<Option<nat>>
  {
    if ps == [] then []
    else
      var p, before := ps[|ps| - 1], CpuReadings(ps[..|ps| - 1], g);
      if p.generation == g then before + [p.reading.cpu] else before
  }

  /** The CPU deltas of one generation that are known, added up. */
  function CpuSpent(ps: seq<Phase>, g: nat): nat
  {
    if ps == [] then 0
    else
      var p := ps[|ps| - 1];
      CpuSpent(ps[..|ps| - 1], g) + if p.generation == g && p.delta.cpu.Some? then p.delta.cpu.value else 0
  }

  /** Before its first phase a generation's CPU time is unknown. */
  function CpuLast(rs: seq<Option<nat>>): Option<nat>
  {
    if rs == [] then None else rs[|rs| - 1]
  }

  function CpuPair(current: Option<nat>, previous: Option<nat>): nat
  {
    if current == None || previous == None then 0 else Excess(current.value, previous.value)
  }

  function CpuDeltas(rs: seq<Option<nat>>): nat
  {
    if rs == [] then 0 else CpuDeltas(rs[..|rs| - 1]) + CpuPair(CpuLast(rs), CpuLast(rs[..|rs| - 1]))
  }

  function CpuOnFile(s: State, g: nat): Option<nat>
  {
    if g in s.usage then s.usage[g].cpu else None
  }

  ghost predicate CpuKept(s: State, g: nat)
  {
    CpuOnFile(s, g) == CpuLast(CpuReadings(s.phases, g)) && CpuSpent(s.phases, g) == CpuDeltas(CpuReadings(s.phases, g))
  }

  lemma CpuAppend(ps: seq<Phase>, p: Phase, g: nat)
    ensures CpuReadings(ps + [p], g) == CpuReadings(ps, g) + if p.generation == g then [p.reading.cpu] else []
    ensures CpuSpent(ps + [p], g) == CpuSpent(ps, g) + if p.generation == g && p.delta.cpu.Some? then p.delta.cpu.value else 0
  {
    assert (ps + [p])[..|ps|] == ps;
  }

  lemma CpuDeltasAppend(rs: seq<Option<nat>>, r: Option<nat>)
    ensures CpuDeltas(rs + [r]) == CpuDeltas(rs) + CpuPair(r, CpuLast(rs)) && CpuLast(rs + [r]) == r
  {
    assert (rs + [r])[..|rs|] == rs;
  }

  lemma CpuStep(s: State, e: Event, g: nat)
    requires CpuKept(s, g)
    ensures CpuKept(Step(s, e), g)
  {
    var p := NewPhase(s, e);
    assert Step(s, e).phases == s.phases + [p];
    CpuAppend(s.phases, p, g);
    CpuDeltasAppend(CpuReadings(s.phases, g), p.reading.cpu);
  }

  lemma {:induction false} CpuRun(es: seq<Event>, g: nat)
    ensures CpuKept(Run(es), g)
  {
    if es != [] {
      CpuRun(es[..|es| - 1], g);
      CpuStep(Run(es[..|es| - 1]), es[|es| - 1], g);
    }
  }

  /** The first phase of a generation never has a CPU delta. */
  lemma FirstCpuUnknown(s: State, e: Event)
    requires s.generation !in s.usage
    ensures Step(s, e).phases[|s.phases|].delta.cpu == None
  {
  }

  predicate AllKnown(rs: seq<Option<nat>>)
  {
    forall i | 0 <= i < |rs| :: rs[i].Some?
  }

  function Values(rs: seq<Option<nat>>): (v: seq<nat>)
    requires AllKnown(rs)
    ensures |v| == |rs| && forall i | 0 <= i < |v| :: v[i] == rs[i].value
  {
    seq(|rs|, (i: nat) requires i < |rs| => rs[i].value)
  }

  /** The deltas of known readings miss exactly the first reading. */
  lemma {:induction false} CpuMissesFirst(rs: seq<Option<nat>>)
    requires rs != [] && AllKnown(rs)
    ensures CpuDeltas(rs) + rs[0].value == SumDeltas(Values(rs))
  {
    var n, init := |rs| - 1, rs[..|rs| - 1];
    assert Values(rs)[..n] == Values(init);
    if n > 0 {
      CpuMissesFirst(init);
    } else {
      assert Values(init) == [];
    }
  }

  /** CPU time is the exception among the counters: in every generation of every run whose
      CPU readings are all known, the known deltas fall short of the deltas from zero by
      exactly the first reading. So they cover the way from the first to the last reading,
      and equal it exactly when the readings never fell. */
  lemma CpuCovered(es: seq<Event>, g: nat, rs: seq<Option<nat>>)
    requires rs == CpuReadings(Run(es).phases, g) && rs != [] && AllKnown(rs)
    ensures CpuSpent(Run(es).phases, g) + rs[0].value == SumDeltas(Values(rs))
    ensures CpuOnFile(Run(es), g) == Some(Last(Values(rs)))
    ensures CpuSpent(Run(es).phases, g) + rs[0].value >= Last(Values(rs))
    ensures CpuSpent(Run(es).phases, g) + rs[0].value == Last(Values(rs)) <==> NonDecreasing(Values(rs))
  {
    CpuRun(es, g);
    CpuMissesFirst(rs);
    SumCovers(Values(rs));
  }

  // ---- the agent ----

  class Agent {
    var generation: nat
    var restarts: nat
    var halts: nat
    var usage: map<nat, Reading>
    var phases: seq<Phase>

    ghost function View(): State
      reads this
    {
      State(generation, restarts, halts, usage, phases)
    }

    constructor ()
      ensures View() == START
    {
      generation, restarts, halts, usage, phases := 0, 0, 0, map[], [];
    }

    method Observe(reading: Reading) returns (delta: Reading)
      modifies `usage, `phases
      ensures usage == old(usage)[generation := reading] && phases == old(phases) + [Phase(generation, reading, delta)]
      ensures delta == Delta(reading, Previous(old(View())))
    {
      var previous := if generation in usage then usage[generation] else ZERO;
      delta := Delta(reading, previous);
      usage := usage[generation := reading];
      phases := phases + [Phase(generation, reading, delta)];
    }

    /** The controlled loop: observe after every slice and act on the decision, until the
        policy terminates or the slices are over. */
    method RunControlled(es: seq<Event>) returns (n: nat)
      requires View() == START
      modifies this
      ensures n <= |es| && View() == Run(es[..n])
      ensures forall i | 0 <= i < n - 1 :: es[i].decision != Terminate
      ensures n < |es| ==> n > 0 && es[n - 1].decision == Terminate
    {
      n := 0;
      while n < |es|
        invariant n <= |es| && View() == Run(es[..n])
        invariant forall i | 0 <= i < n :: es[i].decision != Terminate
      {
        var e := es[n];
        RunNext(es, n);
        DoPhase(e);
        n := n + 1;
        if e.decision == Terminate {
          return;
        }
      }
    }

    /** One phase and what is decided on it. */
    method DoPhase(e: Event)
      modifies this
      ensures View() == Step(old(View()), e)
    {
      var _ := Observe(e.reading);
      if e.decision == Terminate {
        halts := halts + 1;
      } else if e.decision == RestartCompacted {
        restarts := restarts + 1;
        generation := generation + 1;
      }
    }
  }

  lemma RunNext(es: seq<Event>, n: nat)
    requires n < |es|
    ensures Run(es[..n + 1]) == Step(Run(es[..n]), es[n])
  {
    assert es[..n + 1][..n] == es[..n];
  }
}

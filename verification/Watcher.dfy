/** The checkpoint watcher: per arm, a row of cutoffs to capture in order of time. */
module Watcher {
  import opened Collections
  import R = Readiness

  type Name = nat
  type Future = nat

  datatype Status = Pending | Capturing | Captured | Failed | NotReached | LateUnavailable

  datatype Cutoff = Cutoff(status: Status, attempts: nat)

  datatype Arm = Arm(trial: Option<Name>, cutoffs: seq<Cutoff>)

  /** What a poll finds of an arm: its trial, freeze offsets, and whether the arm's run
      has a final record. */
  datatype Seen = Seen(name: Name, trial: R.Trial, freeze: int, completedFreeze: int)
  datatype Look = Look(seen: Option<Seen>, terminal: bool)

  /** index: the index in memory. durable: the index file. A future stands for the
      capture of one cutoff of one arm; keys are the arms with a capture in flight. */
  datatype State = State(index: seq<Arm>, durable: seq<Arm>, inflight: map<Future, (nat, nat)>, keys: set<nat>,
                         next: nat, restarts: nat, complete: bool)

  predicate Terminal(st: Status)
  {
    st == Captured || st == NotReached || st == Failed || st == LateUnavailable
  }

  // ---- one arm ----

  function FirstPending(cs: seq<Cutoff>): (i: nat)
    ensures i <= |cs| && (i < |cs| ==> cs[i].status == Pending) && forall k | 0 <= k < i :: cs[k].status != Pending
  {
    if cs == [] then 0 else if cs[0].status == Pending then 0 else 1 + FirstPending(cs[1..])
  }

  function AllFailed(cs: seq<Cutoff>): (r: seq<Cutoff>)
    ensures |r| == |cs| && forall i | 0 <= i < |r| :: r[i] == cs[i].(status := Failed)
  {
    seq(|cs|, (i: nat) requires i < |cs| => cs[i].(status := Failed))
  }

  function Ended(c: Cutoff, time: int, final: int): Cutoff
  {
    if c.status != Pending then c
    else c.(status := if final >= time then LateUnavailable else NotReached)
  }

  function AllEnded(cs: seq<Cutoff>, times: seq<int>, final: int): (r: seq<Cutoff>)
    requires |times| == |cs|
    ensures |r| == |cs| && forall i | 0 <= i < |r| :: r[i] == Ended(cs[i], times[i], final)
  {
    seq(|cs|, (i: nat) requires i < |cs| => Ended(cs[i], times[i], final))
  }

  predicate Renamed(arm: Arm, look: Look)
  {
    look.seen.Some? && arm.trial.Some? && arm.trial.value != look.seen.value.name
  }

  predicate IsOver(look: Look)
  {
    look.terminal && (look.seen == None || look.seen.value.trial.running == None)
  }

  function FinalActive(look: Look): int
  {
    if look.seen == None then 0 else Max(0, look.seen.value.trial.active - look.seen.value.freeze)
  }

  function ReadinessOf(look: Look, time: int): R.Ready
  {
    if look.seen == None then R.CaptureReadiness(None, time, 0, 0)
    else R.CaptureReadiness(Some(look.seen.value.trial), time, look.seen.value.freeze, look.seen.value.completedFreeze)
  }

  /** One poll of an arm that has no capture in flight: the arm afterwards, and the cutoff
      to capture now, if any. */
  function ScanArm(arm: Arm, look: Look, times: seq<int>): (Arm, Option<nat>)
    requires |times| == |arm.cutoffs|
  {
    if Renamed(arm, look) then (arm.(cutoffs := AllFailed(arm.cutoffs)), None)
    else
      var arm := if look.seen.Some? then arm.(trial := Some(look.seen.value.name)) else arm;
      var c := FirstPending(arm.cutoffs);
      if c == |arm.cutoffs| then (arm, None)
      else if IsOver(look) then (arm.(cutoffs := AllEnded(arm.cutoffs, times, FinalActive(look))), None)
      else
        match ReadinessOf(look, times[c])
        case Pending => (arm, None)
        case Late => (arm.(cutoffs := arm.cutoffs[c := arm.cutoffs[c].(status := LateUnavailable)]), None)
        case Due =>
          (arm.(cutoffs := arm.cutoffs[c := Cutoff(Capturing, arm.cutoffs[c].attempts + 1)]), Some(c))
  }

  function Harvested(c: Cutoff, ok: bool, max: nat): Cutoff
  {
    c.(status := if ok then Captured else if c.attempts >= max then Failed else Pending)
  }

  function Recover(c: Cutoff): Cutoff
  {
    if c.status == Capturing then c.(status := Pending) else c
  }

  function Recovered(arm: Arm): (r: Arm)
    ensures |r.cutoffs| == |arm.cutoffs| && forall i | 0 <= i < |r.cutoffs| :: r.cutoffs[i] == Recover(arm.cutoffs[i])
  {
    arm.(cutoffs := seq(|arm.cutoffs|, (i: nat) requires i < |arm.cutoffs| => Recover(arm.cutoffs[i])))
  }

  function AllRecovered(index: seq<Arm>): (r: seq<Arm>)
    ensures |r| == |index| && forall a | 0 <= a < |r| :: r[a] == Recovered(index[a])
  {
    seq(|index|, (a: nat) requires a < |index| => Recovered(index[a]))
  }

  // ---- steps ----

  /** The parts of the polling loop, and a restart of the process from the index file. */
  datatype Action = Harvest(f: Future, ok: bool) | Scan(a: nat, look: Look) | Publish(primaryTerminal: bool) | Restart

  predicate ArmDone(arm: Arm)
  {
    forall i | 0 <= i < |arm.cutoffs| :: Terminal(arm.cutoffs[i].status)
  }

  predicate IndexComplete(index: seq<Arm>)
  {
    index != [] && forall a | 0 <= a < |index| :: ArmDone(index[a])
  }

  predicate Shaped(s: State, times: seq<int>)
  {
    && (forall a | 0 <= a < |s.index| :: |s.index[a].cutoffs| == |times|)
    && (forall f | f in s.inflight :: s.inflight[f].0 < |s.index| && s.inflight[f].1 < |times|)
  }

  function SetCutoff(index: seq<Arm>, a: nat, c: nat, x: Cutoff): seq<Arm>
    requires a < |index| && c < |index[a].cutoffs|
  {
    index[a := index[a].(cutoffs := index[a].cutoffs[c := x])]
  }

  function Apply(s: State, act: Action, times: seq<int>, max: nat): State
    requires Shaped(s, times)
  {
    match act
    case Harvest(f, ok) =>
      if s.complete || f !in s.inflight then s
      else
        var (a, c) := s.inflight[f];
        var index := SetCutoff(s.index, a, c, Harvested(s.index[a].cutoffs[c], ok, max));
        s.(index := index, durable := index, inflight := s.inflight - {f}, keys := s.keys - {a})
    case Scan(a, look) =>
      if s.complete || a >= |s.index| || a in s.keys then s
      else
        var (arm, due) := ScanArm(s.index[a], look, times);
        var s := s.(index := s.index[a := arm]);
        if due == None then s
        else s.(inflight := s.inflight[s.next := (a, due.value)], keys := s.keys + {a}, next := s.next + 1)
    case Publish(primaryTerminal) =>
      if s.complete then s
      else s.(durable := s.index, complete := IndexComplete(s.index) && s.inflight == map[] && primaryTerminal)
    case Restart =>
      var index := AllRecovered(s.durable);
      s.(index := index, durable := index, inflight := map[], keys := {}, restarts := s.restarts + 1, complete := false)
  }
}

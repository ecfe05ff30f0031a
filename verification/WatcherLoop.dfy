/** The polling loop over its mutable index, proved against Watcher. */
module WatcherLoop {
  import opened Collections
  import opened Watcher
  import opened WatcherLaws
  import R = Readiness

  /** Mark every cutoff failed. */
  method FailAll(cs0: seq<Cutoff>) returns (cs: seq<Cutoff>)
    ensures cs == AllFailed(cs0)
  {
    cs := cs0;
    for i := 0 to |cs|
      invariant |cs| == |cs0|
      invariant forall k | 0 <= k < |cs| :: cs[k] == if k < i then cs0[k].(status := Failed) else cs0[k]
    {
      cs := cs[i := cs[i].(status := Failed)];
    }
  }

  /** The arm has ended: give every pending cutoff its verdict. */
  method EndAll(cs0: seq<Cutoff>, times: seq<int>, final: int) returns (cs: seq<Cutoff>)
    requires |times| == |cs0|
    ensures cs == AllEnded(cs0, times, final)
  {
    cs := cs0;
    for i := 0 to |cs|
      invariant |cs| == |cs0|
      invariant forall k | 0 <= k < |cs| :: cs[k] == if k < i then Ended(cs0[k], times[k], final) else cs0[k]
    {
      if cs[i].status == Pending {
        cs := cs[i := cs[i].(status := if final >= times[i] then LateUnavailable else NotReached)];
      }
    }
  }

  /** A capture that was under way when the process stopped starts over. */
  method RecoverRow(cs0: seq<Cutoff>) returns (cs: seq<Cutoff>)
    ensures |cs| == |cs0| && forall k | 0 <= k < |cs| :: cs[k] == Recover(cs0[k])
  {
    cs := cs0;
    for i := 0 to |cs|
      invariant |cs| == |cs0|
      invariant forall k | 0 <= k < |cs| :: cs[k] == if k < i then Recover(cs0[k]) else cs0[k]
    {
      if cs[i].status == Capturing {
        cs := cs[i := cs[i].(status := Pending)];
      }
    }
  }

  method RecoverAll(index0: seq<Arm>) returns (index: seq<Arm>)
    ensures index == AllRecovered(index0)
  {
    index := index0;
    for a := 0 to |index|
      invariant |index| == |index0|
      invariant forall b | 0 <= b < |index| :: index[b] == if b < a then Recovered(index0[b]) else index0[b]
    {
      var cs := RecoverRow(index[a].cutoffs);
      assert cs == Recovered(index0[a]).cutoffs;
      index := index[a := index[a].(cutoffs := cs)];
    }
  }

  method FindPending(cs: seq<Cutoff>) returns (c: nat)
    ensures c == FirstPending(cs)
  {
    c := 0;
    while c < |cs| && cs[c].status != Pending
      invariant c <= |cs| && forall k | 0 <= k < c :: cs[k].status != Pending
    {
      c := c + 1;
    }
  }

  /** What one poll makes of an arm, and the cutoff it starts to capture. */
  method PollArm(arm0: Arm, look: Look, times: seq<int>) returns (arm: Arm, due: Option<nat>)
    requires |times| == |arm0.cutoffs|
    ensures (arm, due) == ScanArm(arm0, look, times)
  {
    arm, due := arm0, None;
    if look.seen.Some? {
      if arm.trial == None {
        arm := arm.(trial := Some(look.seen.value.name));
      } else if arm.trial.value != look.seen.value.name {
        var failed := FailAll(arm.cutoffs);
        arm := arm.(cutoffs := failed);
        return;
      }
    }
    var c := FindPending(arm.cutoffs);
    if c == |arm.cutoffs| {
      return;
    }
    if IsOver(look) {
      var ended := EndAll(arm.cutoffs, times, FinalActive(look));
      arm := arm.(cutoffs := ended);
      return;
    }
    var readiness, state := ReadinessOf(look, times[c]), arm.cutoffs[c];
    if readiness == R.Late {
      arm := arm.(cutoffs := arm.cutoffs[c := state.(status := LateUnavailable)]);
    } else if readiness == R.Due {
      arm := arm.(cutoffs := arm.cutoffs[c := Cutoff(Capturing, state.attempts + 1)]);
      due := Some(c);
    }
  }

  lemma {:induction false} RunAppend(s: State, acts: seq<Action>, act: Action, times: seq<int>, max: nat)
    requires Good(Run(s, acts, times, max), times, max)
    ensures Shaped(Run(s, acts, times, max), times)
    ensures Run(s, acts + [act], times, max) == Apply(Run(s, acts, times, max), act, times, max)
    ensures Good(Run(s, acts + [act], times, max), times, max)
  {
    ApplyGood(Run(s, acts, times, max), act, times, max);
    assert (acts + [act])[..|acts|] == acts;
  }

  /** The actions of one round of the loop. */
  function Harvests(done: seq<(Future, bool)>): (r: seq<Action>)
    ensures |r| == |done| && forall i | 0 <= i < |r| :: r[i] == Harvest(done[i].0, done[i].1)
  {
    seq(|done|, (i: nat) requires i < |done| => Harvest(done[i].0, done[i].1))
  }

  function Scans(looks: seq<Look>): (r: seq<Action>)
    ensures |r| == |looks| && forall i: nat | i < |r| :: r[i] == Scan(i, looks[i])
  {
    seq(|looks|, (i: nat) requires i < |looks| => Scan(i, looks[i]))
  }

  class Loop {
    var index: seq<Arm>
    var durable: seq<Arm>
    var inflight: map<Future, (nat, nat)>
    var keys: set<nat>
    var next: nat
    var restarts: nat
    var complete: bool
    const times: seq<int>
    const max: nat

    ghost function View(): State
      reads this
    {
      State(index, durable, inflight, keys, next, restarts, complete)
    }

    constructor (index: seq<Arm>, times: seq<int>, max: nat)
      requires Initial(index, |times|) && max >= 1
      ensures this.times == times && this.max == max && View() == Start(index) && Good(View(), times, max)
    {
      this.index, durable, inflight, keys, next, restarts, complete := index, index, map[], {}, 0, 0, false;
      this.times, this.max := times, max;
      new;
      StartGood(index, times, max);
    }

    /** A capture has finished: note the result and write the index. */
    method HarvestOne(f: Future, ok: bool)
      requires Good(View(), times, max)
      modifies this
      ensures Shaped(old(View()), times) && View() == Apply(old(View()), Harvest(f, ok), times, max)
    {
      GoodShaped(View(), times, max);
      if complete || f !in inflight {
        return;
      }
      var (a, c) := inflight[f];
      inflight := inflight - {f};
      keys := keys - {a};
      var state := index[a].cutoffs[c];
      if ok {
        state := state.(status := Captured);
      } else if state.attempts >= max {
        state := state.(status := Failed);
      } else {
        state := state.(status := Pending);
      }
      index := index[a := index[a].(cutoffs := index[a].cutoffs[c := state])];
      durable := index;
    }

    /** One arm of the poll. */
    method ScanOne(a: nat, look: Look)
      requires Good(View(), times, max)
      modifies this
      ensures Shaped(old(View()), times) && View() == Apply(old(View()), Scan(a, look), times, max)
    {
      GoodShaped(View(), times, max);
      if complete || a >= |index| || a in keys {
        return;
      }
      var arm, due := PollArm(index[a], look, times);
      index := index[a := arm];
      if due.Some? {
        inflight := inflight[next := (a, due.value)];
        keys := keys + {a};
        next := next + 1;
      }
    }

    method HarvestAll(done: seq<(Future, bool)>)
      requires Good(View(), times, max)
      modifies this
      ensures View() == Run(old(View()), Harvests(done), times, max) && Good(View(), times, max)
    {
      ghost var s, h := View(), Harvests(done);
      for i := 0 to |done|
        invariant View() == Run(s, h[..i], times, max) && Good(View(), times, max)
      {
        RunNext(s, h, i, times, max);
        HarvestOne(done[i].0, done[i].1);
      }
      assert h[..|done|] == h;
    }

    method ScanAll(looks: seq<Look>)
      requires Good(View(), times, max)
      modifies this
      ensures View() == Run(old(View()), Scans(looks), times, max) && Good(View(), times, max)
    {
      ghost var s, r := View(), Scans(looks);
      for i := 0 to |looks|
        invariant View() == Run(s, r[..i], times, max) && Good(View(), times, max)
      {
        RunNext(s, r, i, times, max);
        ScanOne(i, looks[i]);
      }
      assert r[..|looks|] == r;
    }

    method PublishIndex(primaryTerminal: bool)
      requires Good(View(), times, max)
      modifies this
      ensures View() == Run(old(View()), [Publish(primaryTerminal)], times, max) && Good(View(), times, max)
    {
      RunAppend(View(), [], Publish(primaryTerminal), times, max);
      assert [] + [Publish(primaryTerminal)] == [Publish(primaryTerminal)];
      if !complete {
        durable := index;
        complete := IndexComplete(index) && inflight == map[] && primaryTerminal;
      }
    }

    /** A new process starts from the index file. */
    method RestartFromFile()
      requires Good(View(), times, max)
      modifies this
      ensures View() == Run(old(View()), [Restart], times, max) && Good(View(), times, max)
    {
      RunAppend(View(), [], Restart, times, max);
      assert [] + [Restart] == [Restart];
      index := RecoverAll(durable);
      durable, inflight, keys, restarts, complete := index, map[], {}, restarts + 1, false;
    }

    /** One round: collect finished captures, poll every arm, write the index. */
    method Poll(done: seq<(Future, bool)>, looks: seq<Look>, primaryTerminal: bool)
      requires Good(View(), times, max)
      modifies this
      ensures View() == Run(old(View()), Harvests(done) + Scans(looks) + [Publish(primaryTerminal)], times, max)
      ensures Good(View(), times, max)
    {
      ghost var s := View();
      HarvestAll(done);
      ScanAll(looks);
      RunConcat(s, Harvests(done), Scans(looks), times, max);
      PublishIndex(primaryTerminal);
      RunConcat(s, Harvests(done) + Scans(looks), [Publish(primaryTerminal)], times, max);
    }
  }

  lemma RunNext(s: State, acts: seq<Action>, i: nat, times: seq<int>, max: nat)
    requires i < |acts| && Good(Run(s, acts[..i], times, max), times, max)
    ensures Shaped(Run(s, acts[..i], times, max), times)
    ensures Run(s, acts[..i + 1], times, max) == Apply(Run(s, acts[..i], times, max), acts[i], times, max)
    ensures Good(Run(s, acts[..i + 1], times, max), times, max)
  {
    assert acts[..i + 1] == acts[..i] + [acts[i]];
    RunAppend(s, acts[..i], acts[i], times, max);
  }

  lemma {:induction false} RunConcat(s: State, a: seq<Action>, b: seq<Action>, times: seq<int>, max: nat)
    ensures Run(Run(s, a, times, max), b, times, max) == Run(s, a + b, times, max)
  {
    if b == [] {
      assert a + b == a;
    } else {
      var init := b[..|b| - 1];
      assert (a + b)[..|a + b| - 1] == a + init;
      RunConcat(s, a, init, times, max);
    }
  }
}

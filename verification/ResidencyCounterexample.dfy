/** The experiment's report states that residency-aware dispatch reduces misses and
    that its advantage grows with kappa. With a window and two agents or more there is
    always a workload on which both fail; with one agent or no window there is none. */
module ResidencyCounterexample {
  import opened Collections
  import opened Residency
  import opened ResidencyLaws

  // ---- blocks of w artifacts ----

  lemma BlockOf(b: nat, w: nat, i: nat)
    requires i < w
    ensures (b * w + i) / w == b && (b * w + i) % w == i
  {
    ModUnique(b * w + i, w, b, i);
    var x := b * w + i;
    assert x == w * (x / w) + x % w;
    Scaling(0, w, x / w, b);
  }

  /** Block b; block 0 stands for reading or holding nothing. */
  function Block(b: nat, w: nat): (r: seq<Artifact>)
    ensures |r| == if b == 0 then 0 else w
    ensures forall i | 0 <= i < |r| :: r[i] == b * w + i
  {
    if b == 0 then [] else seq(w, (i: nat) => b * w + i)
  }

  lemma BlockMember(b: nat, w: nat, x: Artifact)
    ensures x in Block(b, w) <==> b != 0 && w != 0 && x / w == b
  {
    if x in Block(b, w) {
      var i: nat :| i < |Block(b, w)| && Block(b, w)[i] == x;
      BlockOf(b, w, i);
    }
    if b != 0 && w != 0 && x / w == b {
      assert x == w * (x / w) + x % w;
      assert Block(b, w)[x % w] == x;
    }
  }

  ghost function Cells(b: nat, w: nat): (r: set<Artifact>)
    ensures |r| == if b == 0 then 0 else w
  {
    SameSize(Block(b, w));
    Elements(Block(b, w))
  }

  // ---- operations on blocks ----

  /** Read block `first`, unless it is 0, and then block `last`. */
  datatype Op = Op(first: nat, last: nat)

  predicate Proper(op: Op)
  {
    op.last != 0 && op.first != op.last
  }

  function TaskOf(op: Op, w: nat): Task
  {
    Task(Block(op.first, w) + Block(op.last, w), 1)
  }

  /** How many blocks an agent holding block h has to load. */
  function Units(op: Op, h: nat): nat
  {
    (if op.first != 0 && op.first != h then 1 else 0) + (if op.last != h then 1 else 0)
  }

  lemma CellsApart(b: nat, c: nat, w: nat)
    requires b != c
    ensures Cells(b, w) !! Cells(c, w)
  {
    forall x | x in Cells(b, w) ensures x !in Cells(c, w) {
      BlockMember(b, w, x);
      BlockMember(c, w, x);
    }
  }

  lemma MissCells(op: Op, h: nat, w: nat)
    requires Proper(op)
    ensures MissSet(TaskOf(op, w), Block(h, w))
         == (if op.first == h then {} else Cells(op.first, w)) + (if op.last == h then {} else Cells(op.last, w))
  {
    if op.first != h {
      CellsApart(op.first, h, w);
    }
    if op.last != h {
      CellsApart(op.last, h, w);
    }
  }

  lemma MissUnits(op: Op, h: nat, w: nat)
    requires Proper(op)
    ensures |MissSet(TaskOf(op, w), Block(h, w))| == w * Units(op, h)
  {
    MissCells(op, h, w);
    CellsApart(op.first, op.last, w);
    var x, y := if op.first == h then {} else Cells(op.first, w), if op.last == h then {} else Cells(op.last, w);
    assert |x + y| == |x| + |y|;
    assert w * 0 == 0 && w * 1 == w && w * 2 == w + w;
  }

  lemma DepsOnce(op: Op, w: nat)
    requires Proper(op)
    ensures NoRepeat(TaskOf(op, w).deps)
  {
    var x, y := Block(op.first, w), Block(op.last, w);
    forall i, j | 0 <= i < |x| && 0 <= j < |y| ensures x[i] != y[j] {
      BlockMember(op.first, w, x[i]);
      BlockMember(op.last, w, y[j]);
    }
  }

  lemma TouchLast(y: seq<Artifact>, init: seq<Artifact>, d: Artifact)
    requires d !in init
    ensures Touch(y + init, d) == (if d in y then Remove(y, d) else y) + init + [d]
  {
    RemoveConcat(y, init, d);
    RemoveAbsent(init, d);
  }

  lemma EndsStep(r: seq<Artifact>, deps: seq<Artifact>, init: seq<Artifact>, d: Artifact, y: seq<Artifact>)
    requires deps == init + [d] && d !in init && TouchAll(r, init) == y + init
    ensures TouchAll(r, deps) == (if d in y then Remove(y, d) else y) + deps
  {
    assert deps[..|deps| - 1] == init;
    TouchLast(y, init, d);
    Assoc(if d in y then Remove(y, d) else y, init, [d]);
  }

  lemma Assoc(x: seq<Artifact>, y: seq<Artifact>, z: seq<Artifact>)
    ensures x + y + z == x + (y + z)
  {
  }

  /** What was read last is at the end of the list. */
  lemma {:induction false} EndsWithDeps(r: seq<Artifact>, deps: seq<Artifact>) returns (x: seq<Artifact>)
    requires NoRepeat(deps)
    ensures TouchAll(r, deps) == x + deps
  {
    if deps == [] {
      x := r;
    } else {
      var init, d := deps[..|deps| - 1], deps[|deps| - 1];
      var y := EndsWithDeps(r, init);
      x := if d in y then Remove(y, d) else y;
      assert deps == init + [d];
      EndsStep(r, deps, init, d, y);
    }
  }

  lemma SettlesOn(r: seq<Artifact>, a: seq<Artifact>, b: seq<Artifact>, w: nat)
    requires NoRepeat(a + b) && |b| == w
    ensures Settle(r, a + b, w) == b
  {
    var x := EndsWithDeps(r, a + b);
    Assoc(x, a, b);
    LastOfConcat(x + a, b, w);
  }

  /** An agent ends up holding exactly the last block it read. */
  lemma HoldsLast(r: seq<Artifact>, op: Op, w: nat)
    requires Proper(op)
    ensures Settle(r, TaskOf(op, w).deps, w) == Block(op.last, w)
  {
    DepsOnce(op, w);
    SettlesOn(r, Block(op.first, w), Block(op.last, w), w);
  }

  lemma LastOfConcat(x: seq<Artifact>, y: seq<Artifact>, w: nat)
    requires |y| == w
    ensures LastOf(x + y, w) == y
  {
  }

  // ---- runs on blocks ----

  predicate Increasing(o: seq<Agent>)
  {
    forall i, j | 0 <= i < j < |o| :: o[i] < o[j]
  }

  /** What each agent holds, how many tasks it ran, and the blocks loaded so far. */
  datatype State = State(held: seq<nat>, load: seq<nat>, units: nat)

  predicate Before(p: Policy, s: State, op: Op, i: nat, j: nat)
    requires i < |s.held| == |s.load| && j < |s.held|
  {
    var x, y := Units(op, s.held[i]), Units(op, s.held[j]);
    if p == GraphOnly || x == y then s.load[i] < s.load[j] || (s.load[i] == s.load[j] && i < j) else x < y
  }

  ghost predicate IsPick(p: Policy, s: State, op: Op, c: nat)
  {
    && |s.held| == |s.load| && c < |s.held|
    && forall j: nat | j < |s.held| :: !Before(p, s, op, j, c)
  }

  function Put(s: State, op: Op, c: nat): State
    requires c < |s.held| == |s.load|
  {
    State(s.held[c := op.last], s.load[c := s.load[c] + 1], s.units + Units(op, s.held[c]))
  }

  ghost predicate Shows(tasks: seq<Task>, who: seq<Agent>, w: nat, a: Agent, load: nat, held: nat)
    requires |tasks| == |who|
  {
    Load(who, a) == load && Resident(tasks, who, w, a) == Block(held, w)
  }

  ghost predicate Matches(tasks: seq<Task>, who: seq<Agent>, w: nat, o: seq<Agent>, s: State)
    requires |tasks| == |who|
  {
    && |o| == |s.held| == |s.load|
    && (forall j {:trigger Shows(tasks, who, w, o[j], s.load[j], s.held[j])} | 0 <= j < |o| ::
          Shows(tasks, who, w, o[j], s.load[j], s.held[j]))
    && Misses(tasks, who, w) == w * s.units
  }

  lemma {:induction false} KeyOrder(p: Policy, k: int, w: nat, op: Op, tasks: seq<Task>, who: seq<Agent>, o: seq<Agent>,
                                    s: State, i: nat, j: nat)
    requires p != PureAffinity && k >= 1 && w >= 1 && Proper(op) && Increasing(o)
    requires |tasks| == |who| && Matches(tasks, who, w, o, s) && i < |o| && j < |o|
    ensures Less(KeyAt(p, k, w, TaskOf(op, w), tasks, who, o[i]), KeyAt(p, k, w, TaskOf(op, w), tasks, who, o[j]))
       <==> Before(p, s, op, i, j)
  {
    assert Shows(tasks, who, w, o[i], s.load[i], s.held[i]) && Shows(tasks, who, w, o[j], s.load[j], s.held[j]);
    var x, y := Units(op, s.held[i]), Units(op, s.held[j]);
    MissUnits(op, s.held[i], w);
    MissUnits(op, s.held[j], w);
    Scaling(0, w, x, y);
    Scaling(1, k, w * x, w * y);
    assert o[i] < o[j] <==> i < j;
  }

  lemma PickIsChoice(p: Policy, k: int, w: nat, op: Op, tasks: seq<Task>, who: seq<Agent>, o: seq<Agent>, s: State, c: nat)
    requires p != PureAffinity && k >= 1 && w >= 1 && Proper(op) && Increasing(o)
    requires |tasks| == |who| && Matches(tasks, who, w, o, s) && IsPick(p, s, op, c)
    ensures Choose(p, k, w, TaskOf(op, w), tasks, who, o) == o[c]
  {
    var t := TaskOf(op, w);
    forall b | b in o ensures !Less(KeyAt(p, k, w, t, tasks, who, b), KeyAt(p, k, w, t, tasks, who, o[c])) {
      var j: nat :| j < |o| && o[j] == b;
      KeyOrder(p, k, w, op, tasks, who, o, s, j, c);
    }
    ChooseIsChoice(p, k, w, t, tasks, who, o);
    ChoiceUnique(p, k, w, t, tasks, who, o, o[c], Choose(p, k, w, t, tasks, who, o));
  }

  lemma Grow(tasks: seq<Task>, who: seq<Agent>, w: nat, t: Task, c: Agent, a: Agent)
    requires |tasks| == |who|
    ensures Load(who + [c], a) == Load(who, a) + if c == a then 1 else 0
    ensures Resident(tasks + [t], who + [c], w, a)
         == var before := Resident(tasks, who, w, a); if c == a then Settle(before, t.deps, w) else before
  {
    assert (tasks + [t])[..|tasks|] == tasks && (who + [c])[..|who|] == who;
  }

  lemma ShowsStep(w: nat, op: Op, tasks: seq<Task>, who: seq<Agent>, c: Agent, a: Agent, load: nat, held: nat)
    requires Proper(op) && |tasks| == |who| && Shows(tasks, who, w, a, load, held)
    ensures c == a ==> Shows(tasks + [TaskOf(op, w)], who + [c], w, a, load + 1, op.last)
    ensures c != a ==> Shows(tasks + [TaskOf(op, w)], who + [c], w, a, load, held)
  {
    Grow(tasks, who, w, TaskOf(op, w), c, a);
    HoldsLast(Block(held, w), op, w);
  }

  lemma MissesAppend(w: nat, tasks: seq<Task>, who: seq<Agent>, t: Task, c: Agent)
    requires |tasks| == |who|
    ensures Misses(tasks + [t], who + [c], w) == Misses(tasks, who, w) + |MissSet(t, Resident(tasks, who, w, c))|
  {
    assert (tasks + [t])[..|tasks|] == tasks && (who + [c])[..|who|] == who;
  }

  lemma Distribute(w: nat, x: nat, y: nat)
    ensures w * (x + y) == w * x + w * y
  {
  }

  lemma MissesStep(w: nat, op: Op, tasks: seq<Task>, who: seq<Agent>, c: Agent, held: nat, units: nat)
    requires Proper(op) && |tasks| == |who| && Resident(tasks, who, w, c) == Block(held, w)
    requires Misses(tasks, who, w) == w * units
    ensures Misses(tasks + [TaskOf(op, w)], who + [c], w) == w * (units + Units(op, held))
  {
    MissesAppend(w, tasks, who, TaskOf(op, w), c);
    MissUnits(op, held, w);
    Distribute(w, units, Units(op, held));
  }

  lemma PutShows(w: nat, op: Op, tasks: seq<Task>, who: seq<Agent>, o: seq<Agent>, s: State, c: nat, j: nat)
    requires Proper(op) && Increasing(o) && |tasks| == |who| && |o| == |s.held| == |s.load| && c < |o| && j < |o|
    requires Shows(tasks, who, w, o[j], s.load[j], s.held[j])
    ensures var s' := Put(s, op, c);
      Shows(tasks + [TaskOf(op, w)], who + [o[c]], w, o[j], s'.load[j], s'.held[j])
  {
    ShowsStep(w, op, tasks, who, o[c], o[j], s.load[j], s.held[j]);
    assert o[c] == o[j] <==> c == j;
  }

  lemma MatchesStep(w: nat, op: Op, tasks: seq<Task>, who: seq<Agent>, o: seq<Agent>, s: State, c: nat)
    requires Proper(op) && Increasing(o) && |tasks| == |who| && Matches(tasks, who, w, o, s) && c < |o|
    ensures Matches(tasks + [TaskOf(op, w)], who + [o[c]], w, o, Put(s, op, c))
  {
    var s' := Put(s, op, c);
    forall j | 0 <= j < |o| ensures Shows(tasks + [TaskOf(op, w)], who + [o[c]], w, o[j], s'.load[j], s'.held[j]) {
      assert Shows(tasks, who, w, o[j], s.load[j], s.held[j]);
      PutShows(w, op, tasks, who, o, s, c, j);
    }
    assert Shows(tasks, who, w, o[c], s.load[c], s.held[c]);
    MissesStep(w, op, tasks, who, o[c], s.held[c], s.units);
  }

  /** The operations so far, the last one outermost. */
  datatype Ops = Nil | Then(init: Ops, op: Op)

  predicate AllProper(ops: Ops)
  {
    ops.Nil? || (AllProper(ops.init) && Proper(ops.op))
  }

  function TasksOf(ops: Ops, w: nat): seq<Task>
  {
    match ops
    case Nil => []
    case Then(init, op) => TasksOf(init, w) + [TaskOf(op, w)]
  }

  /** The least of the first m agents. */
  function Pick(p: Policy, s: State, op: Op, m: nat): (c: nat)
    requires 0 < m <= |s.held| == |s.load|
    ensures c < m
  {
    if m == 1 then 0
    else
      var c := Pick(p, s, op, m - 1);
      if Before(p, s, op, m - 1, c) then m - 1 else c
  }

  function Start(n: nat): (s: State)
    ensures |s.held| == |s.load| == n && s.units == 0
    ensures forall j: nat | j < n :: s.held[j] == 0 && s.load[j] == 0
  {
    State(seq(n, i => 0), seq(n, i => 0), 0)
  }

  /** The state of n agents after these operations. */
  function After(p: Policy, n: nat, ops: Ops): (s: State)
    requires n > 0
    ensures |s.held| == |s.load| == n
  {
    match ops
    case Nil => Start(n)
    case Then(init, op) => var s := After(p, n, init); Put(s, op, Pick(p, s, op, n))
  }

  lemma {:induction false} PickIsPick(p: Policy, s: State, op: Op, m: nat, j: nat)
    requires j < m <= |s.held| == |s.load|
    ensures !Before(p, s, op, j, Pick(p, s, op, m))
  {
    if m > 1 {
      PickIsPick(p, s, op, m - 1, if j < m - 1 then j else 0);
    }
  }

  lemma Advance(p: Policy, n: nat, ops: Ops, s: State, op: Op, c: nat)
    requires n > 0 && After(p, n, ops) == s && IsPick(p, s, op, c)
    ensures After(p, n, Then(ops, op)) == Put(s, op, c)
  {
    PickIsPick(p, s, op, n, c);
    assert !Before(p, s, op, Pick(p, s, op, n), c);
  }

  /** The simulation on tasks does what the run on blocks says. */
  lemma {:induction false} Refines(p: Policy, k: int, w: nat, o: seq<Agent>, ops: Ops)
    requires p != PureAffinity && k >= 1 && w >= 1 && Increasing(o) && o != [] && AllProper(ops)
    ensures Matches(TasksOf(ops, w), Dispatches(p, k, w, TasksOf(ops, w), o), w, o, After(p, |o|, ops))
    decreases ops
  {
    match ops
    case Nil =>
      StartMatches(w, o);
    case Then(init, op) =>
      Refines(p, k, w, o, init);
      RefinesStep(p, k, w, o, init, op, After(p, |o|, init));
  }

  lemma StartMatches(w: nat, o: seq<Agent>)
    ensures Matches([], [], w, o, Start(|o|))
  {
  }

  lemma RefinesStep(p: Policy, k: int, w: nat, o: seq<Agent>, ops: Ops, op: Op, s: State)
    requires p != PureAffinity && k >= 1 && w >= 1 && Increasing(o) && o != [] && Proper(op)
    requires |s.held| == |s.load| == |o|
    requires Matches(TasksOf(ops, w), Dispatches(p, k, w, TasksOf(ops, w), o), w, o, s)
    ensures Matches(TasksOf(Then(ops, op), w), Dispatches(p, k, w, TasksOf(Then(ops, op), w), o), w, o,
                    Put(s, op, Pick(p, s, op, |o|)))
  {
    var tasks := TasksOf(ops, w);
    var who, c := Dispatches(p, k, w, tasks, o), Pick(p, s, op, |o|);
    forall j: nat | j < |o| ensures !Before(p, s, op, j, c) {
      PickIsPick(p, s, op, |o|, j);
    }
    PickIsChoice(p, k, w, op, tasks, who, o, s, c);
    History(p, k, w, tasks, TaskOf(op, w), o, who, o[c]);
    MatchesStep(w, op, tasks, who, o, s, c);
  }

  // ---- a row of new blocks ----

  /** Then m new blocks, from b on. */
  function Fresh(ops: Ops, b: nat, m: nat): Ops
  {
    if m == 0 then ops else Then(Fresh(ops, b, m - 1), Op(0, b + m - 1))
  }

  lemma {:induction false} FreshProper(ops: Ops, b: nat, m: nat)
    requires AllProper(ops) && b > 0
    ensures AllProper(Fresh(ops, b, m))
  {
    if m > 0 {
      FreshProper(ops, b, m - 1);
    }
  }

  /** The agents from c on have the least load, and nobody holds block b or a later one. */
  ghost predicate Flat(s: State, c: nat, q: nat, b: nat)
  {
    && |s.held| == |s.load|
    && (forall j | 0 <= j < c && j < |s.load| :: s.load[j] > q)
    && (forall j | c <= j < |s.load| :: s.load[j] == q)
    && (forall j | 0 <= j < |s.held| :: s.held[j] < b)
  }

  /** Where loading costs the same everywhere, the first agent with the least load is picked. */
  lemma FirstPick(p: Policy, s: State, op: Op, c: nat)
    requires c < |s.held| == |s.load|
    requires forall j: nat | j < |s.load| :: s.load[c] <= s.load[j]
    requires forall j: nat | j < c :: s.load[c] < s.load[j]
    requires p == GraphOnly || forall j: nat | j < |s.held| :: Units(op, s.held[j]) == Units(op, s.held[c])
    ensures IsPick(p, s, op, c)
  {
    forall j: nat | j < |s.held| ensures !Before(p, s, op, j, c) {
    }
  }

  /** The state after m new blocks, from b on, went to m agents, from c on. */
  function Filled(s: State, c: nat, b: nat, m: nat): (s': State)
    requires |s.held| == |s.load| && c + m <= |s.held|
    ensures |s'.held| == |s'.load| == |s.held|
  {
    if m == 0 then s else Put(Filled(s, c, b, m - 1), Op(0, b + m - 1), c + m - 1)
  }

  lemma FlatPut(s: State, c: nat, q: nat, b: nat)
    requires Flat(s, c, q, b) && c < |s.held|
    ensures Flat(Put(s, Op(0, b), c), c + 1, q, b + 1) && Put(s, Op(0, b), c).units == s.units + 1
  {
  }

  lemma {:induction false} FilledFlat(s: State, c: nat, q: nat, b: nat, m: nat)
    requires Flat(s, c, q, b) && c + m <= |s.held|
    ensures Flat(Filled(s, c, b, m), c + m, q, b + m) && Filled(s, c, b, m).units == s.units + m
  {
    if m != 0 {
      FilledFlat(s, c, q, b, m - 1);
      FlatPut(Filled(s, c, b, m - 1), c + m - 1, q, b + m - 1);
    }
  }

  /** Those m agents ran one task more each and hold a new block; the others are as before. */
  lemma {:induction false} FilledAt(s: State, c: nat, b: nat, m: nat, j: nat)
    requires |s.held| == |s.load| && c + m <= |s.held| && j < |s.held|
    ensures Filled(s, c, b, m).load[j] == s.load[j] + if c <= j < c + m then 1 else 0
    ensures if c <= j < c + m then Filled(s, c, b, m).held[j] >= b else Filled(s, c, b, m).held[j] == s.held[j]
  {
    if m != 0 {
      FilledAt(s, c, b, m - 1, j);
    }
  }

  lemma FreshNext(p: Policy, n: nat, ops: Ops, s: State, c: nat, q: nat, b: nat, ops': Ops, s': State)
    requires n > 0 && After(p, n, ops) == s && Flat(s, c, q, b) && c < n
    requires ops' == Then(ops, Op(0, b)) && s' == Put(s, Op(0, b), c)
    ensures After(p, n, ops') == s'
  {
    FirstPick(p, s, Op(0, b), c);
    Advance(p, n, ops, s, Op(0, b), c);
  }

  /** After m new blocks the state is the filled one. */
  ghost predicate Fills(p: Policy, n: nat, ops: Ops, s: State, c: nat, b: nat, m: nat)
    requires n > 0 && |s.held| == |s.load| == n && c + m <= n
  {
    After(p, n, Fresh(ops, b, m)) == Filled(s, c, b, m)
  }

  lemma FillsNone(p: Policy, n: nat, ops: Ops, s: State, c: nat, b: nat)
    requires n > 0 && After(p, n, ops) == s && c <= n
    ensures Fills(p, n, ops, s, c, b, 0)
  {
  }

  lemma FillsNext(p: Policy, n: nat, ops: Ops, s: State, c: nat, q: nat, b: nat, i: nat, m: nat)
    requires n > 0 && |s.held| == |s.load| == n && m == i + 1 && c + m <= n
    requires Flat(s, c, q, b) && Fills(p, n, ops, s, c, b, i)
    ensures Fills(p, n, ops, s, c, b, m)
  {
    FilledFlat(s, c, q, b, i);
    FreshNext(p, n, Fresh(ops, b, i), Filled(s, c, b, i), c + i, q, b + i, Fresh(ops, b, m), Filled(s, c, b, m));
  }

  /** With equal loads from c on, m new blocks go to the next m agents, one each. */
  lemma {:induction false} FreshRun(p: Policy, n: nat, ops: Ops, s: State, c: nat, q: nat, b: nat, m: nat)
    requires n > 0 && |s.held| == |s.load| == n && After(p, n, ops) == s && Flat(s, c, q, b) && c + m <= n
    ensures Fills(p, n, ops, s, c, b, m)
    decreases m
  {
    if m == 0 {
      FillsNone(p, n, ops, s, c, b);
    } else {
      FreshRun(p, n, ops, s, c, q, b, m - 1);
      FillsNext(p, n, ops, s, c, q, b, m - 1, m);
    }
  }

  // ---- the workload ----

  /** Block 1, then blocks 1 and 2, then n - 2 new blocks. */
  function Opening(n: nat): Ops
    requires n >= 2
  {
    Fresh(Then(Then(Nil, Op(0, 1)), Op(1, 2)), 3, n - 2)
  }

  /** The opening, block 1 again, n - 1 new blocks, and block 1 once more. */
  function Workload(n: nat): Ops
    requires n >= 2
  {
    Then(Fresh(Then(Opening(n), Op(0, 1)), n + 1, n - 1), Op(0, 1))
  }

  lemma WorkloadProper(n: nat)
    requires n >= 2
    ensures AllProper(Workload(n))
  {
    FreshProper(Then(Then(Nil, Op(0, 1)), Op(1, 2)), 3, n - 2);
    FreshProper(Then(Opening(n), Op(0, 1)), n + 1, n - 1);
  }

  /** The first two operations, given to agent 0 and to agent c. */
  function Two(n: nat, c: nat): (s: State)
    requires c < 2 <= n
    ensures |s.held| == |s.load| == n
  {
    Put(Put(Start(n), Op(0, 1), 0), Op(1, 2), c)
  }

  /** graph_only gives the pair of blocks to agent 1, sigma_aware to agent 0. */
  predicate Goes(p: Policy, c: nat)
  {
    (p == GraphOnly && c == 1) || (p == SigmaAware && c == 0)
  }

  lemma TwoRun(p: Policy, n: nat, c: nat)
    requires n >= 2 && Goes(p, c)
    ensures After(p, n, Then(Then(Nil, Op(0, 1)), Op(1, 2))) == Two(n, c)
  {
    var s0 := Start(n);
    var s1 := Put(s0, Op(0, 1), 0);
    FirstPick(p, s0, Op(0, 1), 0);
    Advance(p, n, Nil, s0, Op(0, 1), 0);
    forall j: nat | j < n ensures !Before(p, s1, Op(1, 2), j, c) {
    }
    Advance(p, n, Then(Nil, Op(0, 1)), s1, Op(1, 2), c);
  }

  lemma TwoFlat(n: nat, c: nat)
    requires c < 2 <= n
    ensures Flat(Two(n, c), c + 1, 0, 3) && Two(n, c).units == 2 + c
  {
  }

  function Opened(n: nat, c: nat): (s: State)
    requires c < 2 <= n
    ensures |s.held| == |s.load| == n
  {
    Filled(Two(n, c), c + 1, 3, n - 2)
  }

  lemma OpeningRun(p: Policy, n: nat, c: nat)
    requires n >= 2 && Goes(p, c)
    ensures After(p, n, Opening(n)) == Opened(n, c)
  {
    TwoRun(p, n, c);
    TwoFlat(n, c);
    FreshRun(p, n, Then(Then(Nil, Op(0, 1)), Op(1, 2)), Two(n, c), c + 1, 0, 3, n - 2);
  }

  /** Given to agent 1, the pair leaves block 1 with agent 0 and the loads even; given to
      agent 0, it pushes block 1 out and leaves the last agent idle. */
  lemma OpenedAt(n: nat, c: nat, j: nat)
    requires c < 2 <= n && j < n
    ensures Opened(n, c).units == n + c
    ensures Opened(n, c).load[j] == if c == 1 then 1 else if j == 0 then 2 else if j < n - 1 then 1 else 0
    ensures Opened(n, c).held[j] <= n && (Opened(n, c).held[j] == 1 <==> c == 1 && j == 0)
  {
    TwoFlat(n, c);
    FilledFlat(Two(n, c), c + 1, 0, 3, n - 2);
    FilledAt(Two(n, c), c + 1, 3, n - 2, j);
  }

  /** Block 1 for the second time: at agent 0, which has it, or at the idle last agent. */
  lemma Again(p: Policy, n: nat, c: nat, d: nat)
    requires n >= 2 && Goes(p, c) && d == if c == 1 then 0 else n - 1
    ensures IsPick(p, Opened(n, c), Op(0, 1), d)
    ensures var s := Put(Opened(n, c), Op(0, 1), d);
      && Flat(s, 1, 1, n + 1) && s.load[0] == 2 && s.units == n + 1 && (s.held[0] == 1 <==> c == 1)
  {
    var s := Opened(n, c);
    forall j: nat | j < n
      ensures s.load[j] == (if c == 1 then 1 else if j == 0 then 2 else if j < n - 1 then 1 else 0)
      ensures s.units == n + c && s.held[j] <= n && (s.held[j] == 1 <==> c == 1 && j == 0)
    {
      OpenedAt(n, c, j);
    }
    FirstPick(p, s, Op(0, 1), d);
  }

  lemma ClosingPick(p: Policy, n: nat, s: State, s1: State)
    requires n >= 2 && |s.held| == n && Flat(s, 1, 1, n + 1) && s.load[0] == 2 && s1 == Filled(s, 1, n + 1, n - 1)
    requires p == GraphOnly || s.held[0] != 1
    ensures IsPick(p, s1, Op(0, 1), 0) && s1.held[0] == s.held[0]
  {
    forall j: nat | j < n ensures s1.load[j] == 2 && (if j == 0 then s1.held[j] == s.held[j] else s1.held[j] > 1) {
      FilledAt(s, 1, n + 1, n - 1, j);
    }
    FirstPick(p, s1, Op(0, 1), 0);
  }

  /** The rest is the same for both: whether agent 0 still holds block 1 decides the last load. */
  lemma Closing(p: Policy, n: nat, ops: Ops, s: State)
    requires n >= 2 && After(p, n, ops) == s && Flat(s, 1, 1, n + 1) && s.load[0] == 2
    requires p == GraphOnly || s.held[0] != 1
    ensures After(p, n, Then(Fresh(ops, n + 1, n - 1), Op(0, 1))).units
         == s.units + n - 1 + if s.held[0] == 1 then 0 else 1
  {
    var s1 := Filled(s, 1, n + 1, n - 1);
    FreshRun(p, n, ops, s, 1, 1, n + 1, n - 1);
    FilledFlat(s, 1, 1, n + 1, n - 1);
    ClosingPick(p, n, s, s1);
    Advance(p, n, Fresh(ops, n + 1, n - 1), s1, Op(0, 1), 0);
  }

  /** In blocks loaded: 2n for graph_only, one more for sigma_aware. */
  lemma WorkloadUnits(p: Policy, n: nat, c: nat)
    requires n >= 2 && Goes(p, c)
    ensures After(p, n, Workload(n)).units == 2 * n + 1 - c
  {
    var d := if c == 1 then 0 else n - 1;
    OpeningRun(p, n, c);
    Again(p, n, c, d);
    Advance(p, n, Opening(n), Opened(n, c), Op(0, 1), d);
    Closing(p, n, Then(Opening(n), Op(0, 1)), Put(Opened(n, c), Op(0, 1), d));
  }

  // ---- any list of agents ----

  lemma Insert(o: seq<Agent>, a: Agent) returns (r: seq<Agent>)
    requires Increasing(o)
    ensures Increasing(r) && forall b :: b in r <==> b == a || b in o
    decreases |o|
  {
    if o == [] || a < o[0] {
      r := [a] + o;
    } else if a == o[0] {
      r := o;
    } else {
      var rest := Insert(o[1..], a);
      r := [o[0]] + rest;
      forall i | 0 <= i < |rest| ensures o[0] < rest[i] {
        assert rest[i] in rest;
      }
    }
  }

  lemma {:induction false} Sorted(agents: seq<Agent>) returns (o: seq<Agent>)
    ensures Increasing(o) && forall a :: a in o <==> a in agents
  {
    if agents == [] {
      o := [];
    } else {
      var rest := Sorted(agents[1..]);
      o := Insert(rest, agents[0]);
    }
  }

  lemma SortedSize(agents: seq<Agent>, o: seq<Agent>)
    requires Increasing(o) && forall a :: a in o <==> a in agents
    ensures |o| == |AgentSet(agents)|
  {
    SameSize(o);
    assert Elements(o) == AgentSet(agents);
  }

  /** Only which agents there are matters, not how they are listed. */
  lemma {:induction false} SameAgents(p: Policy, k: int, w: nat, tasks: seq<Task>, agents: seq<Agent>, o: seq<Agent>)
    requires agents != [] && o != [] && forall a :: a in o <==> a in agents
    ensures Dispatches(p, k, w, tasks, agents) == Dispatches(p, k, w, tasks, o)
  {
    if tasks != [] {
      var n := |tasks| - 1;
      SameAgents(p, k, w, tasks[..n], agents, o);
      var who := Dispatches(p, k, w, tasks[..n], agents);
      var c := Choose(p, k, w, tasks[n], tasks[..n], who, o);
      ChooseIsChoice(p, k, w, tasks[n], tasks[..n], who, agents);
      ChooseIsChoice(p, k, w, tasks[n], tasks[..n], who, o);
      assert IsChoice(p, k, w, tasks[n], tasks[..n], who, agents, c);
      ChoiceUnique(p, k, w, tasks[n], tasks[..n], who, agents, c, Choose(p, k, w, tasks[n], tasks[..n], who, agents));
    }
  }

  lemma UnitMisses(p: Policy, k: int, w: nat, agents: seq<Agent>, o: seq<Agent>, n: nat, ops: Ops, u: nat)
    requires p != PureAffinity && k >= 1 && w >= 1 && agents != [] && AllProper(ops)
    requires |o| == n > 0 && Increasing(o) && forall a :: a in o <==> a in agents
    requires After(p, n, ops).units == u
    ensures PolicyMisses(p, k, w, TasksOf(ops, w), agents) == w * u
  {
    SameAgents(p, k, w, TasksOf(ops, w), agents, o);
    Refines(p, k, w, o, ops);
  }

  lemma WorkloadMisses(p: Policy, k: int, w: nat, agents: seq<Agent>, o: seq<Agent>, n: nat, c: nat, ops: Ops, u: nat)
    requires k >= 1 && w >= 1 && agents != [] && n >= 2 && Goes(p, c)
    requires |o| == n && Increasing(o) && forall a :: a in o <==> a in agents
    requires ops == Workload(n) && u == 2 * n + 1 - c
    ensures PolicyMisses(p, k, w, TasksOf(ops, w), agents) == w * u
  {
    WorkloadProper(n);
    WorkloadUnits(p, n, c);
    UnitMisses(p, k, w, agents, o, n, ops, u);
  }

  /** On n agents and any window w the workload costs graph_only 2n blocks of w misses
      and sigma_aware one block more. */
  lemma SigmaMissesMore(k: int, w: nat, agents: seq<Agent>, n: nat, tasks: seq<Task>)
    requires k >= 1 && w >= 1 && agents != [] && n == |AgentSet(agents)| >= 2 && tasks == TasksOf(Workload(n), w)
    ensures PolicyMisses(GraphOnly, k, w, tasks, agents) == w * (2 * n)
    ensures PolicyMisses(SigmaAware, k, w, tasks, agents) == w * (2 * n + 1)
  {
    var o := Sorted(agents);
    SortedSize(agents, o);
    WorkloadMisses(GraphOnly, k, w, agents, o, n, 1, Workload(n), 2 * n);
    WorkloadMisses(SigmaAware, k, w, agents, o, n, 0, Workload(n), 2 * n + 1);
  }

  // ---- one agent, or no window ----

  lemma {:induction false} OneAgent(k: int, w: nat, tasks: seq<Task>, agents: seq<Agent>)
    requires agents != [] && |AgentSet(agents)| == 1
    ensures Dispatches(SigmaAware, k, w, tasks, agents) == Dispatches(GraphOnly, k, w, tasks, agents)
  {
    if tasks != [] {
      var n := |tasks| - 1;
      OneAgent(k, w, tasks[..n], agents);
      var who := Dispatches(GraphOnly, k, w, tasks[..n], agents);
      ChooseIsChoice(GraphOnly, k, w, tasks[n], tasks[..n], who, agents);
      ChooseIsChoice(SigmaAware, k, w, tasks[n], tasks[..n], who, agents);
      OnlyOne(agents, Choose(GraphOnly, k, w, tasks[n], tasks[..n], who, agents),
              Choose(SigmaAware, k, w, tasks[n], tasks[..n], who, agents));
    }
  }

  lemma OnlyOne(agents: seq<Agent>, a: Agent, b: Agent)
    requires |AgentSet(agents)| == 1 && a in agents && b in agents
    ensures a == b
  {
    var x := AgentSet(agents);
    assert |x - {a}| == 0;
    assert b !in x - {a};
  }

  lemma {:induction false} NothingHeld(tasks: seq<Task>, who: seq<Agent>, a: Agent)
    requires |tasks| == |who|
    ensures Resident(tasks, who, 0, a) == []
  {
    if tasks != [] {
      NothingHeld(tasks[..|tasks| - 1], who[..|tasks| - 1], a);
    }
  }

  /** Without a window every read is a miss, wherever the task runs. */
  lemma {:induction false} NoWindow(tasks: seq<Task>, who: seq<Agent>, who': seq<Agent>)
    requires |tasks| == |who| == |who'|
    ensures Misses(tasks, who, 0) == Misses(tasks, who', 0)
  {
    if tasks != [] {
      var n := |tasks| - 1;
      NoWindow(tasks[..n], who[..n], who'[..n]);
      NothingHeld(tasks[..n], who[..n], who[n]);
      NothingHeld(tasks[..n], who'[..n], who'[n]);
    }
  }

  lemma NeverMore(k: int, w: nat, tasks: seq<Task>, agents: seq<Agent>)
    requires agents != [] && (|AgentSet(agents)| == 1 || w == 0)
    ensures PolicyMisses(SigmaAware, k, w, tasks, agents) == PolicyMisses(GraphOnly, k, w, tasks, agents)
  {
    if w == 0 {
      NoWindow(tasks, Dispatches(SigmaAware, k, w, tasks, agents), Dispatches(GraphOnly, k, w, tasks, agents));
    } else {
      OneAgent(k, w, tasks, agents);
    }
  }

  // ---- when the report is right ----

  /** sigma_aware never misses more than graph_only, on any workload, exactly when there is
      one agent or no window. */
  lemma SigmaNeverWorse(k: int, w: nat, agents: seq<Agent>)
    requires agents != [] && k >= 1
    ensures (forall tasks :: PolicyMisses(SigmaAware, k, w, tasks, agents) <= PolicyMisses(GraphOnly, k, w, tasks, agents))
       <==> |AgentSet(agents)| == 1 || w == 0
  {
    if |AgentSet(agents)| == 1 || w == 0 {
      forall tasks ensures PolicyMisses(SigmaAware, k, w, tasks, agents) <= PolicyMisses(GraphOnly, k, w, tasks, agents) {
        NeverMore(k, w, tasks, agents);
      }
    } else {
      var n := |AgentSet(agents)|;
      var tasks := TasksOf(Workload(n), w);
      SigmaMissesMore(k, w, agents, n, tasks);
      Distribute(w, 2 * n, 1);
      assert PolicyMisses(SigmaAware, k, w, tasks, agents) > PolicyMisses(GraphOnly, k, w, tasks, agents);
    }
  }

  lemma {:induction false} ExecPositive(ops: Ops, w: nat)
    ensures ExecSum(TasksOf(ops, w)) >= 0 && (ops != Nil ==> ExecSum(TasksOf(ops, w)) > 0)
  {
    if ops.Then? {
      ExecPositive(ops.init, w);
      var t := TasksOf(ops, w);
      assert t[..|t| - 1] == TasksOf(ops.init, w);
    }
  }

  /** The graph/sigma cost ratio does not fall from kappa k to l. */
  ghost predicate RatioHolds(k: int, l: int, w: nat, tasks: seq<Task>, agents: seq<Agent>)
    requires agents != []
  {
    PolicyCost(GraphOnly, k, w, tasks, agents) * PolicyCost(SigmaAware, l, w, tasks, agents)
    <= PolicyCost(GraphOnly, l, w, tasks, agents) * PolicyCost(SigmaAware, k, w, tasks, agents)
  }

  /** The cost ratio falls with kappa on no workload exactly when there is one agent or no
      window. */
  lemma RatioNeverFalls(k: int, l: int, w: nat, agents: seq<Agent>)
    requires agents != [] && 1 <= k < l
    ensures (forall tasks | ExecSum(tasks) > 0 :: RatioHolds(k, l, w, tasks, agents)) <==> |AgentSet(agents)| == 1 || w == 0
  {
    if |AgentSet(agents)| == 1 || w == 0 {
      forall tasks | ExecSum(tasks) > 0 ensures RatioHolds(k, l, w, tasks, agents) {
        NeverMore(k, w, tasks, agents);
        RatioGrowsExactly(k, l, w, tasks, agents);
      }
    } else {
      var n := |AgentSet(agents)|;
      var tasks := TasksOf(Workload(n), w);
      SigmaMissesMore(k, w, agents, n, tasks);
      Distribute(w, 2 * n, 1);
      ExecPositive(Workload(n), w);
      RatioGrowsExactly(k, l, w, tasks, agents);
      assert !RatioHolds(k, l, w, tasks, agents);
    }
  }
}

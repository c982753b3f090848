/** Runs of the batching protocol put together step by step: a busy thread can always finish. */
module BatcherRuns {
  import opened BatcherProtocol

  predicate AllIdle(s: State) {
    forall t :: 0 <= t < |s.threads| ==> s.threads[t].pc.Idle?
  }

  /** Nobody is busy, nothing is buffered, and the store has every frame in order. */
  ghost predicate FullyWritten(s: State) {
    AllIdle(s) && forall k :: FramesOf(s.buffers, k) == [] && Written(s.pushes, k) == FramesOf(s.enqueued, k)
  }

  // ---------- Runs ----------

  ghost predicate Leads(c: Config, s: State, steps: seq<Step>, s': State) {
    CanRun(c, s, steps) && Run(c, s, steps) == s'
  }

  lemma LeadsNowhere(c: Config, s: State)
    ensures Leads(c, s, [], s)
  {
  }

  lemma LeadsByOne(c: Config, s: State, step: Step)
    requires Enabled(c, s, step)
    ensures Leads(c, s, [step], Next(c, s, step))
  {
    var m := Next(c, s, step);
    assert [step][1..] == [] && [step][0] == step;
    hide Next, Enabled;
    assert CanRun(c, m, []) && Run(c, m, []) == m;
    assert CanRun(c, s, [step]);
  }

  lemma LeadsOn(c: Config, s: State, a: seq<Step>, m: State, b: seq<Step>, s': State)
    requires Leads(c, s, a, m) && Leads(c, m, b, s')
    ensures Leads(c, s, a + b, s')
  {
    RunAppend(c, s, a, b);
    hide CanRun, Run;
  }

  lemma LeadsKeepsInv(c: Config, s: State, steps: seq<Step>, s': State)
    requires Leads(c, s, steps, s') && Inv(c, s)
    ensures Inv(c, s')
  {
    RunKeepsInv(c, s, steps);
  }

  lemma LeadsStaysReachable(c: Config, s: State, steps: seq<Step>, s': State)
    requires Leads(c, s, steps, s') && Reachable(c, s)
    ensures Reachable(c, s')
  {
    assert Reaches(c, s, s');
    ReachableReaches(c, s, s');
  }

  // ---------- What the steps of a run may be ----------

  /** Threads only go on with what they are doing. */
  predicate GoesOn(step: Step) {
    !step.Enqueue? && !step.BeginFlushAll? && !step.Shutdown? && !step.TimerWake?
  }

  /** Whatever the step reads off the clock is `clock`. */
  predicate ReadsAt(step: Step, clock: int) {
    match step
    case TimerWake(now) => now == clock
    case TimerScan(_, stamps) => forall k :: k in stamps ==> stamps[k] == clock
    case Commit(_, now) => now == clock
    case _ => true
  }

  ghost predicate AllReadAt(steps: seq<Step>, clock: int) {
    forall i :: 0 <= i < |steps| ==> ReadsAt(steps[i], clock)
  }

  lemma AllReadAtAppend(a: seq<Step>, b: seq<Step>, clock: int)
    requires AllReadAt(a, clock) && AllReadAt(b, clock)
    ensures AllReadAt(a + b, clock)
  {
  }

  /** Thread `t` goes on; its pushes all raise, or none does. */
  ghost predicate OneGoesOn(steps: seq<Step>, t: int, fail: bool) {
    forall i :: 0 <= i < |steps| ==>
      GoesOn(steps[i]) && Mover(steps[i]) == t && (if fail then !steps[i].PushOk? else !steps[i].PushFail?)
  }

  /** Threads other than `v` go on, and no push raises. */
  ghost predicate OthersGoOn(steps: seq<Step>, v: int) {
    forall i :: 0 <= i < |steps| ==> GoesOn(steps[i]) && Mover(steps[i]) != v && !steps[i].PushFail?
  }

  lemma OneGoesOnAppend(a: seq<Step>, b: seq<Step>, t: int, fail: bool)
    requires OneGoesOn(a, t, fail) && OneGoesOn(b, t, fail)
    ensures OneGoesOn(a + b, t, fail)
  {
  }

  lemma OthersGoOnAppend(a: seq<Step>, b: seq<Step>, v: int)
    requires OthersGoOn(a, v) && OthersGoOn(b, v)
    ensures OthersGoOn(a + b, v)
  {
  }

  lemma OneIsAnother(steps: seq<Step>, t: int, v: int)
    requires OneGoesOn(steps, t, false) && t != v
    ensures OthersGoOn(steps, v)
  {
  }

  // ---------- One thread runs to its end ----------

  function Stage(pc: Pc): nat {
    if pc.Scanning? || pc.Snapshot? then 1 else 0
  }

  /** How far a `_flush` is from returning; with a refilled buffer it may take another turn. */
  function Phase(s: State, pc: Pc): nat {
    match pc
    case Draining(key) => if FramesOf(s.buffers, key) == [] then 2 else 6
    case Succeeded(key, _) => if FramesOf(s.buffers, key) == [] then 3 else 7
    case Pushing(key, _) => if FramesOf(s.buffers, key) == [] then 4 else 8
    case Raised(_, _) => 1
    case _ => 0
  }

  /** The thread has fewer steps left in `m` than in `s`. */
  predicate Closer(s: State, m: State, t: nat)
    requires t < |s.threads| && t < |m.threads|
  {
    var a, b := s.threads[t], m.threads[t];
    || Stage(b.pc) < Stage(a.pc)
    || (Stage(b.pc) == Stage(a.pc) && |b.todo| < |a.todo|)
    || (Stage(b.pc) == Stage(a.pc) && |b.todo| == |a.todo| && Phase(m, b.pc) < Phase(s, a.pc))
  }

  /** Thread `t` alone moved, and enqueued nothing. */
  predicate OnlyMoved(s: State, m: State, t: nat) {
    && t < |s.threads| && |m.threads| == |s.threads| && m.enqueued == s.enqueued
    && forall u :: 0 <= u < |s.threads| && u != t ==> m.threads[u] == s.threads[u]
  }

  /** A set of keys, listed without repetition. */
  ghost function Listing(keys: set<BatchKey>): (r: seq<BatchKey>)
    ensures NoDuplicates(r) && (set k | k in r) == keys
  {
    if keys == {} then []
    else
      var k :| k in keys;
      var rest := Listing(keys - {k});
      ListedSet(k, rest);
      [k] + rest
  }

  lemma ListedSet(k: BatchKey, rest: seq<BatchKey>)
    ensures (set x | x in [k] + rest) == {k} + (set x | x in rest)
  {
  }

  /** Default time stamps all read at the same time. */
  ghost function StampsAt(s: State, clock: int): map<BatchKey, int> {
    map k | k in Unstamped(s) :: clock
  }

  /** The step a busy thread takes next, reading the clock at `clock`. */
  ghost function StepOf(c: Config, s: State, t: nat, fail: bool, clock: int): Step
    requires t < |s.threads|
  {
    match s.threads[t].pc
    case Scanning(now) => TimerScan(Listing(DueKeys(c, s, now, StampsAt(s, clock))), StampsAt(s, clock))
    case Snapshot => TakeSnapshot(t, Listing(s.buffers.Keys))
    case Draining(_) => Drain(t)
    case Pushing(_, _) => if fail then PushFail(t) else PushOk(t)
    case Succeeded(_, _) => Commit(t, clock)
    case Raised(_, _) => PutBack(t)
    case Idle => BeginFlushAll(t)
  }

  ghost predicate Busy(s: State, t: nat) {
    t < |s.threads| && !s.threads[t].pc.Idle? && (s.threads[t].pc.Scanning? ==> t == 0)
  }

  lemma StepOfIsEnabled(c: Config, s: State, t: nat, fail: bool, clock: int)
    requires Busy(s, t)
    ensures var step := StepOf(c, s, t, fail, clock);
      && Enabled(c, s, step) && GoesOn(step) && Mover(step) == t && (if fail then !step.PushOk? else !step.PushFail?)
      && ReadsAt(step, clock)
  {
    hide RowCount, DueKeys, Listing, NoDuplicates;
  }

  lemma OnlyEnqueueEnqueues(c: Config, s: State, step: Step)
    requires Enabled(c, s, step) && !step.Enqueue?
    ensures Next(c, s, step).enqueued == s.enqueued
  {
    hide RowCount, DueKeys, NoDuplicates, FramesOf;
  }

  lemma OnlyWakingScans(c: Config, s: State, step: Step)
    requires Enabled(c, s, step) && !step.TimerWake?
    ensures Mover(step) < |s.threads| == |Next(c, s, step).threads|
    ensures !Next(c, s, step).threads[Mover(step)].pc.Scanning?
  {
    hide RowCount, DueKeys, NoDuplicates, FramesOf;
  }

  lemma StepOfMoves(c: Config, s: State, t: nat, fail: bool, clock: int)
    requires Busy(s, t)
    ensures var step := StepOf(c, s, t, fail, clock);
      && Enabled(c, s, step) && OnlyMoved(s, Next(c, s, step), t) && !Next(c, s, step).threads[t].pc.Scanning?
  {
    StepOfIsEnabled(c, s, t, fail, clock);
    OnlyEnqueueEnqueues(c, s, StepOf(c, s, t, fail, clock));
    OnlyWakingScans(c, s, StepOf(c, s, t, fail, clock));
    OthersStay(c, s, StepOf(c, s, t, fail, clock));
    hide Next, Enabled, Listing, DueKeys;
  }

  lemma ScanIsCloser(c: Config, s: State, t: nat, fail: bool, clock: int)
    requires Busy(s, t) && (s.threads[t].pc.Scanning? || s.threads[t].pc.Snapshot?) &&
        Enabled(c, s, StepOf(c, s, t, fail, clock))
    ensures Closer(s, Next(c, s, StepOf(c, s, t, fail, clock)), t)
  {
    hide Written, RowCount, DueKeys, Listing, NoDuplicates;
  }

  lemma DrainIsCloser(s: State, t: nat, key: BatchKey)
    requires t < |s.threads| && s.threads[t].pc == Draining(key)
    ensures Closer(s, AfterDrain(s, t, key), t)
  {
  }

  lemma CommitIsCloser(c: Config, s: State, t: nat, key: BatchKey, batch: seq<Frame>, clock: int)
    requires t < |s.threads| && s.threads[t].pc == Succeeded(key, batch)
    ensures Closer(s, AfterCommit(c, s, t, key, clock), t)
  {
    hide RowCount;
  }

  lemma PushIsCloser(c: Config, s: State, t: nat, fail: bool, clock: int)
    requires t < |s.threads| && (s.threads[t].pc.Pushing? || s.threads[t].pc.Raised?) &&
        Enabled(c, s, StepOf(c, s, t, fail, clock))
    ensures Closer(s, Next(c, s, StepOf(c, s, t, fail, clock)), t)
  {
    hide RowCount, DueKeys, Listing, NoDuplicates;
  }

  lemma StepOfIsCloser(c: Config, s: State, t: nat, fail: bool, clock: int)
    requires Busy(s, t) && Enabled(c, s, StepOf(c, s, t, fail, clock)) &&
        OnlyMoved(s, Next(c, s, StepOf(c, s, t, fail, clock)), t)
    ensures Closer(s, Next(c, s, StepOf(c, s, t, fail, clock)), t)
  {
    if s.threads[t].pc.Scanning? || s.threads[t].pc.Snapshot? {
      ScanIsCloser(c, s, t, fail, clock);
    } else if s.threads[t].pc.Draining? {
      DrainIsCloser(s, t, s.threads[t].pc.key);
    } else if s.threads[t].pc.Succeeded? {
      CommitIsCloser(c, s, t, s.threads[t].pc.key, s.threads[t].pc.batch, clock);
    } else {
      PushIsCloser(c, s, t, fail, clock);
    }
    hide Closer, OnlyMoved, AfterDrain, AfterCommit, AfterScan, AfterPutBack, MoveTo, Listing, DueKeys, RowCount,
        FramesOf;
  }

  /** One step of a busy thread, as a run. */
  lemma TakeStep(c: Config, s: State, t: nat, fail: bool, clock: int) returns (steps: seq<Step>, m: State)
    requires Busy(s, t)
    ensures steps == [StepOf(c, s, t, fail, clock)] && Enabled(c, s, steps[0]) && m == Next(c, s, steps[0])
    ensures Leads(c, s, steps, m) && OneGoesOn(steps, t, fail) && AllReadAt(steps, clock)
    ensures OnlyMoved(s, m, t) && Closer(s, m, t) && !m.threads[t].pc.Scanning?
  {
    StepOfIsEnabled(c, s, t, fail, clock);
    StepOfMoves(c, s, t, fail, clock);
    StepOfIsCloser(c, s, t, fail, clock);
    hide Next, Enabled, StepOf, Closer, OnlyMoved, CanRun, Run, ReadsAt;
    steps, m := [StepOf(c, s, t, fail, clock)], Next(c, s, StepOf(c, s, t, fail, clock));
    LeadsByOne(c, s, steps[0]);
  }

  lemma {:induction false} ThreadFinishes(c: Config, s: State, t: nat, fail: bool, clock: int)
      returns (steps: seq<Step>, s': State)
    requires t < |s.threads| && (s.threads[t].pc.Scanning? ==> t == 0)
    ensures Leads(c, s, steps, s') && OneGoesOn(steps, t, fail) && AllReadAt(steps, clock)
    ensures OnlyMoved(s, s', t) && s'.threads[t].pc.Idle?
    decreases Stage(s.threads[t].pc), |s.threads[t].todo|, Phase(s, s.threads[t].pc)
  {
    if s.threads[t].pc.Idle? {
      LeadsNowhere(c, s);
      return [], s;
    }
    var first, m := TakeStep(c, s, t, fail, clock);
    hide Next, Enabled, Leads, OneGoesOn, AllReadAt;
    var rest, last := ThreadFinishes(c, m, t, fail, clock);
    LeadsOn(c, s, first, m, rest, last);
    OneGoesOnAppend(first, rest, t, fail);
    AllReadAtAppend(first, rest, clock);
    steps, s' := first + rest, last;
  }

  ghost predicate OnlyFlusherScans(s: State) {
    forall t :: 0 <= t < |s.threads| && s.threads[t].pc.Scanning? ==> t == 0
  }

  /** All of the first `n` threads but `v` finish; -1 stands for no exception. */
  lemma {:induction false} OthersFinish(c: Config, s: State, n: nat, v: int, clock: int)
      returns (steps: seq<Step>, s': State)
    requires n <= |s.threads| && OnlyFlusherScans(s) && -1 <= v < |s.threads|
    ensures Leads(c, s, steps, s') && OthersGoOn(steps, v) && |s'.threads| == |s.threads| && s'.enqueued == s.enqueued
    ensures OnlyFlusherScans(s') && AllReadAt(steps, clock)
    ensures forall t :: 0 <= t < n && t != v ==> s'.threads[t].pc.Idle?
  {
    if n == 0 {
      LeadsNowhere(c, s);
      return [], s;
    }
    var before, m := OthersFinish(c, s, n - 1, v, clock);
    if n - 1 == v { return before, m; }
    hide Leads, OneGoesOn, OthersGoOn, AllReadAt;
    var more, last := ThreadFinishes(c, m, n - 1, false, clock);
    LeadsOn(c, s, before, m, more, last);
    OneIsAnother(more, n - 1, v);
    OthersGoOnAppend(before, more, v);
    AllReadAtAppend(before, more, clock);
    steps, s' := before + more, last;
  }

  lemma StepKeepsScanner(c: Config, s: State, step: Step)
    requires OnlyFlusherScans(s) && Enabled(c, s, step)
    ensures OnlyFlusherScans(Next(c, s, step))
  {
    OthersStay(c, s, step);
    if !step.TimerWake? { OnlyWakingScans(c, s, step); }
    hide Next, Enabled;
  }

  lemma {:induction false} RunKeepsScanner(c: Config, s: State, steps: seq<Step>)
    requires OnlyFlusherScans(s) && CanRun(c, s, steps)
    ensures OnlyFlusherScans(Run(c, s, steps))
    decreases |steps|
  {
    hide Next, Enabled;
    if steps != [] {
      StepKeepsScanner(c, s, steps[0]);
      RunKeepsScanner(c, Next(c, s, steps[0]), steps[1..]);
    }
  }

  lemma ReachableScanner(c: Config, s: State)
    requires Reachable(c, s)
    ensures OnlyFlusherScans(s)
  {
    var n: nat :| Reaches(c, Init(n), s);
    var steps :| CanRun(c, Init(n), steps) && Run(c, Init(n), steps) == s;
    RunKeepsScanner(c, Init(n), steps);
  }
}

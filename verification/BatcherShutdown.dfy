/** When a shutdown, or any flush_all, writes everything: exactly when no other thread can take
    frames away from it. */
module BatcherShutdown {
  import opened BatcherProtocol
  import opened BatcherRuns

  predicate InFlush(pc: Pc) {
    pc.Draining? || pc.Pushing? || pc.Succeeded? || pc.Raised?
  }

  /** The thread is about to drain the key, now or after others. */
  predicate Scheduled(th: Thread, key: BatchKey) {
    th.pc == Draining(key) || (InFlush(th.pc) && key in th.todo)
  }

  /** A scan begun at `now` may find the key due. */
  predicate MayBeDue(c: Config, s: State, now: int, key: BatchKey) {
    key !in s.lastFlush || now - s.lastFlush[key] >= c.batchInterval
  }

  /** Thread `u` has unwritten frames of the key in hand, or can still come by them. */
  predicate MayTake(c: Config, s: State, u: int, key: BatchKey) {
    0 <= u < |s.threads| &&
    var th := s.threads[u];
    || ((th.pc.Pushing? || th.pc.Raised?) && th.pc.key == key)
    || (FramesOf(s.buffers, key) != [] &&
        (|| Scheduled(th, key) || th.pc.Snapshot? || (th.pc.Succeeded? && th.pc.key == key)
         || (th.pc.Scanning? && MayBeDue(c, s, th.pc.now, key))))
  }

  /** No thread but `t` can take anything. */
  ghost predicate NobodyElse(c: Config, s: State, t: int) {
    forall u, k :: u != t ==> !MayTake(c, s, u, k)
  }

  /** The steps that may follow the call of thread `t`: no new call, and no push of `t` raises. */
  predicate Allowed(step: Step, t: nat) {
    !step.Enqueue? && !step.BeginFlushAll? && !step.Shutdown? && step != PushFail(t)
  }

  ghost predicate AllAllowed(steps: seq<Step>, t: nat) {
    forall i :: 0 <= i < |steps| ==> Allowed(steps[i], t)
  }

  // ---------- Thread `t` flushes undisturbed ----------

  /** What thread `t` has not flushed yet it will. */
  ghost predicate Covered(s: State, t: nat, key: BatchKey)
    requires t < |s.threads|
  {
    var th := s.threads[t];
    && (FramesOf(s.buffers, key) == [] || th.pc.Snapshot? || Scheduled(th, key))
    && (Holds(th.pc, key) ==> FramesOf(s.buffers, key) == [])
  }

  ghost predicate Undisturbed(c: Config, s: State, t: nat) {
    && t < |s.threads| && !s.threads[t].pc.Scanning? && !s.threads[t].pc.Raised?
    && NobodyElse(c, s, t) && forall k :: Covered(s, t, k)
  }

  function PushCount(pushes: seq<Push>, key: BatchKey): nat {
    if pushes == [] then 0
    else PushCount(pushes[..|pushes| - 1], key) + (if pushes[|pushes| - 1].key == key then 1 else 0)
  }

  lemma PushCountSnoc(pushes: seq<Push>, p: Push, key: BatchKey)
    ensures PushCount(pushes + [p], key) == PushCount(pushes, key) + (if p.key == key then 1 else 0)
  {
    assert (pushes + [p])[..|pushes|] == pushes;
  }

  /** Since `s0` the key was left alone, or is being pushed, or was pushed once. */
  ghost predicate PushedOnce(s0: State, s: State, t: nat, key: BatchKey)
    requires t < |s.threads|
  {
    var before, now := PushCount(s0.pushes, key), PushCount(s.pushes, key);
    var pushing := s.threads[t].pc.Pushing? && s.threads[t].pc.key == key;
    || (now == before && !pushing)
    || (now == before && pushing && FramesOf(s.buffers, key) == [])
    || (now == before + 1 && !pushing && FramesOf(s.buffers, key) == [])
  }

  /** The key's buffer is emptied or left as it was, and then so is its time stamp. */
  predicate Eases(s: State, s': State, key: BatchKey) {
    || FramesOf(s'.buffers, key) == []
    || (&& FramesOf(s'.buffers, key) == FramesOf(s.buffers, key)
        && (key in s'.lastFlush <==> key in s.lastFlush)
        && (key in s.lastFlush ==> s'.lastFlush[key] == s.lastFlush[key]))
  }

  lemma StillHarmless(c: Config, s: State, s': State, u: int, key: BatchKey)
    requires Eases(s, s', key) && 0 <= u < |s.threads| == |s'.threads| && s'.threads[u] == s.threads[u]
    requires !MayTake(c, s, u, key)
    ensures !MayTake(c, s', u, key)
  {
  }

  lemma OwnStepEases(c: Config, s: State, t: nat, step: Step, key: BatchKey)
    requires Undisturbed(c, s, t) && Enabled(c, s, step) && Allowed(step, t) && !step.TimerWake? && Mover(step) == t
    ensures Eases(s, Next(c, s, step), key)
  {
    assert Covered(s, t, key);
    hide Written, RowCount, DueKeys, NoDuplicates, Scheduled, NobodyElse;
  }

  /** A key in flight beside `t` has nothing buffered. */
  lemma HeldElsewhereIsEmpty(c: Config, s: State, t: nat, key: BatchKey)
    requires Inv(c, s) && Undisturbed(c, s, t) && s.threads[t].pc == Draining(key) && key in s.inflight
    ensures FramesOf(s.buffers, key) == []
  {
    assert KeyInv(c, s, key);
    var u :| HeldBy(s, u, key);
    assert u != t && !MayTake(c, s, u, key);
  }

  lemma OwnStepCovers(c: Config, s: State, t: nat, step: Step, key: BatchKey)
    requires Inv(c, s) && Undisturbed(c, s, t) && Enabled(c, s, step) && Allowed(step, t) && !step.TimerWake?
    requires Mover(step) == t
    ensures t < |Next(c, s, step).threads| && Covered(Next(c, s, step), t, key)
  {
    assert Covered(s, t, key);
    if s.threads[t].pc == Draining(key) && key in s.inflight { HeldElsewhereIsEmpty(c, s, t, key); }
    assert step.TakeSnapshot? ==> (key in step.keys <==> key in (set k | k in step.keys));
    hide Written, RowCount, DueKeys, NoDuplicates, NobodyElse, Inv, MayTake;
  }

  lemma OwnStepMoves(c: Config, s: State, t: nat, step: Step)
    requires Undisturbed(c, s, t) && Enabled(c, s, step) && Allowed(step, t) && !step.TimerWake? && Mover(step) == t
    ensures var s' := Next(c, s, step);
      t < |s'.threads| && !s'.threads[t].pc.Scanning? && !s'.threads[t].pc.Raised?
  {
    hide Written, RowCount, DueKeys, NoDuplicates, NobodyElse, Covered, FramesOf;
  }

  lemma OwnStepPushesOnce(c: Config, s0: State, s: State, t: nat, step: Step, key: BatchKey)
    requires Undisturbed(c, s, t) && Enabled(c, s, step) && Allowed(step, t) && !step.TimerWake? && Mover(step) == t
    requires PushedOnce(s0, s, t, key)
    ensures t < |Next(c, s, step).threads| && PushedOnce(s0, Next(c, s, step), t, key)
  {
    assert Covered(s, t, key);
    if step.PushOk? { PushCountSnoc(s.pushes, Push(s.threads[t].pc.key, s.threads[t].pc.batch), key); }
    hide Written, RowCount, DueKeys, NoDuplicates, NobodyElse, PushCount, Scheduled;
  }

  /** What another thread does: it takes nothing, and comes by nothing. */
  lemma OtherStep(c: Config, s: State, t: nat, step: Step, key: BatchKey)
    requires Undisturbed(c, s, t) && Enabled(c, s, step) && Allowed(step, t) && !step.TimerWake? && Mover(step) != t
    ensures var s' := Next(c, s, step);
      && s'.pushes == s.pushes && FramesOf(s'.buffers, key) == FramesOf(s.buffers, key)
      && Eases(s, s', key) && Mover(step) < |s'.threads| && !MayTake(c, s', Mover(step), key)
  {
    var u := Mover(step);
    assert !MayTake(c, s, u, key);
    hide Written, RowCount, NoDuplicates, Covered, NobodyElse;
    if step.TimerScan? {
      NothingIsDue(c, s, t, step.due, step.stamps);
    } else if step.TakeSnapshot? {
    } else {
      assert !MayTake(c, s, u, s.threads[u].pc.key)
          by { assert NobodyElse(c, s, t); HarmlessFor(c, s, t, u, s.threads[u].pc.key); }
    }
  }

  lemma HarmlessFor(c: Config, s: State, t: int, u: int, key: BatchKey)
    requires NobodyElse(c, s, t) && u != t
    ensures !MayTake(c, s, u, key)
  {
  }

  lemma AsListed(listed: seq<BatchKey>, keys: set<BatchKey>)
    requires (set k | k in listed) == keys
    ensures forall k :: k in listed <==> k in keys
    ensures keys == {} <==> listed == []
  {
    if listed != [] { assert listed[0] in (set x | x in listed); }
    assert forall k :: k in listed <==> k in (set x | x in listed);
  }

  lemma NothingIsDue(c: Config, s: State, t: nat, due: seq<BatchKey>, stamps: map<BatchKey, int>)
    requires Undisturbed(c, s, t) && Enabled(c, s, TimerScan(due, stamps)) && t != 0
    ensures due == []
    ensures stamps == map[]
  {
    var now := s.threads[0].pc.now;
    forall k
      ensures k !in Unstamped(s) && k !in DueKeys(c, s, now, stamps)
    {
      HarmlessFor(c, s, t, 0, k);
    }
    assert DueKeys(c, s, now, stamps) == {} && Unstamped(s) == {};
    assert stamps.Keys == {};
    assert forall k :: k !in stamps;
    AsListed(due, DueKeys(c, s, now, stamps));
  }

  lemma UndisturbedStep(c: Config, s0: State, s: State, t: nat, step: Step)
    requires Inv(c, s) && Undisturbed(c, s, t) && Enabled(c, s, step) && Allowed(step, t) && !step.TimerWake?
    requires forall k :: PushedOnce(s0, s, t, k)
    ensures var s' := Next(c, s, step); Undisturbed(c, s', t) && forall k :: PushedOnce(s0, s', t, k)
  {
    var s' := Next(c, s, step);
    OthersStay(c, s, step);
    if Mover(step) == t { OwnStepMoves(c, s, t, step); }
    hide Next, Enabled, Inv, Allowed, Eases;
    forall k
      ensures Covered(s', t, k) && PushedOnce(s0, s', t, k)
    {
      UndisturbedStepKey(c, s0, s, t, step, k);
    }
    forall u, k | u != t
      ensures !MayTake(c, s', u, k)
    {
      UndisturbedStepKey(c, s0, s, t, step, k);
    }
  }

  lemma UndisturbedStepKey(c: Config, s0: State, s: State, t: nat, step: Step, key: BatchKey)
    requires Inv(c, s) && Undisturbed(c, s, t) && Enabled(c, s, step) && Allowed(step, t) && !step.TimerWake?
    requires PushedOnce(s0, s, t, key)
    ensures var s' := Next(c, s, step);
      && t < |s'.threads| && Covered(s', t, key) && PushedOnce(s0, s', t, key)
      && forall u :: u != t ==> !MayTake(c, s', u, key)
  {
    var s' := Next(c, s, step);
    OthersStay(c, s, step);
    if Mover(step) == t {
      OwnStepEases(c, s, t, step, key);
      OwnStepCovers(c, s, t, step, key);
      OwnStepPushesOnce(c, s0, s, t, step, key);
    } else {
      OtherStep(c, s, t, step, key);
      assert Covered(s, t, key);
    }
    hide Next, Enabled, Inv, Allowed, Eases, PushCount;
    forall u | u != t
      ensures !MayTake(c, s', u, key)
    {
      HarmlessFor(c, s, t, u, key);
      if 0 <= u < |s.threads| && u != Mover(step) { StillHarmless(c, s, s', u, key); }
    }
  }

  lemma StoppedNeverWakes(c: Config, s: State, step: Step)
    requires Enabled(c, s, step) && s.stopped
    ensures !step.TimerWake? && Next(c, s, step).stopped
  {
    hide Written, RowCount, DueKeys, NoDuplicates, FramesOf;
  }

  lemma {:induction false} UndisturbedRun(c: Config, s0: State, s: State, t: nat, steps: seq<Step>)
    requires Inv(c, s) && Undisturbed(c, s, t) && CanRun(c, s, steps) && AllAllowed(steps, t)
    requires s.stopped || forall i :: 0 <= i < |steps| ==> !steps[i].TimerWake?
    requires forall k :: PushedOnce(s0, s, t, k)
    ensures var s' := Run(c, s, steps); Undisturbed(c, s', t) && forall k :: PushedOnce(s0, s', t, k)
    decreases |steps|
  {
    hide Next, Enabled, Undisturbed, PushedOnce, Inv;
    if steps != [] {
      if s.stopped { StoppedNeverWakes(c, s, steps[0]); }
      StepKeepsInv(c, s, steps[0]);
      UndisturbedStep(c, s0, s, t, steps[0]);
      UndisturbedRun(c, s0, Next(c, s, steps[0]), t, steps[1..]);
    }
  }

  lemma UndisturbedEndsEmpty(c: Config, s: State, t: nat)
    requires Undisturbed(c, s, t) && AllIdle(s)
    ensures forall k :: FramesOf(s.buffers, k) == []
  {
    forall k
      ensures FramesOf(s.buffers, k) == []
    {
      assert Covered(s, t, k);
    }
  }

  /** The call of thread `t` that takes the snapshot, and a run after it that lets everybody finish. */
  ghost predicate CallRuns(c: Config, s: State, t: nat, call: Step, steps: seq<Step>) {
    && (call == BeginFlushAll(t) || call == Shutdown(t)) && Enabled(c, s, call)
    && CanRun(c, Next(c, s, call), steps) && AllAllowed(steps, t)
    && (call.Shutdown? || forall i :: 0 <= i < |steps| ==> !steps[i].TimerWake?)
    && AllIdle(Run(c, Next(c, s, call), steps))
  }

  lemma CallIsUndisturbed(c: Config, s: State, t: nat, call: Step)
    requires (call == BeginFlushAll(t) || call == Shutdown(t)) && Enabled(c, s, call) && NobodyElse(c, s, t)
    ensures var m := Next(c, s, call);
      && Undisturbed(c, m, t) && m.pushes == s.pushes && m.enqueued == s.enqueued && (call.Shutdown? ==> m.stopped)
  {
    var m := Next(c, s, call);
    forall u, k | u != t
      ensures !MayTake(c, m, u, k)
    {
      HarmlessFor(c, s, t, u, k);
    }
  }

  /** If nobody else can take frames, a shutdown or a flush_all writes everything, and pushes no
      key twice, whatever the other threads do meanwhile. */
  lemma UndisturbedCallWritesAll(c: Config, s: State, t: nat, call: Step, steps: seq<Step>)
    requires Reachable(c, s) && NobodyElse(c, s, t) && CallRuns(c, s, t, call, steps)
    ensures var s' := Run(c, Next(c, s, call), steps);
      FullyWritten(s') && forall k :: PushCount(s'.pushes, k) <= PushCount(s.pushes, k) + 1
  {
    var m := Next(c, s, call);
    CallIsUndisturbed(c, s, t, call);
    ReachableNext(c, s, call);
    ReachableInv(c, m);
    hide Reachable, Next, Enabled, MayTake, Inv, PushCount, NobodyElse;
    assert forall k :: PushedOnce(m, m, t, k) by { NotPushedYet(c, s, t, call); }
    UndisturbedRun(c, m, m, t, steps);
    var s' := Run(c, m, steps);
    UndisturbedEndsEmpty(c, s', t);
    LeadsStaysReachable(c, m, steps, s');
    forall k
      ensures Written(s'.pushes, k) == FramesOf(s'.enqueued, k)
    {
      EmptyIsWritten(c, s', k);
    }
    forall k
      ensures PushCount(s'.pushes, k) <= PushCount(s.pushes, k) + 1
    {
      assert PushedOnce(m, s', t, k);
    }
  }

  lemma NotPushedYet(c: Config, s: State, t: nat, call: Step)
    requires (call == BeginFlushAll(t) || call == Shutdown(t)) && Enabled(c, s, call)
    ensures var m := Next(c, s, call); forall k :: PushedOnce(m, m, t, k)
  {
    hide PushCount;
  }

  lemma EmptyIsWritten(c: Config, s: State, key: BatchKey)
    requires Reachable(c, s) && AllIdle(s) && FramesOf(s.buffers, key) == []
    ensures Written(s.pushes, key) == FramesOf(s.enqueued, key)
  {
    QuietStates(c, s, key);
    assert Written(s.pushes, key) + [] == Written(s.pushes, key);
  }

  // ---------- A thread that spoils it ----------

  /** Frames of the key are buffered, or thread `v` has them and will put them back if it fails. */
  ghost predicate Stuck(s: State, v: nat, key: BatchKey) {
    && v < |s.threads|
    && (FramesOf(s.buffers, key) != [] || ((s.threads[v].pc.Pushing? || s.threads[v].pc.Raised?) &&
        s.threads[v].pc.key == key))
  }

  /** While thread `v` holds the key, nobody else changes what is buffered for it. */
  lemma HeldStaysStep(c: Config, s: State, step: Step, v: nat, key: BatchKey)
    requires Inv(c, s) && Enabled(c, s, step) && HeldBy(s, v, key) && Mover(step) != v && GoesOn(step)
    ensures var s' := Next(c, s, step);
      v < |s'.threads| && s'.threads[v] == s.threads[v] && FramesOf(s'.buffers, key) == FramesOf(s.buffers, key)
  {
    OthersStay(c, s, step);
    assert KeyInv(c, s, key);
    if Touches(s, step, key) {
      assert key in s.inflight;
      assert !HeldBy(s, Mover(step), key);
      hide Written, RowCount, Conserved, SizeTriggerKept;
    } else {
      FramesStay(c, s, step, key);
    }
  }

  lemma {:induction false} HeldStays(c: Config, s: State, steps: seq<Step>, v: nat, key: BatchKey)
    requires Inv(c, s) && CanRun(c, s, steps) && HeldBy(s, v, key) && OthersGoOn(steps, v)
    ensures var s' := Run(c, s, steps);
      v < |s'.threads| && s'.threads[v] == s.threads[v] && FramesOf(s'.buffers, key) == FramesOf(s.buffers, key)
    decreases |steps|
  {
    if steps != [] {
      assert GoesOn(steps[0]) && Mover(steps[0]) != v;
      assert OthersGoOn(steps[1..], v);
      hide Next, Enabled, Inv, OthersGoOn, FramesOf;
      HeldStaysStep(c, s, steps[0], v, key);
      StepKeepsInv(c, s, steps[0]);
      HeldStays(c, Next(c, s, steps[0]), steps[1..], v, key);
    }
  }

  /** A thread whose every push raises never gets rid of the frames. */
  lemma StuckStep(c: Config, s: State, step: Step, v: nat, key: BatchKey)
    requires Inv(c, s) && Enabled(c, s, step) && Stuck(s, v, key) && Mover(step) == v && GoesOn(step) && !step.PushOk?
    ensures Stuck(Next(c, s, step), v, key)
  {
    if step.PutBack? {
      assert KeyInv(c, s, s.threads[v].pc.key) && HeldBy(s, v, s.threads[v].pc.key);
    }
    hide Written, RowCount, Conserved, SizeTriggerKept, DueKeys, NoDuplicates;
  }

  lemma {:induction false} StuckStays(c: Config, s: State, steps: seq<Step>, v: nat, key: BatchKey)
    requires Inv(c, s) && CanRun(c, s, steps) && Stuck(s, v, key) && OneGoesOn(steps, v, true)
    ensures Stuck(Run(c, s, steps), v, key)
    decreases |steps|
  {
    if steps != [] {
      assert GoesOn(steps[0]) && Mover(steps[0]) == v && !steps[0].PushOk?;
      assert OneGoesOn(steps[1..], v, true);
      hide Next, Enabled, Inv, OneGoesOn, Stuck;
      StuckStep(c, s, steps[0], v, key);
      StepKeepsInv(c, s, steps[0]);
      StuckStays(c, Next(c, s, steps[0]), steps[1..], v, key);
    }
  }

  /** Thread `u` will drain the key if it goes on now. */
  ghost predicate Soon(c: Config, s: State, u: nat, key: BatchKey) {
    && u < |s.threads| && key !in s.inflight && FramesOf(s.buffers, key) != []
    && (|| Scheduled(s.threads[u], key) || s.threads[u].pc.Snapshot?
        || (u == 0 && s.threads[u].pc.Scanning? && MayBeDue(c, s, s.threads[u].pc.now, key)))
  }

  lemma SoonAfterScan(c: Config, s: State, u: nat, key: BatchKey, clock: int)
    requires Soon(c, s, u, key) && (s.threads[u].pc.Scanning? ==> clock == s.threads[u].pc.now - c.batchInterval)
    requires (s.threads[u].pc.Scanning? || s.threads[u].pc.Snapshot?) && Enabled(c, s, StepOf(c, s, u, false, clock))
    ensures Soon(c, Next(c, s, StepOf(c, s, u, false, clock)), u, key)
  {
    if s.threads[u].pc.Scanning? {
      ScanFinds(c, s, key, clock);
    } else {
      AsListed(Listing(s.buffers.Keys), s.buffers.Keys);
    }
    hide Written, RowCount, DueKeys, NoDuplicates, Listing;
  }

  lemma SoonAfterDrain(c: Config, s: State, u: nat, key: BatchKey)
    requires Soon(c, s, u, key) && s.threads[u].pc.Draining?
    ensures var m := AfterDrain(s, u, s.threads[u].pc.key);
      if s.threads[u].pc == Draining(key) then u < |m.threads| && HeldBy(m, u, key) && m.threads[u].pc.Pushing?
          else Soon(c, m, u, key)
  {
  }

  lemma SoonAfterPush(c: Config, s: State, u: nat, key: BatchKey, clock: int)
    requires Soon(c, s, u, key) && !HeldBy(s, u, key) && Enabled(c, s, StepOf(c, s, u, false, clock))
    requires s.threads[u].pc.Pushing? || s.threads[u].pc.Succeeded? || s.threads[u].pc.Raised?
    ensures Soon(c, Next(c, s, StepOf(c, s, u, false, clock)), u, key)
  {
    hide Written, RowCount;
  }

  lemma SoonStep(c: Config, s: State, u: nat, key: BatchKey, clock: int)
    requires Inv(c, s) && Soon(c, s, u, key) && Enabled(c, s, StepOf(c, s, u, false, clock))
    requires s.threads[u].pc.Scanning? ==> clock == s.threads[u].pc.now - c.batchInterval
    ensures var m := Next(c, s, StepOf(c, s, u, false, clock));
      if s.threads[u].pc == Draining(key) then u < |m.threads| && HeldBy(m, u, key) && m.threads[u].pc.Pushing?
          else Soon(c, m, u, key)
  {
    assert KeyInv(c, s, key) && !HeldBy(s, u, key);
    if s.threads[u].pc.Scanning? || s.threads[u].pc.Snapshot? {
      SoonAfterScan(c, s, u, key, clock);
    } else if s.threads[u].pc.Draining? {
      SoonAfterDrain(c, s, u, key);
    } else if !s.threads[u].pc.Idle? {
      SoonAfterPush(c, s, u, key, clock);
    }
    hide Inv, KeyInv, AfterDrain, AfterCommit, AfterScan, AfterPutBack, MoveTo, Listing, DueKeys, RowCount, FramesOf;
  }

  /** A scan that reads the clock early enough finds the key due if it may. */
  lemma ScanFinds(c: Config, s: State, key: BatchKey, clock: int)
    requires |s.threads| > 0 && s.threads[0].pc.Scanning? && FramesOf(s.buffers, key) != []
    requires key in s.lastFlush ==> s.threads[0].pc.now - s.lastFlush[key] >= c.batchInterval
    requires key !in s.lastFlush ==> s.threads[0].pc.now - clock >= c.batchInterval
    ensures var now := s.threads[0].pc.now; key in Listing(DueKeys(c, s, now, StampsAt(s, clock)))
  {
    var now := s.threads[0].pc.now;
    var stamps := StampsAt(s, clock);
    assert key !in s.lastFlush ==> key in Unstamped(s);
    assert key in DueKeys(c, s, now, stamps);
    hide DueKeys, Listing;
    AsListed(Listing(DueKeys(c, s, now, stamps)), DueKeys(c, s, now, stamps));
  }

  lemma {:induction false} ComesToHold(c: Config, s: State, u: nat, key: BatchKey) returns (steps: seq<Step>, s': State)
    requires Inv(c, s) && Soon(c, s, u, key)
    ensures Leads(c, s, steps, s') && OneGoesOn(steps, u, false) && OnlyMoved(s, s', u)
    ensures HeldBy(s', u, key) && s'.threads[u].pc.Pushing?
    decreases Stage(s.threads[u].pc), |s.threads[u].todo|, Phase(s, s.threads[u].pc)
  {
    var pc := s.threads[u].pc;
    var clock := if pc.Scanning? then pc.now - c.batchInterval else 0;
    var first, m := TakeStep(c, s, u, false, clock);
    SoonStep(c, s, u, key, clock);
    if s.threads[u].pc == Draining(key) { return first, m; }
    StepKeepsInv(c, s, first[0]);
    hide Next, Enabled, Leads, OneGoesOn, Inv, Soon;
    var rest, last := ComesToHold(c, m, u, key);
    LeadsOn(c, s, first, m, rest, last);
    OneGoesOnAppend(first, rest, u, false);
    steps, s' := first + rest, last;
  }

  /** Some thread other than `t` ends up holding frames it can fail to write. */
  lemma SomebodyHolds(c: Config, s: State, t: nat, u: nat, key: BatchKey) returns (steps: seq<Step>, s': State, v: nat)
    requires Inv(c, s) && OnlyFlusherScans(s) && t < |s.threads| && s.threads[t].pc.Snapshot? && u != t &&
        MayTake(c, s, u, key)
    ensures Leads(c, s, steps, s') && OthersGoOn(steps, t) && |s'.threads| == |s.threads| && OnlyFlusherScans(s')
    ensures v != t && HeldBy(s', v, key) && Stuck(s', v, key)
  {
    assert KeyInv(c, s, key);
    if key in s.inflight {
      LeadsNowhere(c, s);
      steps, s' := [], s;
      var w: int :| HeldBy(s, w, key);
      v := w;
      if u != v { assert !HeldBy(s, u, key); }
    } else {
      assert !HeldBy(s, u, key);
      assert Soon(c, s, u, key);
      hide Inv, KeyInv, Soon, MayTake, Leads, OneGoesOn;
      steps, s' := ComesToHold(c, s, u, key);
      OneIsAnother(steps, u, t);
      v := u;
    }
  }

  /** From any reachable state in which another thread may take frames, thread `t` can shut the
      server down, never fail, and yet leave frames unwritten when everybody has finished. */
  lemma DisturbedShutdown(c: Config, s: State, t: nat, u: nat, key: BatchKey) returns (steps: seq<Step>)
    requires Reachable(c, s) && Enabled(c, s, Shutdown(t)) && u != t && MayTake(c, s, u, key)
    ensures CallRuns(c, s, t, Shutdown(t), steps) && !FullyWritten(Run(c, Next(c, s, Shutdown(t)), steps))
  {
    var s1 := Next(c, s, Shutdown(t));
    ReachableNext(c, s, Shutdown(t));
    ReachableInv(c, s1);
    ReachableScanner(c, s1);
    assert MayTake(c, s1, u, key);
    hide Inv, Reachable, MayTake, Next, Enabled;
    var a, s2, v := SomebodyHolds(c, s1, t, u, key);
    LeadsKeepsInv(c, s1, a, s2);
    var b, s3 := OthersFinish(c, s2, |s2.threads|, v, 0);
    assert Leads(c, s2, b, s3);
    HeldStays(c, s2, b, v, key);
    LeadsKeepsInv(c, s2, b, s3);
    var d, s4 := ThreadFinishes(c, s3, v, true, 0);
    assert Leads(c, s3, d, s4);
    StuckStays(c, s3, d, v, key);
    LeadsOn(c, s1, a, s2, b, s3);
    LeadsOn(c, s1, a + b, s3, d, s4);
    steps := a + b + d;
    SpoilingIsAllowed(a, b, d, t, v);
    hide CanRun, Run, Leads;
    assert AllIdle(s4);
    assert FramesOf(s4.buffers, key) != [];
  }

  lemma SpoilingIsAllowed(a: seq<Step>, b: seq<Step>, d: seq<Step>, t: nat, v: nat)
    requires OthersGoOn(a, t) && OthersGoOn(b, v) && OneGoesOn(d, v, true) && v != t
    ensures AllAllowed(a + b + d, t)
  {
  }

  // ---------- Exactly when ----------

  /** Every shutdown by thread `t`, whose own pushes all succeed, writes everything by the time
      everybody has finished if and only if, before the call, no other thread has unwritten
      frames in hand or can still come by some. */
  lemma ShutdownWritesAllIff(c: Config, s: State, t: nat)
    requires Reachable(c, s) && Enabled(c, s, Shutdown(t))
    ensures NobodyElse(c, s, t) <==>
      forall steps :: CallRuns(c, s, t, Shutdown(t), steps) ==> FullyWritten(Run(c, Next(c, s, Shutdown(t)), steps))
  {
    hide Reachable, MayTake, Next, Enabled, FullyWritten;
    if NobodyElse(c, s, t) {
      forall steps | CallRuns(c, s, t, Shutdown(t), steps)
        ensures FullyWritten(Run(c, Next(c, s, Shutdown(t)), steps))
      {
        UndisturbedCallWritesAll(c, s, t, Shutdown(t), steps);
      }
    } else {
      var u, k :| u != t && MayTake(c, s, u, k);
      TakerIsThread(c, s, u, k);
      var steps := DisturbedShutdown(c, s, t, u, k);
    }
  }

  lemma TakerIsThread(c: Config, s: State, u: int, key: BatchKey)
    requires MayTake(c, s, u, key)
    ensures u >= 0
  {
  }

  /** There always is such a run. */
  lemma ShutdownCanFinish(c: Config, s: State, t: nat)
    requires Reachable(c, s) && Enabled(c, s, Shutdown(t))
    ensures exists steps :: CallRuns(c, s, t, Shutdown(t), steps)
  {
    var m := Next(c, s, Shutdown(t));
    ReachableNext(c, s, Shutdown(t));
    ReachableScanner(c, m);
    var steps, s' := OthersFinish(c, m, |m.threads|, -1, 0);
    hide Next, Enabled, Reachable, CanRun, Run;
    assert AllAllowed(steps, t);
    assert CallRuns(c, s, t, Shutdown(t), steps);
  }

  // ---------- The flusher in the middle of a push ----------

  /** One enqueued frame, the flusher and one caller. */
  function Scene(key: BatchKey, frame: Frame, stamps: map<BatchKey, int>, buffered: bool, stopped: bool, flusher: Pc,
      caller: Pc,
                 failed: set<BatchKey>): State
  {
    State(map[key := if buffered then [frame] else []], if buffered then {} else {key}, stamps, stopped,
          [Thread(flusher, []), Thread(caller, [])], [], map[key := [frame]], failed)
  }

  lemma FlusherTakesFrame(c: Config, key: BatchKey, frame: Frame)
    requires |frame| < c.batchSize
    ensures Reachable(c, Scene(key, frame, map[key := 0], false, false, Pushing(key, [frame]), Idle, {}))
  {
    FlusherScans(c, key, frame);
    var s := Scene(key, frame, map[key := 0], true, false, Draining(key), Idle, {});
    assert Scene(key, frame, map[key := 0], false, false, Pushing(key, [frame]), Idle, {}) == Next(c, s, Drain(0));
    ReachableNext(c, s, Drain(0));
  }

  lemma FlusherScans(c: Config, key: BatchKey, frame: Frame)
    requires |frame| < c.batchSize
    ensures Reachable(c, Scene(key, frame, map[key := 0], true, false, Draining(key), Idle, {}))
  {
    FlusherWakes(c, key, frame);
    var s := Scene(key, frame, map[], true, false, Scanning(c.batchInterval), Idle, {});
    var scan := TimerScan([key], map[key := 0]);
    assert Unstamped(s) == {key} && DueKeys(c, s, c.batchInterval, map[key := 0]) == {key};
    assert (set k | k in [key]) == {key} && [key][1..] == [];
    assert map[key := 0] + s.lastFlush == map[key := 0];
    assert Scene(key, frame, map[key := 0], true, false, Draining(key), Idle, {}) == Next(c, s, scan);
    ReachableNext(c, s, scan);
  }

  lemma FlusherWakes(c: Config, key: BatchKey, frame: Frame)
    requires |frame| < c.batchSize
    ensures Reachable(c, Scene(key, frame, map[], true, false, Scanning(c.batchInterval), Idle, {}))
  {
    FrameIsBuffered(c, key, frame);
    var s := Scene(key, frame, map[], true, false, Idle, Idle, {});
    assert Scene(key, frame, map[], true, false, Scanning(c.batchInterval), Idle, {}) ==
        Next(c, s, TimerWake(c.batchInterval));
    ReachableNext(c, s, TimerWake(c.batchInterval));
  }

  lemma FrameIsBuffered(c: Config, key: BatchKey, frame: Frame)
    requires |frame| < c.batchSize
    ensures Reachable(c, Scene(key, frame, map[], true, false, Idle, Idle, {}))
  {
    ReachesSelf(c, Init(2));
    assert Reachable(c, Init(2));
    var frames := FramesOf(Init(2).buffers, key) + [frame];
    assert frames == [frame] && [frame][1..] == [] && RowCount([frame]) == |frame| + RowCount([]);
    var s := AfterEnqueue(c, Init(2), 1, key, frame);
    assert s.threads == [Thread(Idle, []), Thread(Idle, [])];
    ReachableNext(c, Init(2), Enqueue(1, key, frame));
  }

  lemma CallerAsks(c: Config, key: BatchKey, frame: Frame)
    requires |frame| < c.batchSize
    ensures Reachable(c, Scene(key, frame, map[key := 0], false, true, Pushing(key, [frame]), Snapshot, {}))
  {
    FlusherTakesFrame(c, key, frame);
    var s := Scene(key, frame, map[key := 0], false, false, Pushing(key, [frame]), Idle, {});
    hide Reachable;
    assert Scene(key, frame, map[key := 0], false, true, Pushing(key, [frame]), Snapshot, {}) ==
        Next(c, s, Shutdown(1));
    ReachableNext(c, s, Shutdown(1));
  }

  lemma CallerTakesSnapshot(c: Config, key: BatchKey, frame: Frame)
    requires |frame| < c.batchSize
    ensures Reachable(c, Scene(key, frame, map[key := 0], false, true, Pushing(key, [frame]), Draining(key), {}))
  {
    CallerAsks(c, key, frame);
    var s := Scene(key, frame, map[key := 0], false, true, Pushing(key, [frame]), Snapshot, {});
    hide Reachable;
    assert (set k | k in [key]) == s.buffers.Keys && [key][1..] == [];
    assert Scene(key, frame, map[key := 0], false, true, Pushing(key, [frame]), Draining(key), {}) ==
        Next(c, s, TakeSnapshot(1, [key]));
    ReachableNext(c, s, TakeSnapshot(1, [key]));
  }

  lemma CallerSkipsKey(c: Config, key: BatchKey, frame: Frame)
    requires |frame| < c.batchSize
    ensures Reachable(c, Scene(key, frame, map[key := 0], false, true, Pushing(key, [frame]), Idle, {}))
  {
    CallerTakesSnapshot(c, key, frame);
    var s := Scene(key, frame, map[key := 0], false, true, Pushing(key, [frame]), Draining(key), {});
    hide Reachable;
    assert Scene(key, frame, map[key := 0], false, true, Pushing(key, [frame]), Idle, {}) == Next(c, s, Drain(1));
    ReachableNext(c, s, Drain(1));
  }

  lemma FlusherFails(c: Config, key: BatchKey, frame: Frame)
    requires |frame| < c.batchSize
    ensures Reachable(c, Scene(key, frame, map[key := 0], false, true, Raised(key, [frame]), Idle, {}))
  {
    CallerSkipsKey(c, key, frame);
    var s := Scene(key, frame, map[key := 0], false, true, Pushing(key, [frame]), Idle, {});
    hide Reachable;
    assert Scene(key, frame, map[key := 0], false, true, Raised(key, [frame]), Idle, {}) == Next(c, s, PushFail(0));
    ReachableNext(c, s, PushFail(0));
  }

  /** The case that happens: the flusher is still pushing when the join of the shutdown times
      out, so the final flush skips the key; then that push raises. Everybody is done, the
      flusher has stopped, and the frame is in the buffer. */
  lemma ShutdownCanStrandFrames(c: Config, key: BatchKey, frame: Frame)
    requires |frame| < c.batchSize
    ensures var s := Scene(key, frame, map[key := 0], true, true, Idle, Idle, {key});
      Reachable(c, s) && AllIdle(s) && FramesOf(s.buffers, key) == [frame] && Written(s.pushes, key) == []
  {
    FlusherFails(c, key, frame);
    var s := Scene(key, frame, map[key := 0], false, true, Raised(key, [frame]), Idle, {});
    hide Reachable;
    assert [frame] + [] == [frame] && {key} - {key} == {} && {} + {key} == {key};
    assert Scene(key, frame, map[key := 0], true, true, Idle, Idle, {key}) == Next(c, s, PutBack(0));
    ReachableNext(c, s, PutBack(0));
  }
}

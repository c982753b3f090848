/** The batching protocol never gets stuck: whatever has happened, every frame enqueued so far
    can still be written, without another enqueue. */
module BatcherProgress {
  import opened BatcherProtocol
  import opened BatcherRuns
  import opened BatcherShutdown

  // ---------- One flush_all, everybody else at rest ----------

  lemma {:induction false} OthersRest(c: Config, s: State, t: nat, steps: seq<Step>)
    requires CanRun(c, s, steps) && OneGoesOn(steps, t, false)
    ensures var s' := Run(c, s, steps);
      |s'.threads| == |s.threads| && forall u :: 0 <= u < |s.threads| && u != t ==> s'.threads[u] == s.threads[u]
    decreases |steps|
  {
    if steps != [] {
      assert Mover(steps[0]) == t;
      assert OneGoesOn(steps[1..], t, false);
      OthersStay(c, s, steps[0]);
      hide Next, Enabled, OneGoesOn;
      OthersRest(c, Next(c, s, steps[0]), t, steps[1..]);
    }
  }

  lemma RestingTakesNothing(c: Config, s: State, t: int)
    requires AllIdle(s)
    ensures NobodyElse(c, s, t)
  {
  }

  /** With everybody at rest, every flush_all whose pushes succeed empties every buffer by the
      time it returns, with at most one push per key, and all that was enqueued is written. */
  lemma FlushAllEmpties(c: Config, s: State, t: nat, steps: seq<Step>)
    requires Reachable(c, s) && AllIdle(s) && Enabled(c, s, BeginFlushAll(t))
    requires CanRun(c, Next(c, s, BeginFlushAll(t)), steps) && OneGoesOn(steps, t, false)
    requires var s' := Run(c, Next(c, s, BeginFlushAll(t)), steps); t < |s'.threads| && s'.threads[t].pc.Idle?
    ensures var s' := Run(c, Next(c, s, BeginFlushAll(t)), steps);
      FullyWritten(s') && forall k :: PushCount(s'.pushes, k) <= PushCount(s.pushes, k) + 1
  {
    var m := Next(c, s, BeginFlushAll(t));
    OthersStay(c, s, BeginFlushAll(t));
    OthersRest(c, m, t, steps);
    RestingTakesNothing(c, s, t);
    hide Reachable, Next, Enabled, NobodyElse, CanRun, Run;
    assert AllAllowed(steps, t);
    assert CallRuns(c, s, t, BeginFlushAll(t), steps);
    UndisturbedCallWritesAll(c, s, t, BeginFlushAll(t), steps);
  }

  /** And there is such a flush_all. */
  lemma FlushAllEnds(c: Config, s: State, t: nat) returns (steps: seq<Step>)
    requires Enabled(c, s, BeginFlushAll(t))
    ensures var m := Next(c, s, BeginFlushAll(t));
      && CanRun(c, m, steps) && OneGoesOn(steps, t, false)
      && var s' := Run(c, m, steps); t < |s'.threads| && s'.threads[t].pc.Idle? && s'.enqueued == s.enqueued
  {
    var m := Next(c, s, BeginFlushAll(t));
    var s';
    steps, s' := ThreadFinishes(c, m, t, false, 0);
  }

  // ---------- Nothing is ever stuck ----------

  /** From every reachable state with at least one caller, whatever has failed and whoever is
      half way through, some run without another enqueue leaves everybody idle, every buffer
      empty and every frame written, in order. The run ends with a flush_all. */
  lemma EveryFrameCanStillBeWritten(c: Config, s: State)
    requires Reachable(c, s) && |s.threads| > 1
    ensures exists s' :: Reaches(c, s, s') && s'.enqueued == s.enqueued && FullyWritten(s')
  {
    ReachableScanner(c, s);
    var first, m := OthersFinish(c, s, |s.threads|, -1, 0);
    LeadsStaysReachable(c, s, first, m);
    var more := FlushAllEnds(c, m, 1);
    var asked := Next(c, m, BeginFlushAll(1));
    LeadsByOne(c, m, BeginFlushAll(1));
    hide Reachable, Next, Enabled, CanRun, Run;
    FlushAllEmpties(c, m, 1, more);
    var s' := Run(c, asked, more);
    LeadsOn(c, m, [BeginFlushAll(1)], asked, more, s');
    LeadsOn(c, s, first, m, [BeginFlushAll(1)] + more, s');
    assert Reaches(c, s, s');
  }

  // ---------- The timer alone ----------

  predicate NoCall(step: Step) {
    !step.Enqueue? && !step.BeginFlushAll? && !step.Shutdown?
  }

  ghost predicate NoCalls(steps: seq<Step>) {
    forall i :: 0 <= i < |steps| ==> NoCall(steps[i])
  }

  lemma GoingOnIsNoCall(steps: seq<Step>, v: int)
    requires OthersGoOn(steps, v) || OneGoesOn(steps, v, false)
    ensures NoCalls(steps)
  {
  }

  lemma NoCallsAppend(a: seq<Step>, b: seq<Step>)
    requires NoCalls(a) && NoCalls(b)
    ensures NoCalls(a + b)
  {
  }

  lemma NoCallKeepsOpen(c: Config, s: State, step: Step)
    requires Enabled(c, s, step) && NoCall(step)
    ensures Next(c, s, step).stopped == s.stopped && Next(c, s, step).enqueued == s.enqueued
  {
    hide RowCount, DueKeys, NoDuplicates, FramesOf;
  }

  lemma {:induction false} NoCallsKeepOpen(c: Config, s: State, steps: seq<Step>, s': State)
    requires Leads(c, s, steps, s') && NoCalls(steps)
    ensures s'.stopped == s.stopped && s'.enqueued == s.enqueued
    decreases |steps|
  {
    if steps != [] {
      assert NoCall(steps[0]) && NoCalls(steps[1..]);
      NoCallKeepsOpen(c, s, steps[0]);
      hide Next, Enabled, NoCalls;
      NoCallsKeepOpen(c, Next(c, s, steps[0]), steps[1..], s');
    }
  }

  // ---------- Time stamps ----------

  /** No time stamp is later than `now`. */
  ghost predicate StampedBefore(s: State, now: int) {
    forall k :: k in s.lastFlush ==> s.lastFlush[k] <= now
  }

  lemma StampsNoLater(c: Config, s: State, step: Step, now: int)
    requires Enabled(c, s, step) && ReadsAt(step, now) && StampedBefore(s, now)
    ensures StampedBefore(Next(c, s, step), now)
  {
    hide RowCount, DueKeys, NoDuplicates, FramesOf, Unstamped;
  }

  lemma {:induction false} StampsStayNoLater(c: Config, s: State, steps: seq<Step>, s': State, now: int)
    requires Leads(c, s, steps, s') && AllReadAt(steps, now) && StampedBefore(s, now)
    ensures StampedBefore(s', now)
    decreases |steps|
  {
    if steps != [] {
      assert ReadsAt(steps[0], now) && AllReadAt(steps[1..], now);
      hide Next, Enabled, AllReadAt, StampedBefore, ReadsAt;
      StampsNoLater(c, s, steps[0], now);
      StampsStayNoLater(c, Next(c, s, steps[0]), steps[1..], s', now);
    }
  }

  /** Every key with frames has a time stamp, and the flusher puts nothing back. */
  ghost predicate AllStamped(s: State) {
    |s.threads| > 0 && !s.threads[0].pc.Raised? && Unstamped(s) == {}
  }

  lemma FlusherKeepsStamped(c: Config, s: State, step: Step)
    requires AllStamped(s) && Enabled(c, s, step) && GoesOn(step) && Mover(step) == 0 && !step.PushFail?
    ensures AllStamped(Next(c, s, step))
  {
    forall k
      ensures k !in Unstamped(Next(c, s, step))
    {
      assert k !in Unstamped(s);
      hide RowCount, DueKeys, NoDuplicates;
    }
    hide RowCount, DueKeys, NoDuplicates, Unstamped, FramesOf;
  }

  lemma {:induction false} FlusherStaysStamped(c: Config, s: State, steps: seq<Step>, s': State)
    requires Leads(c, s, steps, s') && AllStamped(s) && OneGoesOn(steps, 0, false)
    ensures AllStamped(s')
    decreases |steps|
  {
    if steps != [] {
      assert GoesOn(steps[0]) && Mover(steps[0]) == 0 && !steps[0].PushFail?;
      assert OneGoesOn(steps[1..], 0, false);
      hide Next, Enabled, OneGoesOn, AllStamped;
      FlusherKeepsStamped(c, s, steps[0]);
      FlusherStaysStamped(c, Next(c, s, steps[0]), steps[1..], s');
    }
  }

  // ---------- One pass of the timer ----------

  /** The timer wakes at `now` and scans, everybody else being at rest. */
  lemma WakeAndScan(c: Config, s: State, now: int) returns (steps: seq<Step>, m: State)
    requires AllIdle(s) && !s.stopped && |s.threads| > 0
    ensures Leads(c, s, steps, m) && NoCalls(steps) && AllReadAt(steps, now) && OnlyMoved(s, m, 0)
    ensures var woken := MoveTo(s, 0, Thread(Scanning(now), []));
      Enabled(c, woken, StepOf(c, woken, 0, false, now)) && m == Next(c, woken, StepOf(c, woken, 0, false, now))
  {
    var woken := MoveTo(s, 0, Thread(Scanning(now), []));
    assert woken == Next(c, s, TimerWake(now));
    LeadsByOne(c, s, TimerWake(now));
    var scan := StepOf(c, woken, 0, false, now);
    StepOfIsEnabled(c, woken, 0, false, now);
    StepOfMoves(c, woken, 0, false, now);
    hide Next, Enabled, StepOf;
    m := Next(c, woken, scan);
    LeadsByOne(c, woken, scan);
    LeadsOn(c, s, [TimerWake(now)], woken, [scan], m);
    steps := [TimerWake(now)] + [scan];
  }

  lemma ScanStampsAll(c: Config, s: State, now: int)
    requires AllIdle(s) && |s.threads| > 0
    ensures var woken := MoveTo(s, 0, Thread(Scanning(now), []));
      var step := StepOf(c, woken, 0, false, now);
      Enabled(c, woken, step) && AllStamped(Next(c, woken, step))
  {
    var woken := MoveTo(s, 0, Thread(Scanning(now), []));
    StepOfIsEnabled(c, woken, 0, false, now);
    hide DueKeys, Listing, NoDuplicates;
  }

  /** A first pass leaves every key that still has frames with a time stamp no later than now. */
  lemma FirstPass(c: Config, s: State, now: int) returns (steps: seq<Step>, s': State)
    requires AllIdle(s) && !s.stopped && |s.threads| > 0 && StampedBefore(s, now)
    ensures Leads(c, s, steps, s') && NoCalls(steps) && AllReadAt(steps, now)
    ensures AllIdle(s') && AllStamped(s') && StampedBefore(s', now) && |s'.threads| == |s.threads|
  {
    var a, m := WakeAndScan(c, s, now);
    ScanStampsAll(c, s, now);
    hide Next, Enabled, StepOf, AllStamped, StampedBefore, Leads;
    var b, last := ThreadFinishes(c, m, 0, false, now);
    FlusherStaysStamped(c, m, b, last);
    LeadsOn(c, s, a, m, b, last);
    GoingOnIsNoCall(b, 0);
    NoCallsAppend(a, b);
    AllReadAtAppend(a, b, now);
    StampsStayNoLater(c, s, a + b, last, now);
    steps, s' := a + b, last;
  }

  lemma ScanLeavesFlusher(c: Config, s: State, now: int)
    requires AllIdle(s) && !s.stopped && |s.threads| > 0
    ensures var woken := MoveTo(s, 0, Thread(Scanning(now), []));
      var m := Next(c, woken, StepOf(c, woken, 0, false, now));
      Enabled(c, woken, StepOf(c, woken, 0, false, now))
      && 0 < |m.threads| && !m.threads[0].pc.Scanning? && !m.threads[0].pc.Raised? && NobodyElse(c, m, 0)
  {
    StepOfMoves(c, MoveTo(s, 0, Thread(Scanning(now), [])), 0, false, now);
    hide DueKeys, Listing, Unstamped, NoDuplicates;
  }

  /** A scan a whole interval after the latest time stamp finds every buffer due. */
  lemma ScanCovers(c: Config, s: State, now: int, key: BatchKey)
    requires AllIdle(s) && AllStamped(s) && StampedBefore(s, now - c.batchInterval)
    ensures var woken := MoveTo(s, 0, Thread(Scanning(now), []));
      var m := Next(c, woken, StepOf(c, woken, 0, false, now));
      Enabled(c, woken, StepOf(c, woken, 0, false, now)) && 0 < |m.threads| && Covered(m, 0, key) &&
          PushedOnce(m, m, 0, key)
  {
    var woken := MoveTo(s, 0, Thread(Scanning(now), []));
    StepOfIsEnabled(c, woken, 0, false, now);
    assert key !in Unstamped(s);
    if FramesOf(s.buffers, key) != [] { ScanFinds(c, woken, key, now); }
    hide DueKeys, Listing, Unstamped, NoDuplicates, PushCount;
  }

  /** So a pass an interval later writes everything. */
  lemma LastPass(c: Config, s: State, now: int) returns (steps: seq<Step>, s': State)
    requires Inv(c, s) && AllIdle(s) && !s.stopped && AllStamped(s) && StampedBefore(s, now - c.batchInterval)
    ensures Leads(c, s, steps, s') && NoCalls(steps) && AllReadAt(steps, now)
    ensures AllIdle(s') && forall k :: FramesOf(s'.buffers, k) == []
  {
    var a, m := WakeAndScan(c, s, now);
    LeadsKeepsInv(c, s, a, m);
    ScanLeavesFlusher(c, s, now);
    forall k
      ensures Covered(m, 0, k) && PushedOnce(m, m, 0, k)
    {
      ScanCovers(c, s, now, k);
    }
    hide Next, Enabled, StepOf, Inv, Covered, PushedOnce, CanRun, Run, NobodyElse;
    var b, last := ThreadFinishes(c, m, 0, false, now);
    LeadsIsRun(c, m, b, last);
    assert AllAllowed(b, 0);
    UndisturbedRun(c, m, m, 0, b);
    FlusherEndsEmpty(c, s, last);
    LeadsOn(c, s, a, m, b, last);
    GoingOnIsNoCall(b, 0);
    NoCallsAppend(a, b);
    AllReadAtAppend(a, b, now);
    steps, s' := a + b, last;
  }

  lemma LeadsIsRun(c: Config, s: State, steps: seq<Step>, s': State)
    requires Leads(c, s, steps, s')
    ensures CanRun(c, s, steps) && s' == Run(c, s, steps)
  {
  }

  lemma FlusherEndsEmpty(c: Config, s: State, s': State)
    requires Undisturbed(c, s', 0) && |s'.threads| == |s.threads| && s'.threads[0].pc.Idle? && AllIdle(s)
    requires forall u :: 0 <= u < |s.threads| && u != 0 ==> s'.threads[u] == s.threads[u]
    ensures AllIdle(s') && forall k :: FramesOf(s'.buffers, k) == []
  {
    UndisturbedEndsEmpty(c, s', 0);
  }

  /** A run without a call, on a clock that reads `now`, then `later`. */
  ghost predicate TimerRun(c: Config, s: State, now: int, later: int, a: seq<Step>, m: State, b: seq<Step>, s': State) {
    && Leads(c, s, a, m) && Leads(c, m, b, s') && NoCalls(a) && NoCalls(b)
    && AllReadAt(a, now) && AllReadAt(b, later) && now <= later
  }

  /** Until the server is shut down the flusher suffices: from every reachable state, whatever
      time it is, some run in which nobody calls anything and the clock never goes back leaves
      everybody idle and every frame written. */
  lemma TimerAloneSuffices(c: Config, s: State, now: int)
    requires Reachable(c, s) && |s.threads| > 0 && !s.stopped && StampedBefore(s, now)
    ensures exists later, a, m, b, s' ::
      TimerRun(c, s, now, later, a, m, b, s') && s'.enqueued == s.enqueued && FullyWritten(s')
  {
    ReachableScanner(c, s);
    hide Reachable, Next, Enabled, AllStamped, StampedBefore, Leads, Inv;
    var a1, s1 := OthersFinish(c, s, |s.threads|, -1, now);
    GoingOnIsNoCall(a1, -1);
    NoCallsKeepOpen(c, s, a1, s1);
    StampsStayNoLater(c, s, a1, s1, now);
    var a2, m := FirstPass(c, s1, now);
    LeadsOn(c, s, a1, s1, a2, m);
    NoCallsAppend(a1, a2);
    AllReadAtAppend(a1, a2, now);
    NoCallsKeepOpen(c, s, a1 + a2, m);
    LeadsStaysReachable(c, s, a1 + a2, m);
    ReachableInv(c, m);
    var later := if c.batchInterval > 0 then now + c.batchInterval else now;
    StampedEarlier(m, now, later - c.batchInterval);
    var b, s' := LastPass(c, m, later);
    NoCallsKeepOpen(c, m, b, s');
    LeadsStaysReachable(c, m, b, s');
    forall k ensures Written(s'.pushes, k) == FramesOf(s'.enqueued, k) {
      EmptyIsWritten(c, s', k);
    }
    assert TimerRun(c, s, now, later, a1 + a2, m, b, s');
  }

  lemma StampedEarlier(s: State, now: int, later: int)
    requires StampedBefore(s, now) && now <= later
    ensures StampedBefore(s, later)
  {
  }
}

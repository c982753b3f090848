/** The concurrent offline-write batching protocol, as a step relation.

    One step per locked region, one per store push, and a program counter per
    thread. Thread 0 is the background flusher; every other thread is a caller
    (an HTTP handler, or the one that shuts the server down). */
module BatcherProtocol {

  // ---------- Data ----------

  datatype BatchKey = BatchKey(pushSource: string, allowRegistryCache: bool, transformOnWrite: bool)

  /** A row is an opaque value, a data frame the sequence of its rows. */
  datatype Row = Row(token: int)
  type Frame = seq<Row>

  datatype Config = Config(batchSize: int, batchInterval: int)

  /** One accepted store push: `pd.concat` of `frames`, written under `key`. */
  datatype Push = Push(key: BatchKey, frames: seq<Frame>)

  datatype Pc =
    | Idle
    | Scanning(now: int)                                 // flusher woke up, wants the lock
    | Snapshot                                           // flush_all wants the lock
    | Draining(key: BatchKey)                            // top of the _flush loop, wants the lock
    | Pushing(key: BatchKey, batch: seq<Frame>)          // drained, outside the lock
    | Succeeded(key: BatchKey, batch: seq<Frame>)        // push returned, wants the lock
    | Raised(key: BatchKey, batch: seq<Frame>)           // push raised, wants the lock

  /** `todo` holds the keys a flush_all or a timer scan has yet to flush. */
  datatype Thread = Thread(pc: Pc, todo: seq<BatchKey>)

  datatype State = State(
    buffers: map<BatchKey, seq<Frame>>,
    inflight: set<BatchKey>,
    lastFlush: map<BatchKey, int>,
    stopped: bool,
    threads: seq<Thread>,
    pushes: seq<Push>,                        // what the store accepted, in order
    enqueued: map<BatchKey, seq<Frame>>,      // history: all frames ever enqueued
    failed: set<BatchKey>)                    // history: keys whose latest push raised and was put back

  datatype Step =
    | Enqueue(t: nat, key: BatchKey, frame: Frame)
    | BeginFlushAll(t: nat)
    | Shutdown(t: nat)
    | TakeSnapshot(t: nat, keys: seq<BatchKey>)
    | TimerWake(now: int)
    | TimerScan(due: seq<BatchKey>, stamps: map<BatchKey, int>)
    | Drain(t: nat)
    | PushOk(t: nat)
    | PushFail(t: nat)
    | Commit(t: nat, clock: int)
    | PutBack(t: nat)

  function FramesOf(m: map<BatchKey, seq<Frame>>, key: BatchKey): seq<Frame> {
    if key in m then m[key] else []
  }

  function RowCount(frames: seq<Frame>): nat {
    if frames == [] then 0 else |frames[0]| + RowCount(frames[1..])
  }

  /** `pd.concat(dfs, ignore_index=True)`. */
  function Concat(frames: seq<Frame>): Frame {
    if frames == [] then [] else frames[0] + Concat(frames[1..])
  }

  /** The frames the store accepted for `key`, in push order. */
  function Written(pushes: seq<Push>, key: BatchKey): seq<Frame> {
    if pushes == [] then []
    else
      var last := pushes[|pushes| - 1];
      Written(pushes[..|pushes| - 1], key) + (if last.key == key then last.frames else [])
  }

  /** The rows the store holds for `key`: every push appends one concatenated frame. */
  function StoredRows(pushes: seq<Push>, key: BatchKey): Frame {
    if pushes == [] then []
    else
      var last := pushes[|pushes| - 1];
      StoredRows(pushes[..|pushes| - 1], key) + (if last.key == key then Concat(last.frames) else [])
  }

  predicate NoDuplicates(keys: seq<BatchKey>) {
    forall i, j :: 0 <= i < j < |keys| ==> keys[i] != keys[j]
  }

  // ---------- Steps ----------

  function Init(n: nat): State {
    State(map[], {}, map[], false, seq(n, _ => Thread(Idle, [])), [], map[], {})
  }

  /** Where a thread goes when `_flush` returns: the next key of its loop, if any. */
  function Resume(todo: seq<BatchKey>): Thread {
    if todo == [] then Thread(Idle, []) else Thread(Draining(todo[0]), todo[1..])
  }

  /** The keys with frames that have no time stamp yet. */
  function Unstamped(s: State): set<BatchKey> {
    set k | k in s.buffers && s.buffers[k] != [] && k !in s.lastFlush
  }

  /** `_last_flush[key]`, a defaultdict whose default is the time of the access, one of `stamps`. */
  function LastFlush(s: State, key: BatchKey, stamps: map<BatchKey, int>): int {
    if key in s.lastFlush then s.lastFlush[key] else if key in stamps then stamps[key] else 0
  }

  function DueKeys(c: Config, s: State, now: int, stamps: map<BatchKey, int>): set<BatchKey> {
    set k | k in s.buffers && s.buffers[k] != [] && now - LastFlush(s, k, stamps) >= c.batchInterval
  }

  predicate IsCaller(s: State, t: nat) {
    0 < t < |s.threads|
  }

  predicate Enabled(c: Config, s: State, step: Step) {
    match step
    case Enqueue(t, key, frame) => IsCaller(s, t) && s.threads[t].pc.Idle?
    case BeginFlushAll(t) => IsCaller(s, t) && s.threads[t].pc.Idle?
    case Shutdown(t) => IsCaller(s, t) && s.threads[t].pc.Idle?
    case TakeSnapshot(t, keys) =>
      && t < |s.threads| && s.threads[t].pc.Snapshot?
      && NoDuplicates(keys) && (set k | k in keys) == s.buffers.Keys
    case TimerWake(now) => |s.threads| > 0 && s.threads[0].pc.Idle? && !s.stopped
    case TimerScan(due, stamps) =>
      && |s.threads| > 0 && s.threads[0].pc.Scanning? && stamps.Keys == Unstamped(s)
      && NoDuplicates(due) && (set k | k in due) == DueKeys(c, s, s.threads[0].pc.now, stamps)
    case Drain(t) => t < |s.threads| && s.threads[t].pc.Draining?
    case PushOk(t) => t < |s.threads| && s.threads[t].pc.Pushing?
    case PushFail(t) => t < |s.threads| && s.threads[t].pc.Pushing?
    case Commit(t, clock) => t < |s.threads| && s.threads[t].pc.Succeeded?
    case PutBack(t) => t < |s.threads| && s.threads[t].pc.Raised?
  }

  function MoveTo(s: State, t: nat, th: Thread): State
    requires t < |s.threads|
  {
    s.(threads := s.threads[t := th])
  }

  /** enqueue's locked region. */
  function AfterEnqueue(c: Config, s: State, t: nat, key: BatchKey, frame: Frame): State
    requires t < |s.threads|
  {
    var frames := FramesOf(s.buffers, key) + [frame];
    MoveTo(s.(buffers := s.buffers[key := frames], enqueued := s.enqueued[key := FramesOf(s.enqueued, key) + [frame]]),
           t, if RowCount(frames) >= c.batchSize then Thread(Draining(key), []) else Thread(Idle, []))
  }

  /** The timer's locked region: it reads, and fills in, the default timestamps. */
  function AfterScan(s: State, due: seq<BatchKey>, stamps: map<BatchKey, int>): State
    requires |s.threads| > 0
  {
    MoveTo(s.(lastFlush := stamps + s.lastFlush), 0, Resume(due))
  }

  /** `_drain_locked`. */
  function AfterDrain(s: State, t: nat, key: BatchKey): State
    requires t < |s.threads|
  {
    var todo := s.threads[t].todo;
    if key in s.inflight || FramesOf(s.buffers, key) == [] then
      MoveTo(s, t, Resume(todo))
    else
      MoveTo(s.(buffers := s.buffers[key := []], inflight := s.inflight + {key}), t,
          Thread(Pushing(key, s.buffers[key]), todo))
  }

  /** The locked region after a push that succeeded. */
  function AfterCommit(c: Config, s: State, t: nat, key: BatchKey, clock: int): State
    requires t < |s.threads|
  {
    var todo := s.threads[t].todo;
    MoveTo(s.(lastFlush := s.lastFlush[key := clock], inflight := s.inflight - {key}, failed := s.failed - {key}),
           t, if RowCount(FramesOf(s.buffers, key)) >= c.batchSize then Thread(Draining(key), todo) else Resume(todo))
  }

  /** The locked region after a push that raised. */
  function AfterPutBack(s: State, t: nat, key: BatchKey, batch: seq<Frame>): State
    requires t < |s.threads|
  {
    MoveTo(s.(buffers := s.buffers[key := batch + FramesOf(s.buffers, key)], inflight := s.inflight - {key},
        failed := s.failed + {key}),
           t, Resume(s.threads[t].todo))
  }

  function Next(c: Config, s: State, step: Step): State
    requires Enabled(c, s, step)
  {
    match step
    case Enqueue(t, key, frame) => AfterEnqueue(c, s, t, key, frame)
    case BeginFlushAll(t) => MoveTo(s, t, Thread(Snapshot, []))
    case Shutdown(t) => MoveTo(s.(stopped := true), t, Thread(Snapshot, []))
    case TakeSnapshot(t, keys) => MoveTo(s, t, Resume(keys))
    case TimerWake(now) => MoveTo(s, 0, Thread(Scanning(now), []))
    case TimerScan(due, stamps) => AfterScan(s, due, stamps)
    case Drain(t) => AfterDrain(s, t, s.threads[t].pc.key)
    case PushOk(t) =>
      var Thread(pc, todo) := s.threads[t];
      MoveTo(s.(pushes := s.pushes + [Push(pc.key, pc.batch)]), t, Thread(Succeeded(pc.key, pc.batch), todo))
    case PushFail(t) =>
      var Thread(pc, todo) := s.threads[t];
      MoveTo(s, t, Thread(Raised(pc.key, pc.batch), todo))
    case Commit(t, clock) => AfterCommit(c, s, t, s.threads[t].pc.key, clock)
    case PutBack(t) => AfterPutBack(s, t, s.threads[t].pc.key, s.threads[t].pc.batch)
  }

  // ---------- Runs ----------

  /** Every step of `steps` is enabled when its turn comes. */
  predicate CanRun(c: Config, s: State, steps: seq<Step>)
    decreases |steps|
  {
    steps == [] || (Enabled(c, s, steps[0]) && CanRun(c, Next(c, s, steps[0]), steps[1..]))
  }

  function Run(c: Config, s: State, steps: seq<Step>): State
    requires CanRun(c, s, steps)
    decreases |steps|
  {
    if steps == [] then s else Run(c, Next(c, s, steps[0]), steps[1..])
  }

  ghost predicate Reaches(c: Config, s: State, s': State) {
    exists steps :: CanRun(c, s, steps) && Run(c, s, steps) == s'
  }

  ghost predicate Reachable(c: Config, s: State) {
    exists n: nat :: Reaches(c, Init(n), s)
  }

  // ---------- The invariant ----------

  predicate Holds(pc: Pc, key: BatchKey) {
    (pc.Pushing? || pc.Succeeded? || pc.Raised?) && pc.key == key
  }

  /** The frames a thread has drained that the store has not accepted. */
  function Unresolved(pc: Pc): seq<Frame> {
    if pc.Pushing? || pc.Raised? then pc.batch else []
  }

  /** The drained frames for `key` that are neither written nor back in the buffer. */
  function InFlight(threads: seq<Thread>, key: BatchKey): seq<Frame> {
    if threads == [] then []
    else (if Holds(threads[0].pc, key) then Unresolved(threads[0].pc) else []) + InFlight(threads[1..], key)
  }

  predicate HeldBy(s: State, t: int, key: BatchKey) {
    0 <= t < |s.threads| && Holds(s.threads[t].pc, key)
  }

  predicate DrainedBy(s: State, t: int, key: BatchKey) {
    0 <= t < |s.threads| && s.threads[t].pc == Draining(key)
  }

  /** A key is in flight exactly when one thread, and only one, holds a drained, non-empty batch for it. */
  ghost predicate Exclusive(s: State, key: BatchKey) {
    && (key in s.inflight <==> exists t :: HeldBy(s, t, key))
    && (forall t :: HeldBy(s, t, key) ==> s.threads[t].pc.batch != [])
    && (forall t, u :: HeldBy(s, t, key) && HeldBy(s, u, key) ==> t == u)
  }

  ghost predicate Balanced(s: State, key: BatchKey, unresolved: seq<Frame>) {
    Written(s.pushes, key) + unresolved + FramesOf(s.buffers, key) == FramesOf(s.enqueued, key)
  }

  /** Written, then unresolved, then buffered frames are the enqueued ones, in order. */
  ghost predicate Conserved(s: State, key: BatchKey) {
    && (key !in s.inflight ==> Balanced(s, key, []))
    && (forall t :: HeldBy(s, t, key) ==> Balanced(s, key, Unresolved(s.threads[t].pc)))
  }

  /** Buffered rows that reach the batch size have someone who will flush them,
      unless the latest push of the key raised and was put back. */
  ghost predicate SizeTriggerKept(c: Config, s: State, key: BatchKey) {
    var frames := FramesOf(s.buffers, key);
    frames != [] && RowCount(frames) >= c.batchSize ==>
      key in s.inflight || key in s.failed || exists t :: DrainedBy(s, t, key)
  }

  ghost predicate KeyInv(c: Config, s: State, key: BatchKey) {
    Exclusive(s, key) && Conserved(s, key) && SizeTriggerKept(c, s, key)
  }

  ghost predicate Inv(c: Config, s: State) {
    forall k :: KeyInv(c, s, k)
  }

  lemma WrittenSnoc(pushes: seq<Push>, p: Push, key: BatchKey)
    ensures Written(pushes + [p], key) == Written(pushes, key) + (if p.key == key then p.frames else [])
  {
    assert (pushes + [p])[..|pushes|] == pushes;
  }

  lemma InvInit(c: Config, n: nat)
    ensures Inv(c, Init(n))
  {
  }

  /** Thread `t` moves from `s` to `s'` without touching what `key` depends on. */
  ghost predicate Untouched(s: State, s': State, t: nat, key: BatchKey) {
    && t < |s.threads| && |s'.threads| == |s.threads|
    && (forall u :: 0 <= u < |s.threads| && u != t ==> s'.threads[u] == s.threads[u])
    && !HeldBy(s, t, key) && !HeldBy(s', t, key) && !DrainedBy(s, t, key)
    && FramesOf(s'.buffers, key) == FramesOf(s.buffers, key)
    && FramesOf(s'.enqueued, key) == FramesOf(s.enqueued, key)
    && Written(s'.pushes, key) == Written(s.pushes, key)
    && (key in s'.inflight <==> key in s.inflight)
    && (key in s'.failed <==> key in s.failed)
  }

  lemma KeepUntouched(c: Config, s: State, s': State, t: nat, key: BatchKey)
    requires KeyInv(c, s, key) && Untouched(s, s', t, key)
    ensures KeyInv(c, s', key)
  {
    forall u: int
      ensures HeldBy(s', u, key) <==> HeldBy(s, u, key)
      ensures DrainedBy(s, u, key) ==> DrainedBy(s', u, key)
    {
    }
  }

  /** Every step keeps the invariant of every key. */
  lemma StepKeepsInv(c: Config, s: State, step: Step)
    requires Inv(c, s) && Enabled(c, s, step)
    ensures Inv(c, Next(c, s, step))
  {
    forall k
      ensures KeyInv(c, Next(c, s, step), k)
    {
      assert KeyInv(c, s, k);
      StepKeepsKeyInv(c, s, step, k);
    }
  }

  function Mover(step: Step): nat {
    if step.TimerWake? || step.TimerScan? then 0 else step.t
  }

  predicate Touches(s: State, step: Step, key: BatchKey) {
    match step
    case Enqueue(_, k, _) => k == key
    case BeginFlushAll(_) => false
    case Shutdown(_) => false
    case TakeSnapshot(_, _) => false
    case TimerWake(_) => false
    case TimerScan(_, _) => false
    case _ => step.t < |s.threads| && !s.threads[step.t].pc.Idle? && !s.threads[step.t].pc.Scanning?
              && !s.threads[step.t].pc.Snapshot? && s.threads[step.t].pc.key == key
  }

  lemma StepKeepsKeyInv(c: Config, s: State, step: Step, key: BatchKey)
    requires KeyInv(c, s, key) && Enabled(c, s, step)
    ensures KeyInv(c, Next(c, s, step), key)
  {
    if !Touches(s, step, key) {
      OtherKeysUntouched(c, s, step, key);
      KeepUntouched(c, s, Next(c, s, step), Mover(step), key);
    } else if step.Enqueue? {
      EnqueueKeepsKeyInv(c, s, step.t, key, step.frame);
    } else if step.Drain? {
      DrainKeepsKeyInv(c, s, step.t);
    } else if step.PushOk? {
      PushOkKeepsKeyInv(c, s, step.t);
    } else if step.PushFail? {
      PushFailKeepsKeyInv(c, s, step.t);
    } else if step.Commit? {
      CommitKeepsKeyInv(c, s, step.t, step.clock);
    } else {
      PutBackKeepsKeyInv(c, s, step.t);
    }
  }

  lemma OtherKeysUntouched(c: Config, s: State, step: Step, key: BatchKey)
    requires Enabled(c, s, step) && !Touches(s, step, key)
    ensures Untouched(s, Next(c, s, step), Mover(step), key)
  {
    OthersStay(c, s, step);
    MoverHandlesNothing(c, s, step, key);
    FramesStay(c, s, step, key);
    MarksStay(c, s, step, key);
    WrittenStays(c, s, step, key);
    hide Next, Enabled, Touches;
  }

  lemma OthersStay(c: Config, s: State, step: Step)
    requires Enabled(c, s, step)
    ensures Mover(step) < |s.threads| && |Next(c, s, step).threads| == |s.threads|
    ensures forall u :: 0 <= u < |s.threads| && u != Mover(step) ==> Next(c, s, step).threads[u] == s.threads[u]
  {
    hide Written, RowCount, DueKeys, NoDuplicates, LastFlush;
  }

  lemma MoverHandlesNothing(c: Config, s: State, step: Step, key: BatchKey)
    requires Enabled(c, s, step) && !Touches(s, step, key)
    ensures !HeldBy(s, Mover(step), key) && !DrainedBy(s, Mover(step), key)
    ensures !HeldBy(Next(c, s, step), Mover(step), key)
  {
    hide Written, RowCount, DueKeys, NoDuplicates, LastFlush;
  }

  lemma FramesStay(c: Config, s: State, step: Step, key: BatchKey)
    requires Enabled(c, s, step) && !Touches(s, step, key)
    ensures FramesOf(Next(c, s, step).buffers, key) == FramesOf(s.buffers, key)
    ensures FramesOf(Next(c, s, step).enqueued, key) == FramesOf(s.enqueued, key)
  {
    hide Written, RowCount, DueKeys, NoDuplicates, LastFlush;
  }

  lemma MarksStay(c: Config, s: State, step: Step, key: BatchKey)
    requires Enabled(c, s, step) && !Touches(s, step, key)
    ensures key in Next(c, s, step).inflight <==> key in s.inflight
    ensures key in Next(c, s, step).failed <==> key in s.failed
  {
    hide Written, RowCount, DueKeys, NoDuplicates, LastFlush;
  }

  lemma WrittenStays(c: Config, s: State, step: Step, key: BatchKey)
    requires Enabled(c, s, step) && !Touches(s, step, key)
    ensures Written(Next(c, s, step).pushes, key) == Written(s.pushes, key)
  {
    if step.PushOk? {
      WrittenSnoc(s.pushes, Push(s.threads[step.t].pc.key, s.threads[step.t].pc.batch), key);
    } else {
      hide Written, RowCount, DueKeys, NoDuplicates, LastFlush;
      assert Next(c, s, step).pushes == s.pushes;
    }
  }

  lemma EnqueueKeepsKeyInv(c: Config, s: State, t: nat, key: BatchKey, frame: Frame)
    requires KeyInv(c, s, key) && Enabled(c, s, Enqueue(t, key, frame))
    ensures KeyInv(c, Next(c, s, Enqueue(t, key, frame)), key)
  {
    hide Written, RowCount;
    var s' := Next(c, s, Enqueue(t, key, frame));
    forall unresolved | Balanced(s, key, unresolved)
      ensures Balanced(s', key, unresolved)
    {
      var before := Written(s.pushes, key) + unresolved;
      assert before + (FramesOf(s.buffers, key) + [frame]) == (before + FramesOf(s.buffers, key)) + [frame];
    }
    assert forall u :: HeldBy(s', u, key) <==> HeldBy(s, u, key);
    assert DrainedBy(s', t, key) || RowCount(FramesOf(s'.buffers, key)) < c.batchSize;
  }

  lemma DrainKeepsKeyInv(c: Config, s: State, t: nat)
    requires Enabled(c, s, Drain(t)) && KeyInv(c, s, s.threads[t].pc.key)
    ensures KeyInv(c, Next(c, s, Drain(t)), s.threads[t].pc.key)
  {
    var key := s.threads[t].pc.key;
    if key in s.inflight || FramesOf(s.buffers, key) == [] {
      SkippingKeepsKeyInv(c, s, t, key);
    } else {
      TakingKeepsKeyInv(c, s, t, key);
    }
    hide Written, RowCount, KeyInv;
  }

  lemma SkippingKeepsKeyInv(c: Config, s: State, t: nat, key: BatchKey)
    requires t < |s.threads| && s.threads[t].pc == Draining(key) && KeyInv(c, s, key)
    requires key in s.inflight || FramesOf(s.buffers, key) == []
    ensures KeyInv(c, AfterDrain(s, t, key), key)
  {
    hide Written, RowCount;
    var s' := AfterDrain(s, t, key);
    forall u: int
      ensures HeldBy(s', u, key) <==> HeldBy(s, u, key)
    {
    }
  }

  lemma TakingKeepsKeyInv(c: Config, s: State, t: nat, key: BatchKey)
    requires t < |s.threads| && s.threads[t].pc == Draining(key) && KeyInv(c, s, key)
    requires key !in s.inflight && FramesOf(s.buffers, key) != []
    ensures KeyInv(c, AfterDrain(s, t, key), key)
  {
    hide Written, RowCount;
    var s' := AfterDrain(s, t, key);
    forall u
      ensures HeldBy(s', u, key) <==> u == t
    {
      assert !HeldBy(s, u, key);
    }
    assert Balanced(s, key, []);
    var w, b := Written(s.pushes, key), s.buffers[key];
    assert w + [] + b == w + b + [];
    assert HeldBy(s', t, key) && FramesOf(s'.buffers, key) == [];
  }

  lemma PushOkKeepsKeyInv(c: Config, s: State, t: nat)
    requires Enabled(c, s, PushOk(t)) && KeyInv(c, s, s.threads[t].pc.key)
    ensures KeyInv(c, Next(c, s, PushOk(t)), s.threads[t].pc.key)
  {
    hide Written, RowCount;
    var s' := Next(c, s, PushOk(t));
    var Thread(pc, todo) := s.threads[t];
    assert HeldBy(s, t, pc.key) && HeldBy(s', t, pc.key);
    assert forall u :: HeldBy(s', u, pc.key) <==> HeldBy(s, u, pc.key);
    assert Balanced(s, pc.key, pc.batch);
    WrittenSnoc(s.pushes, Push(pc.key, pc.batch), pc.key);
    assert Balanced(s', pc.key, []);
  }

  lemma PushFailKeepsKeyInv(c: Config, s: State, t: nat)
    requires Enabled(c, s, PushFail(t)) && KeyInv(c, s, s.threads[t].pc.key)
    ensures KeyInv(c, Next(c, s, PushFail(t)), s.threads[t].pc.key)
  {
    hide Written, RowCount;
    var s' := Next(c, s, PushFail(t));
    var Thread(pc, todo) := s.threads[t];
    assert HeldBy(s, t, pc.key) && HeldBy(s', t, pc.key);
    assert forall u :: HeldBy(s', u, pc.key) <==> HeldBy(s, u, pc.key);
    assert Balanced(s, pc.key, pc.batch);
  }

  lemma CommitKeepsKeyInv(c: Config, s: State, t: nat, clock: int)
    requires Enabled(c, s, Commit(t, clock)) && KeyInv(c, s, s.threads[t].pc.key)
    ensures KeyInv(c, Next(c, s, Commit(t, clock)), s.threads[t].pc.key)
  {
    hide Written, RowCount;
    var s' := Next(c, s, Commit(t, clock));
    var key := s.threads[t].pc.key;
    assert HeldBy(s, t, key) && Balanced(s, key, []);
    assert forall u :: !HeldBy(s', u, key) by {
      assert forall u :: HeldBy(s', u, key) ==> HeldBy(s, u, key) && u != t;
    }
    assert DrainedBy(s', t, key) || RowCount(FramesOf(s'.buffers, key)) < c.batchSize;
  }

  lemma PutBackKeepsKeyInv(c: Config, s: State, t: nat)
    requires Enabled(c, s, PutBack(t)) && KeyInv(c, s, s.threads[t].pc.key)
    ensures KeyInv(c, Next(c, s, PutBack(t)), s.threads[t].pc.key)
  {
    hide Written, RowCount;
    var s' := Next(c, s, PutBack(t));
    var key, batch := s.threads[t].pc.key, s.threads[t].pc.batch;
    assert HeldBy(s, t, key) && Balanced(s, key, batch);
    assert forall u :: !HeldBy(s', u, key) by {
      assert forall u :: HeldBy(s', u, key) ==> HeldBy(s, u, key) && u != t;
    }
    var w, b := Written(s.pushes, key), FramesOf(s.buffers, key);
    assert w + batch + b == w + [] + (batch + b);
  }

  lemma {:induction false} RunKeepsInv(c: Config, s: State, steps: seq<Step>)
    requires Inv(c, s) && CanRun(c, s, steps)
    ensures Inv(c, Run(c, s, steps))
    decreases |steps|
  {
    if steps != [] {
      StepKeepsInv(c, s, steps[0]);
      RunKeepsInv(c, Next(c, s, steps[0]), steps[1..]);
    }
  }

  // ---------- What holds in every reachable state ----------

  lemma ReachableInv(c: Config, s: State)
    requires Reachable(c, s)
    ensures Inv(c, s)
  {
    var n: nat :| Reaches(c, Init(n), s);
    var steps :| CanRun(c, Init(n), steps) && Run(c, Init(n), steps) == s;
    InvInit(c, n);
    RunKeepsInv(c, Init(n), steps);
  }

  /** A key is in flight exactly when one thread holds a non-empty batch for it,
      so two pushes of one key never overlap. */
  lemma PushesOfAKeyNeverOverlap(c: Config, s: State, key: BatchKey)
    requires Reachable(c, s)
    ensures key in s.inflight <==> exists t :: HeldBy(s, t, key)
    ensures forall t, u :: HeldBy(s, t, key) && HeldBy(s, u, key) ==> t == u
    ensures forall t :: HeldBy(s, t, key) ==> s.threads[t].pc.batch != []
  {
    ReachableInv(c, s);
    assert KeyInv(c, s, key);
  }

  /** Written frames, then the in-flight batch, then the buffer are exactly the
      enqueued frames, in enqueue order: nothing is lost, duplicated or reordered. */
  lemma NothingLostDuplicatedOrReordered(c: Config, s: State, key: BatchKey)
    requires Reachable(c, s)
    ensures Written(s.pushes, key) + InFlight(s.threads, key) + FramesOf(s.buffers, key) == FramesOf(s.enqueued, key)
  {
    ReachableInv(c, s);
    assert KeyInv(c, s, key);
    if t :| HeldBy(s, t, key) {
      InFlightIsHeld(s, key, t);
      assert Balanced(s, key, Unresolved(s.threads[t].pc));
    } else {
      NobodyHolds(s, key);
      InFlightOfNobody(s.threads, key);
      assert Balanced(s, key, []);
    }
  }

  lemma NobodyHolds(s: State, key: BatchKey)
    requires forall t :: !HeldBy(s, t, key)
    ensures forall t :: 0 <= t < |s.threads| ==> !Holds(s.threads[t].pc, key)
  {
    forall t | 0 <= t < |s.threads|
      ensures !Holds(s.threads[t].pc, key)
    {
      assert !HeldBy(s, t, key);
    }
  }

  lemma InFlightIsHeld(s: State, key: BatchKey, t: int)
    requires Exclusive(s, key) && HeldBy(s, t, key)
    ensures InFlight(s.threads, key) == Unresolved(s.threads[t].pc)
  {
    forall u | 0 <= u < |s.threads| && Holds(s.threads[u].pc, key)
      ensures u == t
    {
      assert HeldBy(s, u, key);
    }
    InFlightOfHolder(s.threads, key, t);
  }

  lemma {:induction false} InFlightOfNobody(threads: seq<Thread>, key: BatchKey)
    requires forall t :: 0 <= t < |threads| ==> !Holds(threads[t].pc, key)
    ensures InFlight(threads, key) == []
  {
    if threads != [] { InFlightOfNobody(threads[1..], key); }
  }

  lemma {:induction false} InFlightOfHolder(threads: seq<Thread>, key: BatchKey, t: int)
    requires 0 <= t < |threads| && Holds(threads[t].pc, key)
    requires forall u :: 0 <= u < |threads| && Holds(threads[u].pc, key) ==> u == t
    ensures InFlight(threads, key) == Unresolved(threads[t].pc)
  {
    if t == 0 {
      InFlightOfNobody(threads[1..], key);
    } else {
      InFlightOfHolder(threads[1..], key, t - 1);
    }
  }

  /** The same balance in rows: what the store holds is the concatenation of whole frames. */
  lemma NoRowLost(c: Config, s: State, key: BatchKey)
    requires Reachable(c, s)
    ensures StoredRows(s.pushes, key) + Concat(InFlight(s.threads, key)) + Concat(FramesOf(s.buffers, key))
         == Concat(FramesOf(s.enqueued, key))
  {
    NothingLostDuplicatedOrReordered(c, s, key);
    StoredIsWritten(s.pushes, key);
    ConcatAppend(Written(s.pushes, key), InFlight(s.threads, key));
    ConcatAppend(Written(s.pushes, key) + InFlight(s.threads, key), FramesOf(s.buffers, key));
  }

  lemma {:induction false} ConcatAppend(a: seq<Frame>, b: seq<Frame>)
    ensures Concat(a + b) == Concat(a) + Concat(b)
  {
    if a == [] {
      assert a + b == b;
    } else {
      assert (a + b)[1..] == a[1..] + b;
      ConcatAppend(a[1..], b);
    }
  }

  lemma ConcatOne(f: Frame)
    ensures Concat([f]) == f
  {
    assert [f][1..] == [] && f + [] == f;
    assert Concat([]) == [];
  }

  lemma RowCountOne(f: Frame)
    ensures RowCount([f]) == |f|
  {
    assert [f][1..] == [] && RowCount([]) == 0;
  }

  lemma {:induction false} RowCountAppend(a: seq<Frame>, b: seq<Frame>)
    ensures RowCount(a + b) == RowCount(a) + RowCount(b)
  {
    if a == [] {
      assert a + b == b;
    } else {
      assert (a + b)[1..] == a[1..] + b;
      RowCountAppend(a[1..], b);
    }
  }

  /** The rows that are compared with the batch size are those of the concatenated frame. */
  lemma {:induction false} RowCountIsRows(frames: seq<Frame>)
    ensures RowCount(frames) == |Concat(frames)|
  {
    if frames != [] { RowCountIsRows(frames[1..]); }
  }

  lemma {:induction false} StoredIsWritten(pushes: seq<Push>, key: BatchKey)
    ensures StoredRows(pushes, key) == Concat(Written(pushes, key))
  {
    if pushes != [] {
      var init, last := pushes[..|pushes| - 1], pushes[|pushes| - 1];
      StoredIsWritten(init, key);
      ConcatAppend(Written(init, key), if last.key == key then last.frames else []);
    }
  }

  /** No size trigger is lost: the flush that makes a trigger a no-op re-checks the size when it releases the key. */
  lemma NoSizeTriggerLost(c: Config, s: State, key: BatchKey)
    requires Reachable(c, s)
    requires FramesOf(s.buffers, key) != [] && |Concat(FramesOf(s.buffers, key))| >= c.batchSize
    ensures key in s.inflight || key in s.failed || exists t :: DrainedBy(s, t, key)
  {
    RowCountIsRows(FramesOf(s.buffers, key));
    ReachableInv(c, s);
    assert KeyInv(c, s, key);
  }

  /** When no thread is doing anything, nothing is in flight, and only a key whose
      latest push raised may sit at or above the batch size. */
  lemma QuietStates(c: Config, s: State, key: BatchKey)
    requires Reachable(c, s)
    requires forall t :: 0 <= t < |s.threads| ==> s.threads[t].pc.Idle?
    ensures s.inflight == {}
    ensures Written(s.pushes, key) + FramesOf(s.buffers, key) == FramesOf(s.enqueued, key)
    ensures FramesOf(s.buffers, key) != [] && |Concat(FramesOf(s.buffers, key))| >= c.batchSize ==> key in s.failed
  {
    RowCountIsRows(FramesOf(s.buffers, key));
    ReachableInv(c, s);
    forall k
      ensures k !in s.inflight
    {
      assert KeyInv(c, s, k);
    }
    assert KeyInv(c, s, key) && Balanced(s, key, []);
    assert Written(s.pushes, key) + [] == Written(s.pushes, key);
  }

  // ---------- Composing runs ----------

  lemma {:induction false} RunAppend(c: Config, s: State, a: seq<Step>, b: seq<Step>)
    requires CanRun(c, s, a) && CanRun(c, Run(c, s, a), b)
    ensures CanRun(c, s, a + b) && Run(c, s, a + b) == Run(c, Run(c, s, a), b)
    decreases |a|
  {
    hide Next, Enabled;
    if a == [] {
      assert a + b == b;
    } else {
      assert (a + b)[1..] == a[1..] + b;
      RunAppend(c, Next(c, s, a[0]), a[1..], b);
    }
  }

  lemma ReachesTransitive(c: Config, s: State, s': State, s'': State)
    requires Reaches(c, s, s') && Reaches(c, s', s'')
    ensures Reaches(c, s, s'')
  {
    var a :| CanRun(c, s, a) && Run(c, s, a) == s';
    var b :| CanRun(c, s', b) && Run(c, s', b) == s'';
    RunAppend(c, s, a, b);
  }

  lemma ReachesStep(c: Config, s: State, step: Step)
    requires Enabled(c, s, step)
    ensures Reaches(c, s, Next(c, s, step))
  {
    var s' := Next(c, s, step);
    assert CanRun(c, s', []) && Run(c, s', []) == s';
    assert [step][1..] == [];
    assert CanRun(c, s, [step]) && Run(c, s, [step]) == s';
  }

  lemma ReachesSelf(c: Config, s: State)
    ensures Reaches(c, s, s)
  {
    assert CanRun(c, s, []) && Run(c, s, []) == s;
  }

  lemma ReachableReaches(c: Config, s: State, s': State)
    requires Reachable(c, s) && Reaches(c, s, s')
    ensures Reachable(c, s')
  {
    var n: nat :| Reaches(c, Init(n), s);
    ReachesTransitive(c, Init(n), s, s');
  }

  lemma ReachableNext(c: Config, s: State, step: Step)
    requires Reachable(c, s) && Enabled(c, s, step)
    ensures Reachable(c, Next(c, s, step))
  {
    ReachesStep(c, s, step);
    ReachableReaches(c, s, Next(c, s, step));
  }
}

/** The batcher as one client sees it: the same methods, run one after another.
    Each call is a run of the protocol, so every reachable-state theorem applies. */
module OfflineWriteBatching {
  import opened BatcherProtocol

  datatype Stored = Stored(key: BatchKey, df: Frame)

  /** The offline store: a push is all or nothing, and `accepts` says which calls raise. */
  class Store {
    const accepts: nat -> bool
    var calls: nat
    var log: seq<Stored>

    constructor (accepts: nat -> bool)
      ensures this.accepts == accepts && calls == 0 && log == []
    {
      this.accepts := accepts;
      calls, log := 0, [];
    }

    method PushOffline(key: BatchKey, df: Frame) returns (ok: bool)
      modifies this
      ensures ok == accepts(old(calls)) && calls == old(calls) + 1
      ensures log == if ok then old(log) + [Stored(key, df)] else old(log)
    {
      ok := accepts(calls);
      calls := calls + 1;
      if ok { log := log + [Stored(key, df)]; }
    }
  }

  /** `time.time()`: `times` are its readings, one after another. */
  class Clock {
    const times: nat -> int
    var ticks: nat

    constructor (times: nat -> int)
      ensures this.times == times && ticks == 0
    {
      this.times, this.ticks := times, 0;
    }

    method Now() returns (now: int)
      modifies this
      ensures now == times(old(ticks)) && ticks == old(ticks) + 1
    {
      now := times(ticks);
      ticks := ticks + 1;
    }
  }

  // ---------- What flushing keys one after another does ----------

  /** The buffers, the accepted batches and the number of pushes tried so far. */
  datatype Books = Books(buffers: map<BatchKey, seq<Frame>>, pushes: seq<Push>, calls: nat)

  /** One `_flush`: at most one push, of the whole buffer; a raised push changes nothing else. */
  function FlushOne(accepts: nat -> bool, key: BatchKey, a: Books): Books {
    var frames := FramesOf(a.buffers, key);
    if frames == [] then a
    else if accepts(a.calls) then Books(a.buffers[key := []], a.pushes + [Push(key, frames)], a.calls + 1)
    else a.(calls := a.calls + 1)
  }

  function FlushKeys(accepts: nat -> bool, keys: seq<BatchKey>, a: Books): Books {
    if keys == [] then a
    else FlushOne(accepts, keys[|keys| - 1], FlushKeys(accepts, keys[..|keys| - 1], a))
  }

  lemma FlushKeysSnoc(accepts: nat -> bool, keys: seq<BatchKey>, i: nat, a: Books)
    requires i < |keys|
    ensures FlushKeys(accepts, keys[..i + 1], a) == FlushOne(accepts, keys[i], FlushKeys(accepts, keys[..i], a))
  {
    assert keys[..i + 1][..i] == keys[..i];
  }

  predicate AllAccepted(accepts: nat -> bool, from: nat, to: nat) {
    forall i :: from <= i < to ==> accepts(i)
  }

  /** The batches pushed are whole, non-empty buffers of `keys`, none twice. */
  ghost predicate WholeBuffers(batches: seq<Push>, buffers: map<BatchKey, seq<Frame>>, keys: seq<BatchKey>) {
    && (forall i, j :: 0 <= i < j < |batches| ==> batches[i].key != batches[j].key)
    && (forall b :: b in batches ==> b.key in keys && b.frames == FramesOf(buffers, b.key) && b.frames != [])
  }

  /** Every buffer is left as it was, or was pushed whole and is empty. */
  ghost predicate LeftOrPushed(keys: seq<BatchKey>, a: Books, r: Books) {
    forall k :: FramesOf(r.buffers, k) == FramesOf(a.buffers, k)
                || (k in keys && FramesOf(r.buffers, k) == [] && Push(k, FramesOf(a.buffers, k)) in r.pushes)
  }

  /** Every key is tried at most once, and the batches pushed are whole buffers. */
  lemma {:induction false} FlushKeysPush(accepts: nat -> bool, keys: seq<BatchKey>, a: Books)
    requires NoDuplicates(keys)
    ensures var r := FlushKeys(accepts, keys, a);
      && a.calls <= r.calls <= a.calls + |keys| && a.pushes <= r.pushes
      && WholeBuffers(r.pushes[|a.pushes|..], a.buffers, keys)
      && forall k :: k !in keys ==> FramesOf(r.buffers, k) == FramesOf(a.buffers, k)
  {
    if keys != [] {
      var init, last := keys[..|keys| - 1], keys[|keys| - 1];
      FlushKeysPush(accepts, init, a);
      var m := FlushKeys(accepts, init, a);
      var r := FlushOne(accepts, last, m);
      assert last !in init;
      if r.pushes != m.pushes {
        assert r.pushes[|a.pushes|..] == m.pushes[|a.pushes|..] + [Push(last, FramesOf(a.buffers, last))];
      }
    }
  }

  lemma {:induction false} FlushKeysLeave(accepts: nat -> bool, keys: seq<BatchKey>, a: Books)
    requires NoDuplicates(keys)
    ensures var r := FlushKeys(accepts, keys, a);
      && LeftOrPushed(keys, a, r) && a.calls <= r.calls
      && (AllAccepted(accepts, a.calls, r.calls) ==> forall k :: k in keys ==> FramesOf(r.buffers, k) == [])
  {
    if keys != [] {
      var init, last := keys[..|keys| - 1], keys[|keys| - 1];
      FlushKeysLeave(accepts, init, a);
      var m := FlushKeys(accepts, init, a);
      var r := FlushOne(accepts, last, m);
      assert AllAccepted(accepts, a.calls, r.calls) ==> AllAccepted(accepts, a.calls, m.calls);
    }
  }

  /** Every key is tried at most once, other keys are left alone, a key left
      unflushed keeps its frames, and no key is left when no push raises. */
  lemma FlushKeysEffect(accepts: nat -> bool, keys: seq<BatchKey>, a: Books)
    requires NoDuplicates(keys)
    ensures var r := FlushKeys(accepts, keys, a);
      && a.calls <= r.calls <= a.calls + |keys|
      && a.pushes <= r.pushes && WholeBuffers(r.pushes[|a.pushes|..], a.buffers, keys)
      && LeftOrPushed(keys, a, r)
      && (AllAccepted(accepts, a.calls, r.calls) ==> forall k :: k in keys ==> FramesOf(r.buffers, k) == [])
  {
    FlushKeysPush(accepts, keys, a);
    FlushKeysLeave(accepts, keys, a);
    hide *;
  }

  const IDLE := Thread(Idle, [])

  class OfflineWriteBatcher {
    const cfg: Config
    const store: Store
    const clock: Clock
    const threads: nat
    var buffers: map<BatchKey, seq<Frame>>
    var inflight: set<BatchKey>
    var lastFlush: map<BatchKey, int>
    var stopped: bool
    ghost var pushes: seq<Push>
    ghost var enqueued: map<BatchKey, seq<Frame>>
    ghost var failed: set<BatchKey>

    /** The protocol state in which thread `t` is at `th` and every other thread rests; thread 0
        is the flusher, thread 1 the one that calls. */
    ghost function View(t: nat, th: Thread): State
      requires t < threads
      reads this
    {
      State(buffers, inflight, lastFlush, stopped, seq(threads, _ => IDLE)[t := th], pushes, enqueued, failed)
    }

    ghost function Ledger(): Books
      reads this, store
    {
      Books(buffers, pushes, store.calls)
    }

    /** The store holds one concatenated frame per accepted batch. */
    ghost predicate Mirrored()
      reads this, store
    {
      && |pushes| == |store.log|
      && forall i :: 0 <= i < |pushes| ==> store.log[i] == Stored(pushes[i].key, Concat(pushes[i].frames))
    }

    /** Nothing is in flight, as between the calls of a sequential client. */
    ghost predicate Quiet()
      reads this, store
    {
      inflight == {} && Mirrored()
    }

    ghost predicate Valid()
      reads this, store
    {
      threads > 1 && Quiet() && Reachable(cfg, View(1, IDLE))
    }

    constructor (cfg: Config, store: Store, clock: Clock, threads: nat)
      requires store.log == [] && threads > 1
      ensures Valid() && this.cfg == cfg && this.store == store && this.clock == clock && this.threads == threads
      ensures buffers == map[] && enqueued == map[] && pushes == [] && !stopped
    {
      this.cfg, this.store, this.clock, this.threads := cfg, store, clock, threads;
      buffers, inflight, lastFlush, stopped := map[], {}, map[], false;
      pushes, enqueued, failed := [], map[], {};
      new;
      assert View(1, IDLE) == Init(threads);
      ReachesSelf(cfg, Init(threads));
    }

    /** The first locked region of `_flush`. */
    method DrainLocked(key: BatchKey, ghost t: nat, ghost todo: seq<BatchKey>) returns (dfs: seq<Frame>)
      requires t < threads
      modifies this`buffers, this`inflight
      ensures dfs == if key in old(inflight) then [] else FramesOf(old(buffers), key)
      ensures buffers == if dfs == [] then old(buffers) else old(buffers)[key := []]
      ensures inflight == if dfs == [] then old(inflight) else old(inflight) + {key}
      ensures View(t, if dfs == [] then Resume(todo) else Thread(Pushing(key, dfs), todo))
           == Next(cfg, old(View(t, Thread(Draining(key), todo))), Drain(t))
    {
      if key in inflight || key !in buffers || buffers[key] == [] { return []; }
      dfs := buffers[key];
      buffers := buffers[key := []];
      inflight := inflight + {key};
    }

    /** The locked region after a push that raised. */
    method PutBackLocked(key: BatchKey, dfs: seq<Frame>, ghost t: nat, ghost todo: seq<BatchKey>)
      requires t < threads
      modifies this`buffers, this`inflight, this`failed
      ensures buffers == old(buffers)[key := dfs + FramesOf(old(buffers), key)]
      ensures inflight == old(inflight) - {key}
      ensures View(t, Resume(todo)) == Next(cfg, old(View(t, Thread(Raised(key, dfs), todo))), PutBack(t))
    {
      buffers := buffers[key := dfs + FramesOf(buffers, key)];
      inflight := inflight - {key};
      failed := failed + {key};
    }

    /** The locked region after a push that succeeded; `again` is its re-check of the size. */
    method CommitLocked(key: BatchKey, ghost dfs: seq<Frame>, ghost t: nat, ghost todo: seq<BatchKey>)
        returns (again: bool)
      requires t < threads
      modifies this`lastFlush, this`inflight, this`failed, clock
      ensures inflight == old(inflight) - {key}
      ensures again <==> |Concat(FramesOf(buffers, key))| >= cfg.batchSize
      ensures View(t, if again then Thread(Draining(key), todo) else Resume(todo))
           == Next(cfg, old(View(t, Thread(Succeeded(key, dfs), todo))), Commit(t, clock.times(old(clock.ticks))))
    {
      var now := clock.Now();
      lastFlush := lastFlush[key := now];
      inflight := inflight - {key};
      failed := failed - {key};
      RowCountIsRows(FramesOf(buffers, key));
      again := RowCount(FramesOf(buffers, key)) >= cfg.batchSize;
    }

    /** One push of `dfs` and the locked region after it; `again` says whether the loop goes on. */
    method PushBatch(key: BatchKey, dfs: seq<Frame>, ghost t: nat, ghost todo: seq<BatchKey>) returns (again: bool)
      requires t < threads && Mirrored()
      modifies this`buffers, this`inflight, this`lastFlush, this`failed, this`pushes, store, clock
      ensures Mirrored() && inflight == old(inflight) - {key}
      ensures store.calls == old(store.calls) + 1
      ensures store.accepts(old(store.calls)) ==> buffers == old(buffers) && pushes == old(pushes) + [Push(key, dfs)]
      ensures !store.accepts(old(store.calls)) ==>
          buffers == old(buffers)[key := dfs + FramesOf(old(buffers), key)] && pushes == old(pushes) && !again
      ensures Reaches(cfg, old(View(t, Thread(Pushing(key, dfs), todo))),
                      View(t, if again then Thread(Draining(key), todo) else Resume(todo)))
    {
      hide Reaches, RowCount, Concat, Written, DueKeys, Unstamped, NoDuplicates;
      ghost var s := View(t, Thread(Pushing(key, dfs), todo));
      var ok := store.PushOffline(key, Concat(dfs));
      if !ok {
        assert View(t, Thread(Raised(key, dfs), todo)) == Next(cfg, s, PushFail(t));
        PutBackLocked(key, dfs, t, todo);
        again := false;
        ReachesTwoSteps(cfg, s, PushFail(t), PutBack(t));
      } else {
        pushes := pushes + [Push(key, dfs)];
        assert View(t, Thread(Succeeded(key, dfs), todo)) == Next(cfg, s, PushOk(t));
        ghost var now := clock.times(clock.ticks);
        again := CommitLocked(key, dfs, t, todo);
        ReachesTwoSteps(cfg, s, PushOk(t), Commit(t, now));
      }
    }

    /** One turn of the `_flush` loop. */
    method FlushTurn(key: BatchKey, ghost t: nat, ghost todo: seq<BatchKey>) returns (again: bool)
      requires t < threads && Quiet()
      modifies this`buffers, this`inflight, this`lastFlush, this`failed, this`pushes, store, clock
      ensures Quiet() && Ledger() == FlushOne(store.accepts, key, old(Ledger()))
      ensures again ==> FramesOf(old(buffers), key) != [] && FramesOf(buffers, key) == []
      ensures Reaches(cfg, old(View(t, Thread(Draining(key), todo))),
          View(t, if again then Thread(Draining(key), todo) else Resume(todo)))
    {
      hide Reaches, RowCount, Concat;
      ghost var start := View(t, Thread(Draining(key), todo));
      var dfs := DrainLocked(key, t, todo);
      ghost var drained := View(t, if dfs == [] then Resume(todo) else Thread(Pushing(key, dfs), todo));
      ReachesStep(cfg, start, Drain(t));
      if dfs == [] { return false; }
      assert dfs + [] == dfs;
      again := PushBatch(key, dfs, t, todo);
      ReachesTransitive(cfg, start, drained, View(t, if again then Thread(Draining(key), todo) else Resume(todo)));
    }

    /** `_flush`: turns until one finds nothing to drain, raises, or leaves the buffer below the batch size. */
    method Flush(key: BatchKey, ghost t: nat, ghost todo: seq<BatchKey>)
      requires t < threads && Quiet()
      modifies this`buffers, this`inflight, this`lastFlush, this`failed, this`pushes, store, clock
      ensures Quiet() && Ledger() == FlushOne(store.accepts, key, old(Ledger()))
      ensures Reaches(cfg, old(View(t, Thread(Draining(key), todo))), View(t, Resume(todo)))
    {
      hide Reaches;
      ghost var start := View(t, Thread(Draining(key), todo));
      ghost var flushed := false;
      ReachesSelf(cfg, start);
      while true
        invariant Quiet()
        invariant flushed ==> FramesOf(buffers, key) == []
        invariant Ledger() == if flushed then FlushOne(store.accepts, key, old(Ledger())) else old(Ledger())
        invariant Reaches(cfg, start, View(t, Thread(Draining(key), todo)))
        decreases !flushed
      {
        ghost var before := View(t, Thread(Draining(key), todo));
        var again := FlushTurn(key, t, todo);
        ReachesTransitive(cfg, start, before, View(t, if again then Thread(Draining(key), todo) else Resume(todo)));
        if !again { return; }
        flushed := true;
      }
    }

    /** Flushes `keys` in turn, as flush_all and the timer do after their locked region. */
    method FlushEach(keys: seq<BatchKey>, ghost t: nat)
      requires t < threads && Quiet()
      modifies this`buffers, this`inflight, this`lastFlush, this`failed, this`pushes, store, clock
      ensures Quiet() && Ledger() == FlushKeys(store.accepts, keys, old(Ledger()))
      ensures Reaches(cfg, old(View(t, Resume(keys))), View(t, IDLE))
    {
      hide Reaches, Reachable;
      ghost var start := View(t, Resume(keys));
      ReachesSelf(cfg, start);
      var i := 0;
      assert keys[0..] == keys;
      while i < |keys|
        invariant 0 <= i <= |keys|
        invariant Quiet() && Ledger() == FlushKeys(store.accepts, keys[..i], old(Ledger()))
        invariant Reaches(cfg, start, View(t, Resume(keys[i..])))
      {
        ghost var before := View(t, Resume(keys[i..]));
        assert keys[i..][1..] == keys[i + 1..];
        FlushKeysSnoc(store.accepts, keys, i, old(Ledger()));
        Flush(keys[i], t, keys[i + 1..]);
        ReachesTransitive(cfg, start, before, View(t, Resume(keys[i + 1..])));
        i := i + 1;
      }
      assert keys[..i] == keys;
    }

    /** `enqueue`: buffers the frame, and flushes the key when its rows reach the batch size. */
    method Enqueue(key: BatchKey, frame: Frame)
      requires Valid()
      modifies this`buffers, this`inflight, this`lastFlush, this`failed, this`pushes, this`enqueued, store, clock
      ensures Valid()
      ensures enqueued == old(enqueued)[key := FramesOf(old(enqueued), key) + [frame]]
      ensures var frames := FramesOf(old(buffers), key) + [frame];
        var buffered := old(Ledger()).(buffers := old(buffers)[key := frames]);
        Ledger() == if |Concat(frames)| >= cfg.batchSize then FlushOne(store.accepts, key, buffered) else buffered
    {
      hide Reaches, Reachable;
      ghost var start := View(1, IDLE);
      var frames := FramesOf(buffers, key) + [frame];
      buffers := buffers[key := frames];
      enqueued := enqueued[key := FramesOf(enqueued, key) + [frame]];
      RowCountIsRows(frames);
      var flush := RowCount(frames) >= cfg.batchSize;
      ghost var buffered := View(1, if flush then Thread(Draining(key), []) else IDLE);
      assert buffered == Next(cfg, start, Step.Enqueue(1, key, frame));
      ReachableNext(cfg, start, Step.Enqueue(1, key, frame));
      if flush {
        Flush(key, 1, []);
        ReachableReaches(cfg, buffered, View(1, IDLE));
      }
    }

    /** The locked region of flush_all, then one `_flush` per key of the snapshot. */
    method FlushSnapshot() returns (ghost keys: seq<BatchKey>)
      requires threads > 1 && Quiet() && Reachable(cfg, View(1, Thread(Snapshot, [])))
      modifies this`buffers, this`inflight, this`lastFlush, this`failed, this`pushes, store, clock
      ensures Valid() && Ledger() == FlushKeys(store.accepts, keys, old(Ledger()))
      ensures NoDuplicates(keys) && (set k | k in keys) == old(buffers).Keys && |keys| == |old(buffers)|
    {
      hide Reaches, Reachable;
      ghost var start := View(1, Thread(Snapshot, []));
      var snapshot := KeysOf(buffers.Keys);
      keys := snapshot;
      assert View(1, Resume(keys)) == Next(cfg, start, TakeSnapshot(1, keys));
      ReachableNext(cfg, start, TakeSnapshot(1, keys));
      ghost var resumed := View(1, Resume(keys));
      FlushEach(snapshot, 1);
      ReachableReaches(cfg, resumed, View(1, IDLE));
    }

    /** `flush_all`: one `_flush` per buffered key. If every push is accepted, every
        buffer is empty and all that was ever enqueued is written, in order. */
    method FlushAll() returns (ghost keys: seq<BatchKey>)
      requires Valid()
      modifies this`buffers, this`inflight, this`lastFlush, this`failed, this`pushes, store, clock
      ensures Valid() && Ledger() == FlushKeys(store.accepts, keys, old(Ledger()))
      ensures NoDuplicates(keys) && (set k | k in keys) == old(buffers).Keys && |keys| == |old(buffers)|
      ensures AllAccepted(store.accepts, old(store.calls), store.calls) ==>
          forall k :: FramesOf(buffers, k) == [] && Written(pushes, k) == FramesOf(enqueued, k)
    {
      hide Reaches, Reachable;
      ghost var start := View(1, IDLE);
      ghost var books := Ledger();
      assert View(1, Thread(Snapshot, [])) == Next(cfg, start, BeginFlushAll(1));
      ReachableNext(cfg, start, BeginFlushAll(1));
      keys := FlushSnapshot();
      FinalFlush(cfg, View(1, IDLE), store.accepts, keys, books);
    }

    /** `shutdown`: stops the flusher, then a final flush_all with the same promise. */
    method Shutdown() returns (ghost keys: seq<BatchKey>)
      requires Valid()
      modifies this`buffers, this`inflight, this`lastFlush, this`failed, this`pushes, this`stopped, store, clock
      ensures Valid() && stopped && Ledger() == FlushKeys(store.accepts, keys, old(Ledger()))
      ensures NoDuplicates(keys) && (set k | k in keys) == old(buffers).Keys && |keys| == |old(buffers)|
      ensures AllAccepted(store.accepts, old(store.calls), store.calls) ==>
          forall k :: FramesOf(buffers, k) == [] && Written(pushes, k) == FramesOf(enqueued, k)
    {
      hide Reaches, Reachable;
      ghost var start := View(1, IDLE);
      ghost var books := Ledger();
      stopped := true;
      assert View(1, Thread(Snapshot, [])) == Next(cfg, start, Step.Shutdown(1));
      ReachableNext(cfg, start, Step.Shutdown(1));
      keys := FlushSnapshot();
      FinalFlush(cfg, View(1, IDLE), store.accepts, keys, books);
    }

    /** One key of the scan: whether it is due. The clock is read, and the reading filled in, if
        the key has frames and no time stamp yet. */
    method ScanKey(key: BatchKey, now: int, ghost s: State, ghost before: map<BatchKey, int>)
        returns (isDue: bool, ghost stamps: map<BatchKey, int>)
      requires key in buffers && s.buffers == buffers && lastFlush == before + s.lastFlush && key !in before
      modifies this`lastFlush, clock
      ensures stamps == if key in Unstamped(s) then before[key := clock.times(old(clock.ticks))] else before
      ensures clock.ticks == if key in Unstamped(s) then old(clock.ticks) + 1 else old(clock.ticks)
      ensures lastFlush == stamps + s.lastFlush
      ensures isDue <==> key in DueKeys(cfg, s, now, stamps)
      ensures isDue <==> IsOld(buffers, lastFlush, key, now, cfg.batchInterval)
    {
      stamps := before;
      if buffers[key] == [] { return false, stamps; }
      if key !in lastFlush {
        var stamp := clock.Now();
        AddDisjoint(stamps, s.lastFlush, key, stamp);
        lastFlush := lastFlush[key := stamp];
        stamps := stamps[key := stamp];
      }
      isDue := now - lastFlush[key] >= cfg.batchInterval;
    }

    /** The locked region of the timer: which keys are due. */
    method CollectDue(now: int) returns (due: seq<BatchKey>, ghost stamps: map<BatchKey, int>)
      requires threads > 0
      modifies this`lastFlush, clock
      ensures stamps.Keys == Unstamped(old(View(0, IDLE))) && lastFlush == stamps + old(lastFlush)
      ensures NoDuplicates(due) && (set k | k in due) == DueKeys(cfg, old(View(0, IDLE)), now, stamps)
      ensures forall k :: k in due <==> IsOld(buffers, lastFlush, k, now, cfg.batchInterval)
      ensures ReadBetween(stamps, clock.times, old(clock.ticks), clock.ticks)
    {
      ghost var s, from := View(0, IDLE), clock.ticks;
      var keys := KeysOf(buffers.Keys);
      due, stamps := [], map[];
      var i := 0;
      NothingScanned(cfg, s, now, keys, clock.times, from);
      hide SoFar, ReadBetween, NoDuplicates, Unstamped, DueKeys, RowCount, Written;
      while i < |keys|
        invariant 0 <= i <= |keys|
        invariant SoFar(cfg, s, now, keys, i, lastFlush, stamps, due, clock.times, from, clock.ticks)
      {
        ghost var last, before, at := lastFlush, stamps, clock.ticks;
        NextKey(cfg, s, now, keys, i, last, stamps, due, clock.times, from, at);
        var isDue;
        isDue, stamps := ScanKey(keys[i], now, s, stamps);
        ScanOne(cfg, s, now, keys, i, last, before, due, clock.times, from, at, clock.ticks);
        if isDue { due := due + [keys[i]]; }
        i := i + 1;
      }
      ScannedAll(cfg, s, now, keys, lastFlush, stamps, due, clock.times, from, clock.ticks);
      hide IsOld;
      forall k
        ensures k in due <==> IsOld(buffers, lastFlush, k, now, cfg.batchInterval)
      {
        assert k in due <==> k in (set j | j in due);
        DueByAge(cfg, s, now, stamps, lastFlush, k);
      }
    }

    /** One pass of the background loop: every due key, and only those, is flushed. */
    method TimerPass() returns (ghost due: seq<BatchKey>, ghost stamps: map<BatchKey, int>)
      requires Valid() && !stopped
      modifies this`buffers, this`inflight, this`lastFlush, this`failed, this`pushes, store, clock
      ensures Valid() && Ledger() == FlushKeys(store.accepts, due, old(Ledger()))
      ensures stamps.Keys == Unstamped(old(View(0, IDLE)))
      ensures NoDuplicates(due)
      ensures (set k | k in due) == DueKeys(cfg, old(View(0, IDLE)), clock.times(old(clock.ticks)), stamps)
    {
      hide Reaches, Reachable, DueKeys, Unstamped;
      ghost var start := View(0, IDLE);
      assert View(1, IDLE) == start;
      var now := clock.Now();
      ghost var woken := View(0, Thread(Scanning(now), []));
      assert woken == Next(cfg, start, TimerWake(now));
      ReachableNext(cfg, start, TimerWake(now));
      var keys;
      keys, stamps := CollectDue(now);
      due := keys;
      ThreadsDoNotMatter(cfg, start, woken, now, stamps);
      ghost var resumed := View(0, Resume(due));
      assert resumed == Next(cfg, woken, TimerScan(due, stamps));
      ReachableNext(cfg, woken, TimerScan(due, stamps));
      FlushEach(keys, 0);
      ReachableReaches(cfg, resumed, View(0, IDLE));
      assert View(1, IDLE) == View(0, IDLE);
    }
  }

  /** The key has frames, and its last flush is at least `age` ago. */
  predicate IsOld(buffers: map<BatchKey, seq<Frame>>, lastFlush: map<BatchKey, int>, key: BatchKey, now: int,
      age: int) {
    key in buffers && buffers[key] != [] && key in lastFlush && lastFlush[key] + age <= now
  }

  lemma DueByAge(c: Config, s: State, now: int, stamps: map<BatchKey, int>, last: map<BatchKey, int>, key: BatchKey)
    requires stamps.Keys == Unstamped(s) && last == stamps + s.lastFlush
    ensures key in DueKeys(c, s, now, stamps) <==> IsOld(s.buffers, last, key, now, c.batchInterval)
  {
  }

  // ---------- One key of the scan after another ----------

  /** After the keys `seen`, the time stamps filled in and the due keys found. */
  ghost predicate Scanned(c: Config, s: State, now: int, seen: seq<BatchKey>, stamps: map<BatchKey, int>,
      due: seq<BatchKey>) {
    && (forall k :: k in stamps <==> k in seen && k in Unstamped(s))
    && NoDuplicates(due)
    && (forall k :: k in due <==> k in seen && k in DueKeys(c, s, now, stamps))
  }

  ghost predicate ReadBetween(stamps: map<BatchKey, int>, times: nat -> int, from: nat, to: nat) {
    forall k :: k in stamps ==> exists r :: from <= r < to && stamps[k] == times(r)
  }

  lemma ReadOneMore(stamps: map<BatchKey, int>, times: nat -> int, from: nat, to: nat, key: BatchKey)
    requires ReadBetween(stamps, times, from, to) && from <= to
    ensures ReadBetween(stamps[key := times(to)], times, from, to + 1)
  {
    var more := stamps[key := times(to)];
    forall k | k in more
      ensures exists r :: from <= r < to + 1 && more[k] == times(r)
    {
      if k == key {
        assert more[k] == times(to);
      } else {
        var r :| from <= r < to && stamps[k] == times(r);
        assert more[k] == times(r);
      }
    }
  }

  /** The scan has looked at the first `i` keys. */
  ghost predicate SoFar(c: Config, s: State, now: int, keys: seq<BatchKey>, i: nat, last: map<BatchKey, int>,
                        stamps: map<BatchKey, int>, due: seq<BatchKey>, times: nat -> int, from: nat, ticks: nat)
  {
    && i <= |keys| && last == stamps + s.lastFlush && Scanned(c, s, now, keys[..i], stamps, due)
    && from <= ticks && ReadBetween(stamps, times, from, ticks)
  }

  lemma NothingScanned(c: Config, s: State, now: int, keys: seq<BatchKey>, times: nat -> int, from: nat)
    ensures SoFar(c, s, now, keys, 0, s.lastFlush, map[], [], times, from, from)
  {
    assert keys[..0] == [] && map[] + s.lastFlush == s.lastFlush;
  }

  lemma NextKey(c: Config, s: State, now: int, keys: seq<BatchKey>, i: nat, last: map<BatchKey, int>,
      stamps: map<BatchKey, int>, due: seq<BatchKey>, times: nat -> int, from: nat, ticks: nat)
    requires SoFar(c, s, now, keys, i, last, stamps, due, times, from, ticks) && i < |keys|
    requires NoDuplicates(keys) && (set k | k in keys) == s.buffers.Keys
    ensures last == stamps + s.lastFlush && keys[i] in s.buffers && keys[i] !in keys[..i] && keys[i] !in stamps
  {
    assert keys[i] in (set k | k in keys);
  }

  lemma AddDisjoint(stamps: map<BatchKey, int>, last: map<BatchKey, int>, key: BatchKey, stamp: int)
    requires key !in stamps && key !in last
    ensures (stamps + last)[key := stamp] == stamps[key := stamp] + last
  {
  }

  lemma MoreStampsSameDue(c: Config, s: State, now: int, stamps: map<BatchKey, int>, key: BatchKey, reading: int,
      k: BatchKey)
    requires k != key
    ensures k in DueKeys(c, s, now, stamps[key := reading]) <==> k in DueKeys(c, s, now, stamps)
  {
  }

  /** One more key: stamped with the next reading if it needs a stamp, and found due if it is. */
  lemma ScanOne(c: Config, s: State, now: int, keys: seq<BatchKey>, i: nat, last: map<BatchKey, int>,
      stamps: map<BatchKey, int>, due: seq<BatchKey>, times: nat -> int, from: nat, ticks: nat, ticks': nat)
    requires SoFar(c, s, now, keys, i, last, stamps, due, times, from, ticks) && i < |keys| && keys[i] !in keys[..i]
    requires ticks' == if keys[i] in Unstamped(s) then ticks + 1 else ticks
    ensures var more := if keys[i] in Unstamped(s) then stamps[keys[i] := times(ticks)] else stamps;
      SoFar(c, s, now, keys, i + 1, more + s.lastFlush, more,
            if keys[i] in DueKeys(c, s, now, more) then due + [keys[i]] else due, times, from, ticks')
  {
    var key := keys[i];
    var more := if key in Unstamped(s) then stamps[key := times(ticks)] else stamps;
    assert keys[..i + 1] == keys[..i] + [key];
    ReadOneMore(stamps, times, from, ticks, key);
    forall k | k != key
      ensures k in DueKeys(c, s, now, more) <==> k in DueKeys(c, s, now, stamps)
    {
      MoreStampsSameDue(c, s, now, stamps, key, times(ticks), k);
    }
    hide ReadBetween, DueKeys, Unstamped;
  }

  lemma ScannedAll(c: Config, s: State, now: int, keys: seq<BatchKey>, last: map<BatchKey, int>,
      stamps: map<BatchKey, int>, due: seq<BatchKey>, times: nat -> int, from: nat, ticks: nat)
    requires SoFar(c, s, now, keys, |keys|, last, stamps, due, times, from, ticks) &&
        (set k | k in keys) == s.buffers.Keys
    ensures stamps.Keys == Unstamped(s) && last == stamps + s.lastFlush && ReadBetween(stamps, times, from, ticks)
    ensures NoDuplicates(due) && (set k | k in due) == DueKeys(c, s, now, stamps)
  {
    assert keys[..|keys|] == keys;
    forall k
      ensures k in s.buffers ==> k in keys
    {
      assert k in s.buffers.Keys <==> k in (set x | x in keys);
    }
  }

  lemma ThreadsDoNotMatter(c: Config, s: State, s': State, now: int, stamps: map<BatchKey, int>)
    requires s'.buffers == s.buffers && s'.lastFlush == s.lastFlush
    ensures DueKeys(c, s', now, stamps) == DueKeys(c, s, now, stamps) && Unstamped(s') == Unstamped(s)
  {
  }

  method KeysOf(keys: set<BatchKey>) returns (r: seq<BatchKey>)
    ensures NoDuplicates(r) && (set k | k in r) == keys && |r| == |keys|
  {
    r := [];
    var rest := keys;
    while rest != {}
      invariant NoDuplicates(r) && rest !! (set k | k in r) && rest + (set k | k in r) == keys
      invariant |r| + |rest| == |keys|
      decreases |rest|
    {
      var k :| k in rest;
      assert (set x | x in r + [k]) == (set x | x in r) + {k};
      r, rest := r + [k], rest - {k};
    }
  }

  /** In a reachable quiet state whose buffers are empty, the store has every enqueued frame. */
  lemma DrainedIsWritten(c: Config, s: State, key: BatchKey)
    requires Reachable(c, s) && forall t :: 0 <= t < |s.threads| ==> s.threads[t].pc.Idle?
    requires FramesOf(s.buffers, key) == []
    ensures Written(s.pushes, key) == FramesOf(s.enqueued, key)
  {
    QuietStates(c, s, key);
    assert Written(s.pushes, key) + [] == Written(s.pushes, key);
  }

  /** The final flush: flushing every buffered key, with no push raising, empties every
      buffer and leaves the written frames equal to the enqueued ones. */
  lemma FinalFlush(c: Config, s: State, accepts: nat -> bool, keys: seq<BatchKey>, before: Books)
    requires Reachable(c, s) && forall t :: 0 <= t < |s.threads| ==> s.threads[t].pc.Idle?
    requires NoDuplicates(keys) && (set k | k in keys) == before.buffers.Keys
    requires var after := FlushKeys(accepts, keys, before); after.buffers == s.buffers && after.pushes == s.pushes
    ensures var after := FlushKeys(accepts, keys, before);
      AllAccepted(accepts, before.calls, after.calls) ==>
        forall k :: FramesOf(s.buffers, k) == [] && Written(s.pushes, k) == FramesOf(s.enqueued, k)
  {
    FlushKeysEffect(accepts, keys, before);
    var after := FlushKeys(accepts, keys, before);
    if AllAccepted(accepts, before.calls, after.calls) {
      forall k
        ensures FramesOf(s.buffers, k) == [] && Written(s.pushes, k) == FramesOf(s.enqueued, k)
      {
        assert k in before.buffers.Keys ==> k in keys;
        DrainedIsWritten(c, s, k);
      }
    }
  }

  lemma ReachesTwoSteps(c: Config, s: State, a: Step, b: Step)
    requires Enabled(c, s, a) && Enabled(c, Next(c, s, a), b)
    ensures Reaches(c, s, Next(c, Next(c, s, a), b))
  {
    ReachesStep(c, s, a);
    ReachesStep(c, Next(c, s, a), b);
    ReachesTransitive(c, s, Next(c, s, a), Next(c, Next(c, s, a), b));
  }
}

/** The message-rate window of the chat websocket: a pruned list of timestamps
    against the whole history of accepted messages. */
module MessageRateLimit {

  const MAX_MESSAGE_SIZE: nat := 4096
  const MAX_MESSAGES_PER_MINUTE: nat := 60
  const WINDOW: real := 60.0

  /** What the receive call of one turn of the loop yields; `now` is the clock read after it. */
  datatype Event = Text(length: nat, now: real) | ReadTimeout | Disconnect

  datatype Outcome = StillOpen | GoingAway | TooBig | PolicyViolation | Disconnected

  datatype Session = Session(accepted: seq<real>, outcome: Outcome)

  /** `[ts for ts in timestamps if lo <= ts <= hi]`. */
  function Within(timestamps: seq<real>, lo: real, hi: real): seq<real> {
    if timestamps == [] then []
    else
      var last := timestamps[|timestamps| - 1];
      Within(timestamps[..|timestamps| - 1], lo, hi) + (if lo <= last <= hi then [last] else [])
  }

  /** `[ts for ts in timestamps if ts >= cutoff]`. */
  function Since(timestamps: seq<real>, cutoff: real): seq<real> {
    if timestamps == [] then []
    else
      var last := timestamps[|timestamps| - 1];
      Since(timestamps[..|timestamps| - 1], cutoff) + (if last >= cutoff then [last] else [])
  }

  /** The limit as promised: a message is refused when the whole history already
      holds 60 accepted ones from the last 60 seconds. No list is ever pruned. */
  function Handle(s: Session, event: Event): Session {
    if !s.outcome.StillOpen? then s
    else match event
      case ReadTimeout => s.(outcome := GoingAway)
      case Disconnect => s.(outcome := Disconnected)
      case Text(length, now) =>
        if length > MAX_MESSAGE_SIZE then s.(outcome := TooBig)
        else if |Since(s.accepted, now - WINDOW)| >= MAX_MESSAGES_PER_MINUTE then s.(outcome := PolicyViolation)
        else s.(accepted := s.accepted + [now])
  }

  function Serve(events: seq<Event>): Session {
    if events == [] then Session([], StillOpen)
    else Handle(Serve(events[..|events| - 1]), events[|events| - 1])
  }

  /** Which of the time stamps lie in the closed minute from `start`. */
  function InMinute(accepted: seq<real>, start: real): set<nat> {
    set i: nat | i < |accepted| && start <= accepted[i] <= start + 60.0
  }

  /** Which of the time stamps are at most a minute old at `now`. */
  function InLastMinute(accepted: seq<real>, now: real): set<nat> {
    set i: nat | i < |accepted| && now - 60.0 <= accepted[i]
  }

  /** The closed 60-second interval from `start` holds at most 60 of the time stamps. */
  predicate MinuteIsLimited(accepted: seq<real>, start: real) {
    |InMinute(accepted, start)| <= 60
  }

  /** The clock never goes back. */
  ghost predicate MonotoneClock(events: seq<Event>) {
    forall i, j :: 0 <= i < j < |events| && events[i].Text? && events[j].Text? ==> events[i].now <= events[j].now
  }

  /** One turn of the loop: the list is pruned, checked and extended. `accepted` are the messages
      the endpoint has answered, which it does not look at. */
  method Turn(timestamps: seq<real>, event: Event, accepted: seq<real>)
    returns (outcome: Outcome, kept: seq<real>, accepted': seq<real>)
    ensures TurnResult(timestamps, event, accepted, outcome, kept, accepted')
  {
    outcome, kept, accepted' := StillOpen, timestamps, accepted;
    match event {
      case ReadTimeout => outcome := GoingAway;
      case Disconnect => outcome := Disconnected;
      case Text(length, now) =>
        if length > MAX_MESSAGE_SIZE { outcome := TooBig; return; }
        kept := Since(timestamps, now - WINDOW);
        if |kept| >= MAX_MESSAGES_PER_MINUTE { outcome := PolicyViolation; return; }
        kept, accepted' := kept + [now], accepted + [now];
    }
  }

  ghost predicate TurnResult(timestamps: seq<real>, event: Event, accepted: seq<real>,
                             outcome: Outcome, kept: seq<real>, accepted': seq<real>) {
    match event
    case ReadTimeout => outcome == GoingAway && kept == timestamps && accepted' == accepted
    case Disconnect => outcome == Disconnected && kept == timestamps && accepted' == accepted
    case Text(length, now) =>
      var recent := Since(timestamps, now - WINDOW);
      if length > MAX_MESSAGE_SIZE then outcome == TooBig && kept == timestamps && accepted' == accepted
      else if |recent| >= MAX_MESSAGES_PER_MINUTE then outcome == PolicyViolation && kept == recent &&
          accepted' == accepted
      else outcome == StillOpen && kept == recent + [now] && accepted' == accepted + [now]
  }

  /** The loop of the endpoint, which keeps only the pruned list and answers what it accepts. */
  method ServeConnection(events: seq<Event>) returns (outcome: Outcome, timestamps: seq<real>,
      accepted: seq<real>)
    ensures MonotoneClock(events) ==> outcome == Serve(events).outcome
    ensures MonotoneClock(events) ==> accepted == Serve(events).accepted
    ensures MonotoneClock(events) && outcome == StillOpen ==> Pruned(timestamps, accepted)
    ensures MonotoneClock(events) ==> forall start :: MinuteIsLimited(accepted, start)
  {
    outcome, timestamps, accepted := StillOpen, [], [];
    var i := 0;
    assert Serve(events[..0]) == Session([], StillOpen) && Pruned([], []);
    hide Handle, Serve, Since, Pruned, MonotoneClock, TurnResult, MinuteIsLimited;
    while i < |events| && outcome.StillOpen?
      invariant 0 <= i <= |events|
      invariant MonotoneClock(events) ==> Session(accepted, outcome) == Serve(events[..i])
      invariant MonotoneClock(events) && outcome.StillOpen? ==> Pruned(timestamps, accepted)
    {
      ghost var kept, before := timestamps, accepted;
      outcome, timestamps, accepted := Turn(timestamps, events[i], accepted);
      if MonotoneClock(events) { TurnAgrees(events, i, kept, before, outcome, timestamps, accepted); }
      i := i + 1;
    }
    ServeStays(events, i);
    assert events[..|events|] == events;
    forall start
      ensures MinuteIsLimited(Serve(events).accepted, start)
    {
      AtMostSixtyPerMinute(events, start);
    }
  }

  /** What the loop keeps is the part of the history the last acceptance left. */
  ghost predicate Pruned(timestamps: seq<real>, accepted: seq<real>) {
    if accepted == [] then timestamps == []
    else timestamps == Since(accepted, accepted[|accepted| - 1] - WINDOW)
  }

  /** Pruning a pruned list at a later cutoff loses nothing of the history. */
  lemma PruneAgain(events: seq<Event>, i: nat, timestamps: seq<real>, accepted: seq<real>)
    requires i < |events| && MonotoneClock(events)
    requires Serve(events[..i]).accepted == accepted && Pruned(timestamps, accepted)
    ensures events[i].Text? ==> var now := events[i].now;
      && Since(timestamps, now - WINDOW) == Since(accepted, now - WINDOW)
      && Since(accepted + [now], now - WINDOW) == Since(accepted, now - WINDOW) + [now]
  {
    LatestIsEarlier(events, i);
    if events[i].Text? {
      var now := events[i].now;
      if accepted != [] {
        SinceTwice(accepted, accepted[|accepted| - 1] - WINDOW, now - WINDOW);
      }
      assert (accepted + [now])[..|accepted|] == accepted;
    }
  }

  /** One turn of the loop on the pruned list is one turn on the whole history. */
  lemma TurnAgrees(events: seq<Event>, i: nat, timestamps: seq<real>, accepted: seq<real>,
                   outcome: Outcome, kept: seq<real>, accepted': seq<real>)
    requires i < |events| && MonotoneClock(events)
    requires Serve(events[..i]) == Session(accepted, StillOpen) && Pruned(timestamps, accepted)
    requires TurnResult(timestamps, events[i], accepted, outcome, kept, accepted')
    ensures Serve(events[..i + 1]) == Session(accepted', outcome)
    ensures outcome.StillOpen? ==> Pruned(kept, accepted')
  {
    hide Since, MonotoneClock;
    assert events[..i + 1][..i] == events[..i];
    PruneAgain(events, i, timestamps, accepted);
    assert events[i].Text? ==> (accepted + [events[i].now])[|accepted|] == events[i].now;
  }

  lemma {:induction false} SinceTwice(ts: seq<real>, a: real, b: real)
    requires a <= b
    ensures Since(Since(ts, a), b) == Since(ts, b)
  {
    if ts != [] {
      var init, last := ts[..|ts| - 1], ts[|ts| - 1];
      SinceTwice(init, a, b);
      if last >= a {
        assert (Since(init, a) + [last])[..|Since(init, a)|] == Since(init, a);
      } else {
        assert Since(ts, a) == Since(init, a);
      }
    }
  }

  /** A closed connection accepts nothing more. */
  lemma {:induction false} ServeStays(events: seq<Event>, n: nat)
    requires n <= |events|
    ensures !Serve(events[..n]).outcome.StillOpen? ==> Serve(events) == Serve(events[..n])
    decreases |events|
  {
    if n < |events| {
      var init := events[..|events| - 1];
      assert init[..n] == events[..n];
      ServeStays(init, n);
    } else {
      assert events[..n] == events;
    }
  }

  /** The latest accepted timestamp is the clock reading of an earlier message. */
  lemma {:induction false} LatestIsEarlier(events: seq<Event>, n: nat)
    requires n <= |events| && MonotoneClock(events)
    ensures var a := Serve(events[..n]).accepted;
      a != [] ==> exists i :: 0 <= i < n && events[i].Text? && events[i].now == a[|a| - 1]
  {
    if n > 0 {
      LatestIsEarlier(events, n - 1);
      assert events[..n][..n - 1] == events[..n - 1];
      var before, after := Serve(events[..n - 1]).accepted, Serve(events[..n]).accepted;
      if after != before {
        assert events[n - 1].Text? && events[n - 1].now == after[|after| - 1];
      }
    }
  }

  // ---------- The limit itself ----------

  lemma {:induction false} WithinAtMostSince(ts: seq<real>, lo: real, hi: real, cutoff: real)
    requires cutoff <= lo
    ensures |Within(ts, lo, hi)| <= |Since(ts, cutoff)|
  {
    if ts != [] { WithinAtMostSince(ts[..|ts| - 1], lo, hi, cutoff); }
  }

  lemma MinuteSnoc(ts: seq<real>, last: real, start: real)
    ensures InMinute(ts + [last], start) ==
      InMinute(ts, start) + if start <= last <= start + 60.0 then {|ts|} else {}
    ensures |ts| !in InMinute(ts, start)
  {
    assert forall i: nat :: i < |ts| + 1 ==> (ts + [last])[i] == if i < |ts| then ts[i] else last;
  }

  lemma LastMinuteSnoc(ts: seq<real>, last: real, now: real)
    ensures InLastMinute(ts + [last], now) == InLastMinute(ts, now) + if now - 60.0 <= last then {|ts|} else {}
    ensures |ts| !in InLastMinute(ts, now)
  {
    assert forall i: nat :: i < |ts| + 1 ==> (ts + [last])[i] == if i < |ts| then ts[i] else last;
  }

  lemma {:induction false} WithinCounts(ts: seq<real>, start: real)
    ensures |Within(ts, start, start + WINDOW)| == |InMinute(ts, start)|
  {
    if ts != [] {
      var init, last := ts[..|ts| - 1], ts[|ts| - 1];
      WithinCounts(init, start);
      MinuteSnoc(init, last, start);
      assert ts == init + [last];
      hide InMinute;
    } else {
      assert InMinute(ts, start) == {};
    }
  }

  lemma {:induction false} SinceCounts(ts: seq<real>, now: real)
    ensures |Since(ts, now - WINDOW)| == |InLastMinute(ts, now)|
  {
    if ts != [] {
      var init, last := ts[..|ts| - 1], ts[|ts| - 1];
      SinceCounts(init, now);
      LastMinuteSnoc(init, last, now);
      assert ts == init + [last];
      hide InLastMinute;
    } else {
      assert InLastMinute(ts, now) == {};
    }
  }

  /** On an open connection a message is accepted if and only if it has at most 4096 characters and
      fewer than 60 messages were accepted since a minute before; otherwise the connection closes for
      the one reason or the other. */
  lemma AcceptedIffFewRecent(events: seq<Event>, length: nat, now: real)
    requires Serve(events).outcome == StillOpen
    ensures var before, after := Serve(events).accepted, Serve(events + [Text(length, now)]);
      var few := |InLastMinute(before, now)| < 60;
      && after.accepted == (if length <= 4096 && few then before + [now] else before)
      && after.outcome == (if length > 4096 then TooBig else if few then StillOpen else PolicyViolation)
  {
    assert (events + [Text(length, now)])[..|events|] == events;
    SinceCounts(Serve(events).accepted, now);
    hide Since, InLastMinute;
  }

  /** No other event changes what is accepted; each closes the connection. */
  lemma OtherEventsClose(events: seq<Event>, event: Event)
    requires Serve(events).outcome == StillOpen && !event.Text?
    ensures Serve(events + [event]) ==
      Session(Serve(events).accepted, if event.ReadTimeout? then GoingAway else Disconnected)
  {
    assert (events + [event])[..|events|] == events;
  }

  lemma {:induction false} WithinIsLimited(events: seq<Event>, start: real)
    ensures |Within(Serve(events).accepted, start, start + WINDOW)| <= MAX_MESSAGES_PER_MINUTE
  {
    if events != [] {
      var init := events[..|events| - 1];
      WithinIsLimited(init, start);
      var before, after := Serve(init).accepted, Serve(events).accepted;
      if after != before {
        var now := events[|events| - 1].now;
        assert after[..|before|] == before;
        if start <= now <= start + WINDOW {
          WithinAtMostSince(before, start, start + WINDOW, now - WINDOW);
        }
      }
    }
  }

  /** Any closed 60-second interval holds at most 60 accepted messages. */
  lemma AtMostSixtyPerMinute(events: seq<Event>, start: real)
    ensures MinuteIsLimited(Serve(events).accepted, start)
  {
    WithinIsLimited(events, start);
    WithinCounts(Serve(events).accepted, start);
    hide Within, Serve, InMinute;
  }
}

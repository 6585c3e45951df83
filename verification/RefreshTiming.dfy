/** The refresh scheduler over whole runs: what holds in every reachable state, and, when no
    callback is late, how old a snapshot can get and how soon a dirty mark is followed by a request. */
module RefreshTiming {
  import opened Machine
  import opened RefreshScheduler

  const REQUEST_SPACING: int := REQUEST_TIMEOUT + REFRESH_INTERVAL

  // ---------------------------------------------------------------------------------------
  //  Every run
  // ---------------------------------------------------------------------------------------

  lemma StepGrows(s: Sched, a: Action)
    ensures |s.sent| <= |Next(s, a).sent| && s.now <= Next(s, a).now
  {
  }

  lemma {:induction false} RunGrows(s: Sched, actions: seq<Action>)
    ensures |s.sent| <= |Run(s, actions).sent| && s.now <= Run(s, actions).now
    decreases |actions|
  {
    if actions != [] {
      StepGrows(s, actions[0]);
      RunGrows(Next(s, actions[0]), actions[1..]);
    }
  }

  lemma {:induction false} RunIsSafe(s: Sched, actions: seq<Action>)
    requires Inv(s) && |Run(s, actions).sent| <= INT_MAX
    ensures Inv(Run(s, actions))
    ensures s.sent <= Run(s, actions).sent && s.installed <= Run(s, actions).installed
    decreases |actions|
  {
    hide Inv;
    if actions != [] {
      RunGrows(Next(s, actions[0]), actions[1..]);
      StepIsSafe(s, actions[0]);
      RunIsSafe(Next(s, actions[0]), actions[1..]);
    }
  }

  lemma ConnectedIsSafe(now: int)
    ensures Inv(Connected(now)) && WaitingForReply(Connected(now))
  {
    assert QueuedTimeouts([]) == [];
    assert Connected(now).timeouts == [Timeout(1, now + REQUEST_TIMEOUT, false)];
  }

  /** From the connect request on, always exactly one of two things holds: a request is in
      flight and its timeout is pending, or the timer is armed with one live wait, at its
      target. So there is always a callback to come, and never two that would send. */
  lemma NeverStuckNeverDoubled(now: int, actions: seq<Action>)
    requires |Run(Connected(now), actions).sent| <= INT_MAX
    ensures var s := Run(Connected(now), actions); WaitingForReply(s) != WaitingForTimer(s)
  {
    ConnectedIsSafe(now);
    RunIsSafe(Connected(now), actions);
  }

  /** Installed snapshots have strictly increasing request ids, so none installs twice, and no
      request that timed out ever installs, whatever replies arrive. */
  lemma InstalledInOrder(now: int, actions: seq<Action>)
    requires |Run(Connected(now), actions).sent| <= INT_MAX
    ensures var s := Run(Connected(now), actions);
      && (forall i, j :: 0 <= i < j < |s.installed| ==> s.installed[i].id < s.installed[j].id)
      && (forall x <- s.installed :: x.id !in s.timedOut && 1 <= x.id <= |s.sent|)
  {
    ConnectedIsSafe(now);
    RunIsSafe(Connected(now), actions);
  }

  /** A timeout can have expired, and its handler be queued, when the reply comes first: the
      handler then runs for a request that was answered, and changes nothing. */
  lemma TimeoutCanLoseTheRace()
    ensures var s := Run(Connected(0), [Advance(5000), ExpireTimeout(0), Reply(1)]);
      && s.timeouts == [Timeout(1, 5000, true)] && |s.installed| == 1 && s.timedOut == {}
      && Next(s, RunTimeout(0)) == s.(timeouts := [])
  {
    var s0 := Connected(0);
    ConnectedIsSafe(0);
    assert QueuedTimeouts([]) == [];
    assert s0.timeouts == [Timeout(1, 5000, false)];
    var s1 := Next(s0, Advance(5000));
    var s2 := Next(s1, ExpireTimeout(0));
    var s3 := Next(s2, Reply(1));
    assert s2.timeouts == [Timeout(1, 5000, true)];
    StepIsSafe(s0, Advance(5000));
    StepIsSafe(s1, ExpireTimeout(0));
    ReplyIsSafe(s2, 1);
    AllQueuedStay(s2.timeouts);
    RunThree(s0, Advance(5000), ExpireTimeout(0), Reply(1));
    TimeoutIsSafe(s3, 0);
    assert s3.timeouts[..0] + s3.timeouts[1..] == [];
  }

  /** From every state where the timer is armed and no stale handler is queued, the next request
      does go out: at the target, by the timer's own two steps. */
  lemma TimerDelivers(s: Sched)
    requires Inv(s) && WaitingForTimer(s) && |s.sent| < INT_MAX && s.now <= s.timerTarget
    ensures var r := Run(s, [Advance(s.timerTarget - s.now), ExpireTimer(0), RunTimer(0)]);
      Inv(r) && WaitingForReply(r) && r.sent == s.sent + [Stamp(r.refreshSeq, s.timerTarget)]
  {
    hide Requests;
    hide Answers;
    var a := Advance(s.timerTarget - s.now);
    var s1 := Next(s, a);
    var s2 := Next(s1, ExpireTimer(0));
    assert s1 == s.(now := s.timerTarget);
    assert s2 == s1.(waits := [Wait(s.timerTarget, true)]);
    RunThree(s, a, ExpireTimer(0), RunTimer(0));
    StepIsSafe(s, a);
    StepIsSafe(s1, ExpireTimer(0));
    TimerSends(s2);
  }

  lemma RunThree(s: Sched, a: Action, b: Action, c: Action)
    ensures Run(s, [a, b, c]) == Next(Next(Next(s, a), b), c)
  {
    hide Next;
    assert [a, b, c][1..] == [b, c] && [b, c][1..] == [c] && [c][1..] == [];
    assert Run(Next(s, a), [b, c]) == Run(Next(Next(s, a), b), [c]);
    assert Run(Next(Next(Next(s, a), b), c), []) == Next(Next(Next(s, a), b), c);
  }

  // ---------------------------------------------------------------------------------------
  //  Runs whose callbacks are on time
  // ---------------------------------------------------------------------------------------

  /** Time does not pass the deadline of a wait whose handler has not run. */
  predicate OnTime(s: Sched, a: Action) {
    a.Advance? ==>
      && (forall w <- s.waits :: s.now + a.ms <= w.deadline)
      && (forall t <- s.timeouts :: s.now + a.ms <= t.deadline)
  }

  predicate PromptRun(s: Sched, actions: seq<Action>)
    decreases |actions|
  {
    actions == [] || (OnTime(s, actions[0]) && PromptRun(Next(s, actions[0]), actions[1..]))
  }

  function InstalledAt(s: Sched): int
    requires s.installed != []
  {
    s.installed[|s.installed| - 1].at
  }

  predicate Timely(s: Sched) {
    && (s.inFlight ==> s.now <= s.lastRequestAt + REQUEST_TIMEOUT)
    && (!s.inFlight ==> s.now <= s.timerTarget <= s.lastRequestAt + REQUEST_SPACING)
    && (forall i :: 0 <= i < |s.sent| - 1 ==> s.sent[i + 1].at <= s.sent[i].at + REQUEST_SPACING)
    && (s.installed != [] ==>
          (if s.inFlight then s.lastRequestAt else s.timerTarget)
          <= InstalledAt(s) + REFRESH_INTERVAL + REQUEST_SPACING * s.missed)
  }

  lemma StepIsTimely(s: Sched, a: Action)
    requires Inv(s) && Timely(s) && OnTime(s, a) && |Next(s, a).sent| <= INT_MAX
    ensures Timely(Next(s, a))
  {
    match a {
      case Advance(ms) => AdvanceIsTimely(s, ms);
      case ExpireTimer(i) =>
      case ExpireTimeout(i) =>
      case RunTimer(i) => RunTimerIsTimely(s, i);
      case RunTimeout(i) => RunTimeoutIsTimely(s, i);
      case Reply(id) => ReplyIsTimely(s, id);
      case Mark => MarkIsTimely(s);
    }
  }

  lemma RunTimeoutIsTimely(s: Sched, i: nat)
    requires Inv(s) && Timely(s)
    ensures Timely(Next(s, RunTimeout(i)))
  {
    if i < |s.timeouts| && s.timeouts[i].queued {
      TimeoutIsSafe(s, i);
      assert s.timeouts[i] in s.timeouts;
    }
  }

  lemma MarkIsTimely(s: Sched)
    requires Inv(s) && Timely(s)
    ensures Timely(Next(s, Mark))
  {
    MarkIsSafe(s);
  }

  lemma AdvanceIsTimely(s: Sched, ms: nat)
    requires Inv(s) && Timely(s) && OnTime(s, Advance(ms))
    ensures Timely(Next(s, Advance(ms)))
  {
    if s.inFlight {
      var n := |s.timeouts| - 1;
      assert s.timeouts[n] in s.timeouts;
    } else {
      assert s.waits[0] in s.waits;
    }
  }

  lemma RunTimerIsTimely(s: Sched, i: nat)
    requires Inv(s) && Timely(s) && |Next(s, RunTimer(i)).sent| <= INT_MAX
    ensures Timely(Next(s, RunTimer(i)))
  {
    if i < |s.waits| && s.waits[i].queued {
      assert s.waits[..0] + s.waits[1..] == [];
      assert s.waits[0] in s.waits;
      var r := Next(s, RunTimer(i));
      assert |r.sent| == |s.sent| + 1;
      TimerSends(s);
      assert s.now == s.timerTarget && r.installed == s.installed && r.missed == s.missed && r.now == s.now;
      assert s.lastRequestAt == s.sent[|s.sent| - 1].at && r.lastRequestAt == r.now;
      SpacingExtends(s, r);
    }
  }

  lemma SpacingExtends(s: Sched, r: Sched)
    requires Timely(s) && !s.inFlight && s.now == s.timerTarget
    requires |s.sent| > 0 && s.lastRequestAt == s.sent[|s.sent| - 1].at
    requires r.inFlight && r.now == s.now == r.lastRequestAt && r.sent == s.sent + [Stamp(r.refreshSeq, s.now)]
    requires r.installed == s.installed && r.missed == s.missed
    ensures Timely(r)
  {
    assert forall j :: 0 <= j < |s.sent| ==> r.sent[j] == s.sent[j];
  }

  lemma ReplyIsTimely(s: Sched, id: int32)
    requires Inv(s) && Timely(s)
    ensures Timely(Next(s, Reply(id)))
  {
    ReplyIsSafe(s, id);
    var r := Next(s, Reply(id));
    if s.inFlight && id == s.refreshSeq {
      assert r.timerTarget == s.now + if s.dirty then GapLeft(s) else REFRESH_INTERVAL;
      assert r.missed == 0 && InstalledAt(r) == s.now;
    }
  }

  lemma {:induction false} RunIsTimely(s: Sched, actions: seq<Action>)
    requires Inv(s) && Timely(s) && PromptRun(s, actions) && |Run(s, actions).sent| <= INT_MAX
    ensures Inv(Run(s, actions)) && Timely(Run(s, actions))
    decreases |actions|
  {
    hide Inv;
    hide Timely;
    if actions != [] {
      RunGrows(Next(s, actions[0]), actions[1..]);
      StepIsSafe(s, actions[0]);
      StepIsTimely(s, actions[0]);
      RunIsTimely(Next(s, actions[0]), actions[1..]);
    }
  }

  /** Consecutive requests are at least 3 s and at most 65 s apart, and the last one is never
      more than 65 s back. */
  lemma RequestSpacing(now: int, actions: seq<Action>)
    requires PromptRun(Connected(now), actions) && |Run(Connected(now), actions).sent| <= INT_MAX
    ensures var s := Run(Connected(now), actions);
      && |s.sent| > 0
      && (forall i :: 0 <= i < |s.sent| - 1 ==>
            s.sent[i].at + 3000 <= s.sent[i + 1].at <= s.sent[i].at + 65000)
      && s.now <= s.sent[|s.sent| - 1].at + 65000
  {
    ConnectedIsSafe(now);
    RunIsTimely(Connected(now), actions);
    hide *;
    SpacingOf(Run(Connected(now), actions));
  }

  lemma SpacingOf(s: Sched)
    requires Inv(s) && Timely(s)
    ensures |s.sent| > 0
    ensures forall i :: 0 <= i < |s.sent| - 1 ==> s.sent[i].at + 3000 <= s.sent[i + 1].at <= s.sent[i].at + 65000
    ensures s.now <= s.sent[|s.sent| - 1].at + 65000
  {
  }

  /** However many requests time out in a row, a snapshot's age stays under 65 s for each of
      them and one more; with at most one it is at most 130 s. */
  lemma SnapshotStaysFresh(now: int, actions: seq<Action>)
    requires PromptRun(Connected(now), actions) && |Run(Connected(now), actions).sent| <= INT_MAX
    ensures var s := Run(Connected(now), actions);
      s.installed != [] ==>
        && s.now - InstalledAt(s) <= 65000 * (s.missed + 1)
        && (s.missed <= 1 ==> s.now - InstalledAt(s) <= 130000)
  {
    ConnectedIsSafe(now);
    RunIsTimely(Connected(now), actions);
  }

  /** A state some on-time run ends in. */
  ghost predicate OnTimeState(s: Sched) {
    exists start, actions ::
      PromptRun(Connected(start), actions) && |Run(Connected(start), actions).sent| <= INT_MAX
      && Run(Connected(start), actions) == s
  }

  lemma OnTimeStateIsFresh(s: Sched)
    requires OnTimeState(s) && s.installed != [] && s.missed <= 1
    ensures s.now - InstalledAt(s) <= 130000
  {
    var start, actions :| PromptRun(Connected(start), actions) && |Run(Connected(start), actions).sent| <= INT_MAX
                          && Run(Connected(start), actions) == s;
    SnapshotStaysFresh(start, actions);
  }

  // ---------------------------------------------------------------------------------------
  //  Two timeouts in a row
  // ---------------------------------------------------------------------------------------

  /** One period that ends in a timeout. */
  const LOST_PERIOD: seq<Action> := [
    Advance(60000), ExpireTimer(0), RunTimer(0), Advance(5000), ExpireTimeout(0), RunTimeout(0)]

  lemma PromptStep(s: Sched, a: Action, rest: seq<Action>)
    ensures PromptRun(s, [a] + rest) == (OnTime(s, a) && PromptRun(Next(s, a), rest))
    ensures Run(s, [a] + rest) == Run(Next(s, a), rest)
  {
    assert ([a] + rest)[1..] == rest;
  }

  /** From an idle state with the timer a full interval away, a period that loses its request
      takes 65 s and ends in such a state again. */
  lemma LosePeriod(s: Sched, rest: seq<Action>) returns (r: Sched)
    requires Inv(s) && WaitingForTimer(s) && s.timeouts == [] && |s.sent| < INT_MAX
    requires s.timerTarget == s.now + REFRESH_INTERVAL && !s.waits[0].queued
    ensures Inv(r) && WaitingForTimer(r) && r.timeouts == [] && |r.sent| == |s.sent| + 1
    ensures r.now == s.now + REQUEST_SPACING && r.timerTarget == r.now + REFRESH_INTERVAL && !r.waits[0].queued
    ensures r.missed == s.missed + 1 && r.installed == s.installed
    ensures PromptRun(s, LOST_PERIOD + rest) == PromptRun(r, rest) && Run(s, LOST_PERIOD + rest) == Run(r, rest)
  {
    var s3 := TimerPeriod(s);
    r := TimeoutPeriod(s3);
    LostPeriodUnfolds(s, rest);
  }

  /** The first half: the timer runs out and a request goes out. */
  lemma TimerPeriod(s: Sched) returns (r: Sched)
    requires Inv(s) && WaitingForTimer(s) && s.timeouts == [] && |s.sent| < INT_MAX
    requires s.timerTarget == s.now + REFRESH_INTERVAL && !s.waits[0].queued
    ensures r == Next(Next(Next(s, Advance(60000)), ExpireTimer(0)), RunTimer(0))
    ensures Inv(r) && WaitingForReply(r) && r.now == s.now + 60000 && |r.sent| == |s.sent| + 1
    ensures r.timeouts == [Timeout(r.refreshSeq, r.now + REQUEST_TIMEOUT, false)]
    ensures r.missed == s.missed && r.installed == s.installed && OnTime(s, Advance(60000))
  {
    assert s.waits == [s.waits[0]];
    var s1 := Next(s, Advance(60000));
    var s2 := Next(s1, ExpireTimer(0));
    assert s2.waits == [Wait(s.timerTarget, true)];
    StepIsSafe(s, Advance(60000));
    StepIsSafe(s1, ExpireTimer(0));
    TimerSends(s2);
    r := Next(s2, RunTimer(0));
    assert QueuedTimeouts([]) == [];
    assert r.timeouts == [Timeout(r.refreshSeq, r.now + REQUEST_TIMEOUT, false)];
  }

  /** The second half: no reply comes, and the request times out. */
  lemma TimeoutPeriod(s: Sched) returns (r: Sched)
    requires Inv(s) && WaitingForReply(s)
    requires s.timeouts == [Timeout(s.refreshSeq, s.now + REQUEST_TIMEOUT, false)]
    ensures r == Next(Next(Next(s, Advance(5000)), ExpireTimeout(0)), RunTimeout(0))
    ensures Inv(r) && WaitingForTimer(r) && r.timeouts == [] && r.sent == s.sent && r.now == s.now + 5000
    ensures r.timerTarget == r.now + REFRESH_INTERVAL && !r.waits[0].queued
    ensures r.missed == s.missed + 1 && r.installed == s.installed && OnTime(s, Advance(5000))
  {
    assert |s.sent| <= INT_MAX;
    hide Requests;
    hide Answers;
    var s1 := Next(s, Advance(5000));
    var s2 := Next(s1, ExpireTimeout(0));
    assert s1 == s.(now := s.now + 5000);
    assert s2 == s1.(timeouts := [Timeout(s.refreshSeq, s2.now, true)]);
    StepIsSafe(s, Advance(5000));
    StepIsSafe(s1, ExpireTimeout(0));
    TimeoutIsSafe(s2, 0);
    r := Next(s2, RunTimeout(0));
    assert r.timeouts == s2.timeouts[..0] + s2.timeouts[1..] == [];
    hide Next;
    assert r.waits[0] in r.waits;
  }

  lemma LostPeriodUnfolds(s: Sched, rest: seq<Action>)
    ensures var s1 := Next(s, Advance(60000));
      var s2 := Next(s1, ExpireTimer(0));
      var s3 := Next(s2, RunTimer(0));
      var s4 := Next(s3, Advance(5000));
      var s5 := Next(s4, ExpireTimeout(0));
      var s6 := Next(s5, RunTimeout(0));
      && PromptRun(s, LOST_PERIOD + rest)
         == (OnTime(s, Advance(60000)) && OnTime(s3, Advance(5000)) && PromptRun(s6, rest))
      && Run(s, LOST_PERIOD + rest) == Run(s6, rest)
  {
    hide Next;
    var r5 := [RunTimeout(0)] + rest;
    var r4 := [ExpireTimeout(0)] + r5;
    var r3 := [Advance(5000)] + r4;
    var r2 := [RunTimer(0)] + r3;
    var r1 := [ExpireTimer(0)] + r2;
    assert LOST_PERIOD + rest == [Advance(60000)] + r1;
    var s1 := Next(s, Advance(60000));
    var s2 := Next(s1, ExpireTimer(0));
    var s3 := Next(s2, RunTimer(0));
    var s4 := Next(s3, Advance(5000));
    var s5 := Next(s4, ExpireTimeout(0));
    PromptStep(s, Advance(60000), r1);
    PromptStep(s1, ExpireTimer(0), r2);
    PromptStep(s2, RunTimer(0), r3);
    PromptStep(s3, Advance(5000), r4);
    PromptStep(s4, ExpireTimeout(0), r5);
    PromptStep(s5, RunTimeout(0), rest);
  }

  const STALE_RUN: seq<Action> := [Reply(1)] + (LOST_PERIOD + (LOST_PERIOD + [Advance(50000)]))

  /** The bound of one is tight: an on-time run in which two requests in a row time out leaves a
      snapshot that fails the freshness test. */
  lemma TwoTimeoutsGoStale()
    ensures PromptRun(Connected(0), STALE_RUN)
    ensures var s := Run(Connected(0), STALE_RUN);
      s.missed == 2 && s.installed != [] && s.now - InstalledAt(s) == 180000
  {
    hide Requests;
    hide Answers;
    hide Expired;
    var s0 := Connected(0);
    ConnectedIsSafe(0);
    assert QueuedTimeouts([]) == [] && QueuedWaits([]) == [];
    assert s0.timeouts == [Timeout(1, 5000, false)];
    ReplyIsSafe(s0, 1);
    var s1 := Next(s0, Reply(1));
    assert s0.timeouts[1..] == [];
    assert s1.timeouts == [];
    var a := LosePeriod(s1, LOST_PERIOD + [Advance(50000)]);
    var b := LosePeriod(a, [Advance(50000)]);
    PromptStep(s0, Reply(1), LOST_PERIOD + (LOST_PERIOD + [Advance(50000)]));
    assert [Advance(50000)] + [] == [Advance(50000)];
    PromptStep(b, Advance(50000), []);
    assert b.waits == [b.waits[0]];
  }

  // ---------------------------------------------------------------------------------------
  //  Dirty marks
  // ---------------------------------------------------------------------------------------

  function AnsweredAt(installed: seq<Stamp>, id: int): Option<int> {
    if installed == [] then None
    else if installed[0].id == id then Some(installed[0].at)
    else AnsweredAt(installed[1..], id)
  }

  lemma {:induction false} AnsweredAppend(installed: seq<Stamp>, x: Stamp, id: int)
    ensures AnsweredAt(installed + [x], id)
         == if AnsweredAt(installed, id).Some? then AnsweredAt(installed, id)
            else if x.id == id then Some(x.at) else None
  {
    if installed != [] {
      assert (installed + [x])[1..] == installed[1..] + [x];
      AnsweredAppend(installed[1..], x, id);
    }
  }

  lemma {:induction false} NotAnswered(installed: seq<Stamp>, id: int)
    requires forall x <- installed :: x.id < id
    ensures AnsweredAt(installed, id).None?
  {
    if installed != [] {
      NotAnswered(installed[1..], id);
    }
  }

  function Max(a: int, b: int): int { if a > b then a else b }

  /** A mark set when request `n`, sent at `last`, was the latest: whether that request was in
      flight, and the time of the mark. */
  datatype MarkInfo = MarkInfo(n: nat, last: int, inFlight: bool, at: int)

  function MarkOf(s: Sched): MarkInfo {
    MarkInfo(|s.sent|, s.lastRequestAt, s.inFlight, s.now)
  }

  /** When the request after the mark is due, as far as is known in `s`: with nothing in flight,
      3 s after the last request or at once; otherwise the same counted from the reply, or 65 s
      after the request when no reply came. */
  function DueBy(s: Sched, m: MarkInfo): int {
    if !m.inFlight then Max(m.at, m.last + MIN_REFRESH_GAP)
    else match AnsweredAt(s.installed, m.n)
      case Some(reply) => Max(reply, m.last + MIN_REFRESH_GAP)
      case None => m.last + REQUEST_SPACING
  }

  predicate Kept(s: Sched, m: MarkInfo) {
    && 1 <= m.n <= |s.sent| && s.sent[m.n - 1].at == m.last && m.at <= s.now
    && (|s.sent| > m.n ==> m.at <= s.sent[m.n].at <= DueBy(s, m))
    && (|s.sent| == m.n ==>
          && (!s.inFlight ==> s.timerTarget <= DueBy(s, m))
          && (s.inFlight ==> m.inFlight && s.dirty && AnsweredAt(s.installed, m.n).None?))
  }

  lemma MarkStartsKept(s: Sched)
    requires Inv(s)
    ensures Kept(Next(s, Mark), MarkOf(s))
  {
    MarkIsSafe(s);
    if s.inFlight {
      NotAnswered(s.installed, |s.sent|);
    }
  }

  lemma StepKeepsMark(s: Sched, a: Action, m: MarkInfo)
    requires Inv(s) && Timely(s) && OnTime(s, a) && |Next(s, a).sent| <= INT_MAX
    requires Kept(s, m)
    ensures Kept(Next(s, a), m)
  {
    match a {
      case Advance(ms) =>
      case ExpireTimer(i) =>
      case ExpireTimeout(i) =>
      case RunTimer(i) => RunTimerKeepsMark(s, i, m);
      case RunTimeout(i) => RunTimeoutKeepsMark(s, i, m);
      case Reply(id) => ReplyKeepsMark(s, id, m);
      case Mark => MarkIsSafe(s);
    }
  }

  lemma RunTimeoutKeepsMark(s: Sched, i: nat, m: MarkInfo)
    requires Inv(s) && Timely(s) && Kept(s, m)
    ensures Kept(Next(s, RunTimeout(i)), m)
  {
    if i < |s.timeouts| && s.timeouts[i].queued {
      TimeoutIsSafe(s, i);
      assert s.timeouts[i] in s.timeouts;
    }
  }

  lemma RunTimerKeepsMark(s: Sched, i: nat, m: MarkInfo)
    requires Inv(s) && Timely(s) && |Next(s, RunTimer(i)).sent| <= INT_MAX && Kept(s, m)
    ensures Kept(Next(s, RunTimer(i)), m)
  {
    if i < |s.waits| && s.waits[i].queued {
      assert s.waits[..0] + s.waits[1..] == [];
      assert s.waits[0] in s.waits;
      var r := Next(s, RunTimer(i));
      assert |r.sent| == |s.sent| + 1;
      TimerSends(s);
      assert s.now == s.timerTarget && r.installed == s.installed && r.now == s.now;
      hide Next;
      assert r.sent[m.n - 1] == s.sent[m.n - 1];
      assert |s.sent| > m.n ==> r.sent[m.n] == s.sent[m.n];
    }
  }

  lemma ReplyKeepsMark(s: Sched, id: int32, m: MarkInfo)
    requires Inv(s) && Timely(s) && Kept(s, m)
    ensures Kept(Next(s, Reply(id)), m)
  {
    ReplyIsSafe(s, id);
    if s.inFlight && id == s.refreshSeq {
      AnsweredAppend(s.installed, Stamp(id, s.now), m.n);
      var r := Next(s, Reply(id));
      if |s.sent| == m.n {
        assert r.timerTarget == s.now + GapLeft(s);
      }
    }
  }

  lemma {:induction false} RunKeepsMark(s: Sched, actions: seq<Action>, m: MarkInfo)
    requires Inv(s) && Timely(s) && PromptRun(s, actions) && |Run(s, actions).sent| <= INT_MAX
    requires Kept(s, m)
    ensures Kept(Run(s, actions), m)
    decreases |actions|
  {
    hide Inv;
    hide Timely;
    hide Kept;
    if actions != [] {
      RunGrows(Next(s, actions[0]), actions[1..]);
      StepIsSafe(s, actions[0]);
      StepIsTimely(s, actions[0]);
      StepKeepsMark(s, actions[0], m);
      RunKeepsMark(Next(s, actions[0]), actions[1..], m);
    }
  }

  /** No dirty mark is lost. Mark the listings dirty at any point of an on-time run and let it
      go on for any time: either a request has been sent after the mark and by its due time, or
      that time has not passed. It is due when 3 s have gone by since the last request, but not
      before the mark, nor before the reply if that request was in flight; if no reply came,
      65 s after it. */
  lemma NoMarkIsLost(start: int, before: seq<Action>, after: seq<Action>)
    requires PromptRun(Connected(start), before)
    requires var s := Run(Connected(start), before);
      PromptRun(Next(s, Mark), after) && |Run(Next(s, Mark), after).sent| <= INT_MAX
    ensures var s := Run(Connected(start), before);
      var r := Run(Next(s, Mark), after);
      var n := |s.sent|;
      var gapOver := s.lastRequestAt + 3000;
      var due :=
        if !s.inFlight then if s.now > gapOver then s.now else gapOver
        else match AnsweredAt(r.installed, n)
          case Some(reply) => if reply > gapOver then reply else gapOver
          case None => s.lastRequestAt + 65000;
      && n <= |r.sent|
      && (|r.sent| > n ==> s.now <= r.sent[n].at <= due)
      && (|r.sent| == n ==> r.now <= due)
  {
    var s := Run(Connected(start), before);
    ConnectedIsSafe(start);
    StepGrows(s, Mark);
    RunGrows(Next(s, Mark), after);
    RunIsTimely(Connected(start), before);
    StepIsSafe(s, Mark);
    StepIsTimely(s, Mark);
    MarkStartsKept(s);
    RunKeepsMark(Next(s, Mark), after, MarkOf(s));
    RunIsTimely(Next(s, Mark), after);
    RunIsSafe(Next(s, Mark), after);
    hide Connected;
    hide Next;
    KeptMeansDue(Run(Next(s, Mark), after), MarkOf(s));
  }

  lemma KeptMeansDue(r: Sched, m: MarkInfo)
    requires Inv(r) && Timely(r) && Kept(r, m)
    ensures m.n <= |r.sent|
    ensures |r.sent| > m.n ==> m.at <= r.sent[m.n].at <= DueBy(r, m)
    ensures |r.sent| == m.n ==> r.now <= DueBy(r, m)
  {
  }

  // ---------------------------------------------------------------------------------------
  //  Without marks
  // ---------------------------------------------------------------------------------------

  /** No mark is set, and from request `n` on a minute lies between requests. */
  predicate Calm(s: Sched, n: nat) {
    && !s.dirty && 1 <= n <= |s.sent|
    && (!s.inFlight ==> s.lastRequestAt + 60000 <= s.timerTarget)
    && forall i :: n - 1 <= i < |s.sent| - 1 ==> s.sent[i].at + 60000 <= s.sent[i + 1].at
  }

  lemma StepKeepsCalm(s: Sched, a: Action, n: nat)
    requires Inv(s) && Calm(s, n) && !a.Mark? && |Next(s, a).sent| <= INT_MAX
    ensures Calm(Next(s, a), n)
  {
    match a {
      case Advance(ms) =>
      case ExpireTimer(i) =>
      case ExpireTimeout(i) =>
      case RunTimer(i) => RunTimerKeepsCalm(s, i, n);
      case RunTimeout(i) => if i < |s.timeouts| && s.timeouts[i].queued { TimeoutIsSafe(s, i); }
      case Reply(id) => ReplyIsSafe(s, id);
    }
  }

  lemma RunTimerKeepsCalm(s: Sched, i: nat, n: nat)
    requires Inv(s) && Calm(s, n) && |Next(s, RunTimer(i)).sent| <= INT_MAX
    ensures Calm(Next(s, RunTimer(i)), n)
  {
    if i < |s.waits| && s.waits[i].queued {
      assert s.waits[..0] + s.waits[1..] == [];
      assert s.waits[0] in s.waits;
      var r := Next(s, RunTimer(i));
      assert |r.sent| == |s.sent| + 1;
      TimerSends(s);
      assert s.timerTarget <= s.now && s.sent[|s.sent| - 1].at == s.lastRequestAt;
      hide Next;
      hide Inv;
      assert forall k :: 0 <= k < |s.sent| ==> r.sent[k] == s.sent[k];
    }
  }

  lemma {:induction false} RunKeepsCalm(s: Sched, actions: seq<Action>, n: nat)
    requires Inv(s) && Calm(s, n) && |Run(s, actions).sent| <= INT_MAX
    requires forall i :: 0 <= i < |actions| ==> !actions[i].Mark?
    ensures Calm(Run(s, actions), n)
    decreases |actions|
  {
    hide Inv;
    hide Calm;
    hide Next;
    if actions != [] {
      RunGrows(Next(s, actions[0]), actions[1..]);
      StepIsSafe(s, actions[0]);
      StepKeepsCalm(s, actions[0], n);
      RunKeepsCalm(Next(s, actions[0]), actions[1..], n);
    }
  }

  /** A request answers all marks before it: after any run, from the timer's next request on and
      until the next mark, requests are at least a minute apart. */
  lemma RequestsAnswerMarks(start: int, before: seq<Action>, actions: seq<Action>)
    requires var s := Run(Connected(start), before); s.waits != [] && s.waits[0].queued && |s.sent| < INT_MAX
    requires forall i :: 0 <= i < |actions| ==> !actions[i].Mark?
    requires |Run(Next(Run(Connected(start), before), RunTimer(0)), actions).sent| <= INT_MAX
    ensures var s := Run(Connected(start), before);
      var r := Run(Next(s, RunTimer(0)), actions);
      && |s.sent| < |r.sent|
      && forall i :: |s.sent| <= i < |r.sent| - 1 ==> r.sent[i].at + 60000 <= r.sent[i + 1].at
  {
    var s := Run(Connected(start), before);
    ConnectedIsSafe(start);
    RunIsSafe(Connected(start), before);
    TimerSends(s);
    var t := Next(s, RunTimer(0));
    assert Calm(t, |t.sent|);
    hide Next;
    RunKeepsCalm(t, actions, |t.sent|);
  }
}

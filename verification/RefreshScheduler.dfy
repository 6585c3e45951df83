/** The refresh scheduler of the auction cache as a timed state machine. Times are in
    milliseconds. A wait that was cancelled before it expired only ever runs its handler with
    an error, which returns at once, so it is dropped; one that has expired is queued and can
    no longer be cancelled. */
module RefreshScheduler {
  import opened Machine

  const REFRESH_INTERVAL: int := 60000
  const MIN_REFRESH_GAP: int := 3000
  const REQUEST_TIMEOUT: int := 5000
  const STALE_LIMIT: int := 180000

  datatype Wait = Wait(deadline: int, queued: bool)

  /** A wait on the timeout timer remembers the request it was started for. */
  datatype Timeout = Timeout(id: int32, deadline: int, queued: bool)

  datatype Stamp = Stamp(id: int32, at: int)

  /** The scheduler's fields, the pending waits of its two timers, and what happened so far:
      requests sent, snapshots installed, requests timed out, and how many timed out since the
      last snapshot. */
  datatype Sched = Sched(
    now: int, ready: bool,
    inFlight: bool, refreshSeq: int32, dirty: bool, lastRequestAt: int,
    timerArmed: bool, timerTarget: int,
    waits: seq<Wait>, timeouts: seq<Timeout>,
    sent: seq<Stamp>, installed: seq<Stamp>, timedOut: set<int>, missed: nat)

  // ---------------------------------------------------------------------------------------
  //  The callbacks
  // ---------------------------------------------------------------------------------------

  /** Cancelling a timer leaves the waits that are queued already. */
  function QueuedWaits(waits: seq<Wait>): seq<Wait> {
    if waits == [] then [] else (if waits[0].queued then [waits[0]] else []) + QueuedWaits(waits[1..])
  }

  function QueuedTimeouts(timeouts: seq<Timeout>): seq<Timeout> {
    if timeouts == [] then []
    else (if timeouts[0].queued then [timeouts[0]] else []) + QueuedTimeouts(timeouts[1..])
  }

  function RequestRefresh(s: Sched): Sched {
    if s.inFlight || !s.ready then s
    else
      var id := ToInt32(s.refreshSeq + 1);
      s.(inFlight := true, refreshSeq := id, lastRequestAt := s.now,
         sent := s.sent + [Stamp(id, s.now)],
         timeouts := QueuedTimeouts(s.timeouts) + [Timeout(id, s.now + REQUEST_TIMEOUT, false)])
  }

  function ArmTimer(s: Sched, delay: int): Sched {
    var target := s.now + delay;
    if s.timerArmed && target >= s.timerTarget then s
    else s.(timerArmed := true, timerTarget := target, waits := QueuedWaits(s.waits) + [Wait(target, false)])
  }

  /** What is left of the minimum gap since the last request. */
  function GapLeft(s: Sched): int {
    if s.now - s.lastRequestAt >= MIN_REFRESH_GAP then 0 else MIN_REFRESH_GAP - (s.now - s.lastRequestAt)
  }

  function FinishRefresh(s: Sched, id: int32): Sched {
    var t := s.(installed := s.installed + [Stamp(id, s.now)], missed := 0,
                inFlight := false, timeouts := QueuedTimeouts(s.timeouts));
    if t.dirty then ArmTimer(t.(dirty := false), GapLeft(t)) else ArmTimer(t, REFRESH_INTERVAL)
  }

  function OnRefreshResponse(s: Sched, id: int32): Sched {
    if !s.inFlight || id != s.refreshSeq then s else FinishRefresh(s, id)
  }

  function OnRequestTimeout(s: Sched): Sched {
    var t := s.(inFlight := false, timedOut := s.timedOut + {s.refreshSeq as int}, missed := s.missed + 1);
    ArmTimer(t, REFRESH_INTERVAL)
  }

  function TimeoutHandler(s: Sched, id: int32): Sched {
    if s.inFlight && id == s.refreshSeq then OnRequestTimeout(s) else s
  }

  function MarkDirty(s: Sched): Sched {
    var t := s.(dirty := true);
    if t.inFlight then t else ArmTimer(t, GapLeft(t))
  }

  function OnTimer(s: Sched): Sched {
    var t := RequestRefresh(s.(timerArmed := false, dirty := false));
    if !t.inFlight then ArmTimer(t, REFRESH_INTERVAL) else t
  }

  // ---------------------------------------------------------------------------------------
  //  Runs
  // ---------------------------------------------------------------------------------------

  /** Time passes; a wait whose deadline is reached gets queued; a queued handler runs; a reply
      arrives, with whatever id; or the listings are marked dirty. */
  datatype Action =
    | Advance(ms: nat)
    | ExpireTimer(i: nat)
    | ExpireTimeout(i: nat)
    | RunTimer(i: nat)
    | RunTimeout(i: nat)
    | Reply(id: int32)
    | Mark

  function Next(s: Sched, a: Action): Sched {
    match a
    case Advance(ms) => s.(now := s.now + ms)
    case ExpireTimer(i) =>
      if i < |s.waits| && s.waits[i].deadline <= s.now
      then s.(waits := s.waits[i := s.waits[i].(queued := true)]) else s
    case ExpireTimeout(i) =>
      if i < |s.timeouts| && s.timeouts[i].deadline <= s.now
      then s.(timeouts := s.timeouts[i := s.timeouts[i].(queued := true)]) else s
    case RunTimer(i) =>
      if i < |s.waits| && s.waits[i].queued
      then OnTimer(s.(waits := s.waits[..i] + s.waits[i + 1..])) else s
    case RunTimeout(i) =>
      if i < |s.timeouts| && s.timeouts[i].queued
      then TimeoutHandler(s.(timeouts := s.timeouts[..i] + s.timeouts[i + 1..]), s.timeouts[i].id) else s
    case Reply(id) => OnRefreshResponse(s, id)
    case Mark => MarkDirty(s)
  }

  function Run(s: Sched, actions: seq<Action>): Sched
    decreases |actions|
  {
    if actions == [] then s else Run(Next(s, actions[0]), actions[1..])
  }

  /** The state right after the connection to the auction server is up and the first request is out. */
  function Connected(now: int): Sched {
    RequestRefresh(Sched(now, true, false, 0, false, 0, false, 0, [], [], [], [], {}, 0))
  }

  // ---------------------------------------------------------------------------------------
  //  What every step keeps
  // ---------------------------------------------------------------------------------------

  predicate AllQueued(timeouts: seq<Timeout>) {
    forall t <- timeouts :: t.queued
  }

  predicate WaitingForReply(s: Sched) {
    && s.inFlight && !s.timerArmed && s.waits == []
    && |s.timeouts| > 0
    && var n := |s.timeouts| - 1;
       && s.timeouts[n] == Timeout(s.refreshSeq, s.lastRequestAt + REQUEST_TIMEOUT, s.timeouts[n].queued)
       && AllQueued(s.timeouts[..n])
       && forall t <- s.timeouts[..n] :: t.id < s.refreshSeq
  }

  predicate WaitingForTimer(s: Sched) {
    && !s.inFlight && s.timerArmed
    && |s.waits| == 1 && s.waits[0].deadline == s.timerTarget
    && AllQueued(s.timeouts)
    && forall t <- s.timeouts :: t.id <= s.refreshSeq
  }

  predicate Expired(s: Sched) {
    && (forall w <- s.waits :: w.queued ==> w.deadline <= s.now)
    && (forall t <- s.timeouts :: t.queued ==> t.deadline <= s.now)
  }

  predicate Spaced(sent: seq<Stamp>) {
    forall i :: 0 <= i < |sent| - 1 ==> sent[i].at + MIN_REFRESH_GAP <= sent[i + 1].at
  }

  predicate Requests(s: Sched) {
    && s.ready
    && |s.sent| > 0 && s.refreshSeq == |s.sent|
    && (forall i :: 0 <= i < |s.sent| ==> s.sent[i].id == i + 1)
    && s.lastRequestAt == s.sent[|s.sent| - 1].at && s.lastRequestAt <= s.now
    && Spaced(s.sent)
    && (s.timerArmed ==> s.lastRequestAt + MIN_REFRESH_GAP <= s.timerTarget)
  }

  predicate Answers(s: Sched) {
    && (forall i, j :: 0 <= i < j < |s.installed| ==> s.installed[i].id < s.installed[j].id)
    && (forall x <- s.installed :: 1 <= x.id <= s.refreshSeq && x.id !in s.timedOut && x.at <= s.now)
    && (forall id <- s.timedOut :: id <= s.refreshSeq)
    && (s.inFlight ==> s.refreshSeq !in s.timedOut && forall x <- s.installed :: x.id < s.refreshSeq)
  }

  /** Either a request is in flight with its timeout pending, or the timer is armed with exactly
      one live wait, at its target; never both, never neither. */
  predicate Inv(s: Sched) {
    && (WaitingForReply(s) || WaitingForTimer(s))
    && Expired(s) && Requests(s) && Answers(s)
  }

  lemma {:induction false} AllQueuedStay(timeouts: seq<Timeout>)
    requires AllQueued(timeouts)
    ensures QueuedTimeouts(timeouts) == timeouts
  {
    if timeouts != [] {
      assert timeouts[0] in timeouts;
      AllQueuedStay(timeouts[1..]);
      assert timeouts == [timeouts[0]] + timeouts[1..];
    }
  }

  lemma {:induction false} CancelLeavesQueued(timeouts: seq<Timeout>)
    ensures forall t <- QueuedTimeouts(timeouts) :: t.queued && t in timeouts
  {
    if timeouts != [] {
      CancelLeavesQueued(timeouts[1..]);
    }
  }

  /** Neither a request nor a timer is pending: the moment inside a callback before it sends or arms. */
  predicate Between(s: Sched) {
    && !s.inFlight && !s.timerArmed && s.waits == []
    && AllQueued(s.timeouts) && (forall t <- s.timeouts :: t.id <= s.refreshSeq)
    && Expired(s) && Requests(s) && Answers(s)
  }

  lemma ArmingIsSafe(s: Sched, delay: int)
    requires Between(s) && delay >= 0 && s.lastRequestAt + MIN_REFRESH_GAP <= s.now + delay
    ensures Inv(ArmTimer(s, delay)) && WaitingForTimer(ArmTimer(s, delay))
    ensures ArmTimer(s, delay).timerTarget == s.now + delay
  {
  }

  lemma SendingIsSafe(s: Sched)
    requires Between(s) && s.lastRequestAt + MIN_REFRESH_GAP <= s.now && |s.sent| < INT_MAX
    ensures Inv(RequestRefresh(s)) && WaitingForReply(RequestRefresh(s))
  {
    var r := RequestRefresh(s);
    AllQueuedStay(s.timeouts);
    assert ToInt32(s.refreshSeq + 1) == s.refreshSeq + 1;
    hide QueuedTimeouts;
    SendingExtends(s, r);
    hide Requests;
    hide Answers;
    hide Spaced;
    var n := |r.timeouts| - 1;
    assert r.timeouts[..n] == s.timeouts;
    assert Expired(r) by {
      assert forall t <- r.timeouts :: t in s.timeouts || t == r.timeouts[n];
    }
  }

  lemma SendingExtends(s: Sched, r: Sched)
    requires Requests(s) && Answers(s) && s.lastRequestAt + MIN_REFRESH_GAP <= s.now
    requires !s.inFlight && !s.timerArmed && s.refreshSeq + 1 < 0x8000_0000
    requires r == s.(inFlight := true, refreshSeq := s.refreshSeq + 1, lastRequestAt := s.now,
                     sent := s.sent + [Stamp(s.refreshSeq + 1, s.now)], timeouts := r.timeouts)
    ensures Requests(r) && Answers(r)
  {
    assert forall i :: 0 <= i < |s.sent| ==> r.sent[i] == s.sent[i];
  }

  /** When the timer's handler runs, it always finds nothing in flight, and sends. */
  lemma TimerSends(s: Sched)
    requires Inv(s) && WaitingForTimer(s) && s.waits[0].queued && |s.sent| < INT_MAX
    ensures var r := Next(s, RunTimer(0));
      Inv(r) && WaitingForReply(r) && !r.dirty && r.sent == s.sent + [Stamp(r.refreshSeq, s.now)]
  {
    assert s.waits[0] in s.waits;
    assert s.waits[..0] + s.waits[1..] == [];
    var t := s.(waits := [], timerArmed := false, dirty := false);
    SendingIsSafe(t);
  }

  /** Without a connection nothing is sent, and the timer tries again a minute later. */
  lemma NotReadyRetries(s: Sched)
    requires !s.ready && !s.inFlight
    ensures RequestRefresh(s) == s
    ensures var r := OnTimer(s); r.sent == s.sent && !r.inFlight && r.timerArmed && r.timerTarget == s.now + 60000
  {
  }

  /** A reply installs exactly when its request is in flight, and then arms the timer. */
  lemma ReplyIsSafe(s: Sched, id: int32)
    requires Inv(s)
    ensures var r := Next(s, Reply(id));
      && Inv(r) && r.sent == s.sent
      && (s.inFlight && id == s.refreshSeq ==> WaitingForTimer(r) && r.installed == s.installed + [Stamp(id, s.now)])
      && (!(s.inFlight && id == s.refreshSeq) ==> r == s)
  {
    if s.inFlight && id == s.refreshSeq {
      CancelLeavesQueued(s.timeouts);
      hide QueuedTimeouts;
      var n := |s.timeouts| - 1;
      assert forall t <- s.timeouts :: t in s.timeouts[..n] || t == s.timeouts[n];
      var left := QueuedTimeouts(s.timeouts);
      var t := s.(installed := s.installed + [Stamp(id, s.now)], missed := 0,
                  inFlight := false, timeouts := left, dirty := false);
      InstallingKeepsAnswers(s, t);
      hide Answers;
      assert Requests(t) && t.lastRequestAt <= t.now;
      hide Requests;
      assert Between(t);
      ArmingIsSafe(t, if s.dirty then GapLeft(t) else REFRESH_INTERVAL);
    }
  }

  lemma InstallingKeepsAnswers(s: Sched, t: Sched)
    requires Answers(s) && s.inFlight && s.refreshSeq >= 1 && !t.inFlight
    requires t.installed == s.installed + [Stamp(s.refreshSeq, s.now)]
    requires t.refreshSeq == s.refreshSeq && t.timedOut == s.timedOut && t.now == s.now
    ensures Answers(t)
  {
    var k := |s.installed|;
    forall i, j | 0 <= i < j < |t.installed| ensures t.installed[i].id < t.installed[j].id {
      assert t.installed[i] == s.installed[i] && s.installed[i] in s.installed;
    }
    forall x <- t.installed ensures 1 <= x.id <= t.refreshSeq && x.id !in t.timedOut && x.at <= t.now {
      assert x in s.installed || x == t.installed[k];
    }
  }

  /** A timeout handler of the request in flight gives it up and arms the timer; any other one,
      queued before it was cancelled, changes nothing but its own wait. */
  lemma TimeoutIsSafe(s: Sched, i: nat)
    requires Inv(s) && i < |s.timeouts| && s.timeouts[i].queued
    ensures var r := Next(s, RunTimeout(i));
      && Inv(r) && r.sent == s.sent && r.installed == s.installed
      && (s.inFlight && i == |s.timeouts| - 1 ==>
            && WaitingForTimer(r) && r.timerTarget == s.now + REFRESH_INTERVAL
            && r.timedOut == s.timedOut + {s.refreshSeq as int} && r.dirty == s.dirty && r.missed == s.missed + 1)
      && (!(s.inFlight && i == |s.timeouts| - 1) ==> r == s.(timeouts := s.timeouts[..i] + s.timeouts[i + 1..]))
  {
    var n := |s.timeouts| - 1;
    var rest := s.timeouts[..i] + s.timeouts[i + 1..];
    if s.inFlight && i == n {
      assert rest == s.timeouts[..n];
      assert s.timeouts[n] in s.timeouts && forall t <- rest :: t in s.timeouts;
      GivingUpIsSafe(s, rest);
    } else {
      DroppingStaleIsSafe(s, i, rest);
    }
  }

  lemma GivingUpIsSafe(s: Sched, rest: seq<Timeout>)
    requires Inv(s) && s.inFlight && s.lastRequestAt + REQUEST_TIMEOUT <= s.now
    requires AllQueued(rest) && forall t <- rest :: t in s.timeouts && t.id <= s.refreshSeq
    ensures Inv(OnRequestTimeout(s.(timeouts := rest))) && WaitingForTimer(OnRequestTimeout(s.(timeouts := rest)))
  {
    var t := s.(timeouts := rest, inFlight := false,
                timedOut := s.timedOut + {s.refreshSeq as int}, missed := s.missed + 1);
    assert Requests(t) && t.lastRequestAt <= t.now;
    hide Requests;
    assert Answers(t);
    hide Answers;
    assert Between(t);
    ArmingIsSafe(t, REFRESH_INTERVAL);
  }

  lemma DroppingStaleIsSafe(s: Sched, i: nat, rest: seq<Timeout>)
    requires Inv(s) && i < |s.timeouts| && rest == s.timeouts[..i] + s.timeouts[i + 1..]
    requires s.inFlight ==> i < |s.timeouts| - 1
    ensures Inv(s.(timeouts := rest)) && (s.inFlight ==> s.timeouts[i].id < s.refreshSeq)
  {
    var r := s.(timeouts := rest);
    var n := |s.timeouts| - 1;
    assert Requests(r) && Answers(r);
    hide Requests;
    hide Answers;
    assert forall t <- rest :: t in s.timeouts;
    if s.inFlight {
      assert s.timeouts[i] == s.timeouts[..n][i];
      var front := s.timeouts[..i] + s.timeouts[i + 1..n];
      assert rest[|rest| - 1] == s.timeouts[n] && rest[..|rest| - 1] == front;
      assert forall t <- front :: t in s.timeouts[..n];
    }
  }

  /** Arming an armed timer: a wait is only ever replaced before it has expired. */
  lemma RearmingIsSafe(s: Sched, delay: int)
    requires Inv(s) && WaitingForTimer(s) && delay >= 0 && s.lastRequestAt + MIN_REFRESH_GAP <= s.now + delay
    ensures var r := ArmTimer(s, delay);
      && Inv(r) && WaitingForTimer(r)
      && r.timerTarget == (if s.now + delay < s.timerTarget then s.now + delay else s.timerTarget)
      && (r.waits != s.waits ==> s.now < s.waits[0].deadline && !s.waits[0].queued)
  {
    var w := s.waits[0];
    assert s.waits == [w] && w in s.waits;
    if s.now + delay < s.timerTarget {
      assert !w.queued;
      assert QueuedWaits([w]) == [];
      assert ArmTimer(s, delay).waits == [Wait(s.now + delay, false)];
    }
  }

  /** Marking dirty while idle can only bring the timer forward, and what it replaces is a wait
      that has not expired; while a request is in flight it only sets the flag. */
  lemma MarkIsSafe(s: Sched)
    requires Inv(s)
    ensures var r := Next(s, Mark);
      && Inv(r) && r.sent == s.sent && r.dirty
      && (s.inFlight ==> r == s.(dirty := true))
      && (!s.inFlight ==> WaitingForTimer(r) && r.timerTarget <= s.now + GapLeft(s) && r.timerTarget <= s.timerTarget)
      && (r.waits != s.waits ==> |s.waits| == 1 && s.now < s.waits[0].deadline && !s.waits[0].queued)
  {
    var t := s.(dirty := true);
    assert Inv(t);
    if !s.inFlight {
      hide Inv;
      RearmingIsSafe(t, GapLeft(t));
    }
  }

  lemma ExpireTimerIsSafe(s: Sched, i: nat)
    requires Inv(s)
    ensures Inv(Next(s, ExpireTimer(i)))
  {
    assert forall w <- Next(s, ExpireTimer(i)).waits :: w in s.waits || w.deadline <= s.now;
  }

  lemma ExpireTimeoutIsSafe(s: Sched, i: nat)
    requires Inv(s)
    ensures Inv(Next(s, ExpireTimeout(i)))
  {
    if i < |s.timeouts| && s.timeouts[i].deadline <= s.now {
      var r := Next(s, ExpireTimeout(i));
      var n := |s.timeouts| - 1;
      assert forall t <- r.timeouts :: t in s.timeouts || t == r.timeouts[i];
      if s.inFlight {
        assert forall t <- r.timeouts[..n] :: t in s.timeouts[..n] || (i < n && t == r.timeouts[i]);
        assert i < n ==> s.timeouts[i] in s.timeouts[..n];
      } else {
        assert s.timeouts[i] in s.timeouts;
      }
    }
  }

  lemma AdvanceIsSafe(s: Sched, ms: nat)
    requires Inv(s)
    ensures Inv(Next(s, Advance(ms)))
  {
  }

  lemma RunTimerIsSafe(s: Sched, i: nat)
    requires Inv(s) && |Next(s, RunTimer(i)).sent| <= INT_MAX
    ensures var r := Next(s, RunTimer(i));
      Inv(r) && s.sent <= r.sent && r.installed == s.installed
  {
    hide Answers;
    hide Expired;
    if i < |s.waits| && s.waits[i].queued {
      assert s.waits[..0] + s.waits[1..] == [];
      assert |Next(s, RunTimer(i)).sent| == |s.sent| + 1;
      TimerSends(s);
    }
  }

  /** The invariant over one step, for as long as request ids fit 32 bits. */
  lemma StepIsSafe(s: Sched, a: Action)
    requires Inv(s) && |Next(s, a).sent| <= INT_MAX
    ensures Inv(Next(s, a)) && s.sent <= Next(s, a).sent && s.installed <= Next(s, a).installed
  {
    hide Inv;
    match a {
      case Advance(ms) => AdvanceIsSafe(s, ms);
      case ExpireTimer(i) => ExpireTimerIsSafe(s, i);
      case ExpireTimeout(i) => ExpireTimeoutIsSafe(s, i);
      case RunTimer(i) => RunTimerIsSafe(s, i);
      case RunTimeout(i) =>
        if i < |s.timeouts| && s.timeouts[i].queued {
          TimeoutIsSafe(s, i);
        }
      case Reply(id) => ReplyIsSafe(s, id);
      case Mark => MarkIsSafe(s);
    }
  }
}

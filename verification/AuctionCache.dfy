/** The auction cache object of the game server: the current snapshot and the scheduler state,
    updated by callbacks that all run on the auction thread. */
module AuctionCache {
  import opened Machine
  import opened WireFormat
  import opened ItemMessage
  import opened ListMessage
  import opened AuctionSnapshot
  import S = RefreshScheduler
  import T = RefreshTiming

  class Cache {
    var snapshot: Option<Snapshot>

    var ready: bool
    var inFlight: bool
    var refreshSeq: int32
    var dirty: bool
    var lastRequestAt: int
    var timerArmed: bool
    var timerTarget: int

    /** Pending waits of the two timers. */
    var timer: seq<S.Wait>
    var timeoutTimer: seq<S.Timeout>

    ghost var sent: seq<S.Stamp>
    ghost var installed: seq<S.Stamp>
    ghost var timedOut: set<int>
    ghost var missed: nat

    ghost function View(now: int): S.Sched
      reads this
    {
      S.Sched(now, ready, inFlight, refreshSeq, dirty, lastRequestAt, timerArmed, timerTarget,
              timer, timeoutTimer, sent, installed, timedOut, missed)
    }

    /** The snapshot is the one last installed, and its index fits its items. */
    ghost predicate Valid()
      reads this
    {
      && (snapshot.Some? <==> installed != [])
      && (snapshot.Some? ==> BuiltFrom(snapshot.value, snapshot.value.items))
      && (snapshot.Some? ==> snapshot.value.fetchedAt == installed[|installed| - 1].at)
    }

    constructor ()
      ensures Valid() && snapshot.None?
      ensures forall now :: View(now) == S.Sched(now, false, false, 0, false, 0, false, 0, [], [], [], [], {}, 0)
    {
      snapshot := None;
      ready, inFlight, refreshSeq, dirty, lastRequestAt := false, false, 0, false, 0;
      timerArmed, timerTarget, timer, timeoutTimer := false, 0, [], [];
      sent, installed, timedOut, missed := [], [], {}, 0;
    }

    predicate IsFresh(s: Snapshot, now: int) {
      now - s.fetchedAt < S.STALE_LIMIT
    }

    method RequestRefresh(now: int)
      requires Valid()
      modifies this
      ensures Valid() && snapshot == old(snapshot)
      ensures View(now) == S.RequestRefresh(old(View(now)))
    {
      hide BuiltFrom;
      hide S.QueuedTimeouts;
      if inFlight || !ready { return; }
      inFlight := true;
      refreshSeq := ToInt32(refreshSeq + 1);
      lastRequestAt := now;
      sent := sent + [S.Stamp(refreshSeq, now)];
      timeoutTimer := S.QueuedTimeouts(timeoutTimer) + [S.Timeout(refreshSeq, now + S.REQUEST_TIMEOUT, false)];
    }

    /** A reply is installed only when it answers the request in flight. */
    method OnRefreshResponse(pkt: AuctionList, now: int)
      requires Valid()
      modifies this
      ensures Valid()
      ensures View(now) == S.OnRefreshResponse(old(View(now)), pkt.requestId)
      ensures old(inFlight && pkt.requestId == refreshSeq) ==>
        snapshot.Some? && BuiltFrom(snapshot.value, pkt.listinfo) && snapshot.value.fetchedAt == now
      ensures !old(inFlight && pkt.requestId == refreshSeq) ==> snapshot == old(snapshot)
    {
      if !inFlight || pkt.requestId != refreshSeq { return; }
      FinishRefresh(pkt, now);
    }

    method FinishRefresh(pkt: AuctionList, now: int)
      requires Valid()
      modifies this
      ensures Valid()
      ensures View(now) == S.FinishRefresh(old(View(now)), pkt.requestId)
      ensures snapshot.Some? && BuiltFrom(snapshot.value, pkt.listinfo) && snapshot.value.fetchedAt == now
    {
      hide BuiltFrom;
      hide S.ArmTimer;
      hide S.QueuedTimeouts;
      InstallSnapshot(pkt, now);
      ghost var t := View(now);
      assert S.FinishRefresh(old(View(now)), pkt.requestId)
          == if t.dirty then S.ArmTimer(t.(dirty := false), S.GapLeft(t)) else S.ArmTimer(t, S.REFRESH_INTERVAL);
      hide S.FinishRefresh;
      if dirty {
        dirty := false;
        var elapsed := now - lastRequestAt;
        ArmTimer(if elapsed >= S.MIN_REFRESH_GAP then 0 else S.MIN_REFRESH_GAP - elapsed, now);
      } else {
        ArmTimer(S.REFRESH_INTERVAL, now);
      }
    }

    /** Swaps the snapshot and takes the request off the books. */
    method InstallSnapshot(pkt: AuctionList, now: int)
      requires Valid()
      modifies this
      ensures Valid()
      ensures View(now) == old(View(now)).(
        installed := old(installed) + [S.Stamp(pkt.requestId, now)], missed := 0,
        inFlight := false, timeouts := S.QueuedTimeouts(old(timeoutTimer)))
      ensures snapshot.Some? && BuiltFrom(snapshot.value, pkt.listinfo) && snapshot.value.fetchedAt == now
    {
      hide ClientPacket;
      hide Indexes;
      hide Greatest;
      hide S.QueuedTimeouts;
      var snap := BuildSnapshot(pkt.listinfo, now);
      assert BuiltFrom(snap, snap.items);
      hide BuiltFrom;
      snapshot := Some(snap);
      installed, missed := installed + [S.Stamp(pkt.requestId, now)], 0;
      inFlight := false;
      timeoutTimer := S.QueuedTimeouts(timeoutTimer);
    }

    /** The timeout timer's handler for request `seqNo`; `error` when its wait was cancelled. */
    method OnTimeout(error: bool, seqNo: int32, now: int)
      requires Valid()
      modifies this
      ensures Valid() && snapshot == old(snapshot)
      ensures View(now) == if error then old(View(now)) else S.TimeoutHandler(old(View(now)), seqNo)
    {
      if error { return; }
      if inFlight && seqNo == refreshSeq {
        OnRequestTimeout(now);
      }
    }

    method OnRequestTimeout(now: int)
      requires Valid()
      modifies this
      ensures Valid() && snapshot == old(snapshot)
      ensures View(now) == S.OnRequestTimeout(old(View(now)))
    {
      hide BuiltFrom;
      hide S.ArmTimer;
      timedOut, missed := timedOut + {refreshSeq as int}, missed + 1;
      inFlight := false;
      ArmTimer(S.REFRESH_INTERVAL, now);
    }

    method MarkDirty(now: int)
      requires Valid()
      modifies this
      ensures Valid() && snapshot == old(snapshot)
      ensures View(now) == S.MarkDirty(old(View(now)))
    {
      hide BuiltFrom;
      hide S.ArmTimer;
      dirty := true;
      if inFlight { return; }
      var elapsed := now - lastRequestAt;
      ArmTimer(if elapsed >= S.MIN_REFRESH_GAP then 0 else S.MIN_REFRESH_GAP - elapsed, now);
    }

    method ArmTimer(delay: int, now: int)
      requires Valid()
      modifies this
      ensures Valid() && snapshot == old(snapshot)
      ensures View(now) == S.ArmTimer(old(View(now)), delay)
    {
      hide BuiltFrom;
      hide S.QueuedWaits;
      var target := now + delay;
      if timerArmed && target >= timerTarget { return; }
      timerArmed := true;
      timerTarget := target;
      timer := S.QueuedWaits(timer) + [S.Wait(target, false)];
    }

    /** The refresh timer's handler; `error` when its wait was cancelled. */
    method OnTimer(error: bool, now: int)
      requires Valid()
      modifies this
      ensures Valid() && snapshot == old(snapshot)
      ensures View(now) == if error then old(View(now)) else S.OnTimer(old(View(now)))
    {
      if error { return; }
      timerArmed := false;
      dirty := false;
      RequestRefresh(now);
      if !inFlight {
        ArmTimer(S.REFRESH_INTERVAL, now);
      }
    }

    /** The prepared list packet of a snapshot less than three minutes old, and nothing else.
        On time and with at most one timed-out request there is such a snapshot. */
    method TrySendList(now: int) returns (packet: Option<Bytes>)
      requires Valid()
      ensures packet ==
        if snapshot.Some? && now - snapshot.value.fetchedAt < 180000 then ClientPacket(snapshot.value.items) else None
      ensures T.OnTimeState(View(now)) && installed != [] && missed <= 1 ==>
        snapshot.Some? && packet == ClientPacket(snapshot.value.items)
      ensures View(now) == S.Run(S.Connected(0), T.STALE_RUN) ==> packet == None
    {
      Ages(now);
      hide BuiltFrom;
      if snapshot.None? || snapshot.value.listPacket.None? || !IsFresh(snapshot.value, now) { return None; }
      return snapshot.value.listPacket;
    }

    /** Nothing is refused without a snapshot less than three minutes old; with one, the verdict
        is that of scanning its list. On time and with at most one timed-out request there is one. */
    method ValidatePurchase(listId: int64, count: int64, buyerId: int64, now: int) returns (verdict: Verdict)
      requires Valid()
      ensures verdict == if snapshot.Some? && now - snapshot.value.fetchedAt < 180000
                         then ScanVerdict(snapshot.value.items, listId, count, buyerId) else Unknown
      ensures T.OnTimeState(View(now)) && installed != [] && missed <= 1 ==>
        snapshot.Some? && verdict == ScanVerdict(snapshot.value.items, listId, count, buyerId)
      ensures View(now) == S.Run(S.Connected(0), T.STALE_RUN) ==> verdict == Unknown
    {
      Ages(now);
      if snapshot.None? || !IsFresh(snapshot.value, now) { return Unknown; }
      var snap := snapshot.value;
      IndexRefinesScan(snap, snap.items, listId, count, buyerId);
      if listId !in snap.index {
        if listId > snap.maxListId { return Unknown; }
        return RejectNotFound;
      }
      var item := snap.items[snap.index[listId]];
      if count <= 0 || count > item.count { return RejectShortage; }
      if item.playerId == buyerId { return RejectOwn; }
      return Pass;
    }

    /** How old the snapshot is after a run that was on time, and after the one with two
        timeouts in a row. */
    lemma Ages(now: int)
      requires Valid()
      ensures T.OnTimeState(View(now)) && installed != [] && missed <= 1 ==>
        snapshot.Some? && now - snapshot.value.fetchedAt <= 130000
      ensures View(now) == S.Run(S.Connected(0), T.STALE_RUN) ==>
        snapshot.Some? && now - snapshot.value.fetchedAt == 180000
    {
      hide BuiltFrom;
      if T.OnTimeState(View(now)) && installed != [] && missed <= 1 { T.OnTimeStateIsFresh(View(now)); }
      if View(now) == S.Run(S.Connected(0), T.STALE_RUN) { T.TwoTimeoutsGoStale(); }
    }
  }

  /** The client's purchase request: nothing without an entry; a refusal is answered on the
      spot; anything else is forwarded unchanged under the session's id when there is a
      connection. */
  method HandlePurchase(cache: Cache, sessionId: uint64, purchaseinfo: seq<AuctionItemInfo>, connected: bool, now: int)
    returns (handled: bool, refused: bool, forwarded: Option<(int64, AuctionItemInfo)>)
    requires cache.Valid()
    ensures handled <==> purchaseinfo != []
    ensures refused <==>
      && handled && cache.snapshot.Some? && now - cache.snapshot.value.fetchedAt < 180000
      && Rejects(ScanVerdict(cache.snapshot.value.items, purchaseinfo[0].listId,
                             purchaseinfo[0].count, purchaseinfo[0].playerId))
    ensures forwarded == if handled && !refused && connected then Some((ToInt64(sessionId), purchaseinfo[0])) else None
  {
    if purchaseinfo == [] { return false, false, None; }
    var info := purchaseinfo[0];
    var verdict := cache.ValidatePurchase(info.listId, info.count, info.playerId, now);
    if verdict != Pass && verdict != Unknown { return true, true, None; }
    if !connected { return true, false, None; }
    return true, false, Some((ToInt64(sessionId), info));
  }
}

/** Registration, listing queries, and the purchase transaction with its retries. */
module AuctionService {
  import opened Machine
  import opened WireFormat
  import opened ItemMessage
  import opened AuctionTables

  const MAX_TX_ATTEMPTS: nat := 3
  const ERR_LOCK_WAIT_TIMEOUT: int := 1205
  const ERR_DEADLOCK: int := 1213
  /** The code carried by the exceptions the service raises itself. */
  const ERR_OWN: int := 0

  predicate Retryable(code: int) {
    code == ERR_DEADLOCK || code == ERR_LOCK_WAIT_TIMEOUT
  }

  // ---------------------------------------------------------------------------------------
  //  State and faults
  // ---------------------------------------------------------------------------------------

  /** What a connection sees, what a rollback restores, and the counters outside of both. An
      auto-increment value handed out is gone, rollback or not. */
  datatype Session = Session(tables: Tables, durable: Tables, nextListing: int, autoCommit: bool)

  datatype Statement =
    | BeginWork | SelectListing | PayGold | TakeItems | LogTransaction | LogReceipts | CommitWork
    | RestoreAutoCommit

  /** One attempt's surroundings: the clock, and for each statement the error code it throws. */
  datatype Env = Env(now: int, fault: Statement -> Option<int>)

  predicate NoFault(env: Env) {
    && env.fault(BeginWork).None? && env.fault(SelectListing).None? && env.fault(PayGold).None?
    && env.fault(TakeItems).None? && env.fault(LogTransaction).None? && env.fault(LogReceipts).None?
    && env.fault(CommitWork).None?
  }

  // ---------------------------------------------------------------------------------------
  //  One purchase, declaratively
  // ---------------------------------------------------------------------------------------

  /** What a purchase asks for. */
  function Asking(listId: int64, count: int64, buyerId: int64): AuctionItemInfo {
    DEFAULT_ITEM.(listId := listId, count := count, playerId := buyerId)
  }

  /** The amount asked for: a 64-bit product. */
  function Total(t: Tables, info: AuctionItemInfo): int64
    requires info.listId in t.listings
  {
    ToInt64(t.listings[info.listId].price * info.count)
  }

  /** The stock as a purchase reads it, through a 32-bit getter. */
  function ReadStock(t: Tables, info: AuctionItemInfo): int32
    requires info.listId in t.listings
  {
    ToInt32(t.listings[info.listId].remaining)
  }

  /** The purchase can go through at time `now`. */
  predicate Buyable(t: Tables, info: AuctionItemInfo, now: int, foundRows: bool) {
    && info.count > 0
    && Unexpired(t, info.listId, now)
    && t.listings[info.listId].sellerId != info.playerId
    && DebitCount(t.characters, info.playerId, Total(t, info), foundRows) > 0
    && (ReadStock(t, info) == info.count || t.listings[info.listId].remaining > info.count)
  }

  /** The tables after exactly one purchase. */
  function Bought(t: Tables, info: AuctionItemInfo): Tables
    requires info.listId in t.listings && info.count > 0
  {
    var row := t.listings[info.listId];
    var total := Total(t, info);
    Tables(
      TakeStock(t.listings, ReadStock(t, info), info.listId, info.count),
      DebitGold(t.characters, info.playerId, total),
      t.transactions + [Transaction(ToInt32(row.itemId), info.count, total)],
      t.receipts + [BuyerReceipt(info.playerId, ToInt32(row.itemId), info.count, info.listId),
                    SellerReceipt(row.sellerId, total, info.listId)])
  }

  // ---------------------------------------------------------------------------------------
  //  One attempt: where it stops first
  // ---------------------------------------------------------------------------------------

  /** The first failure met in statement order, injected or raised by the service; None when
      the attempt commits. */
  function Failure(t: Tables, info: AuctionItemInfo, env: Env, foundRows: bool): Option<int> {
    if env.fault(BeginWork).Some? then env.fault(BeginWork)
    else if info.count <= 0 then Some(ERR_OWN)
    else if env.fault(SelectListing).Some? then env.fault(SelectListing)
    else if !Unexpired(t, info.listId, env.now) then Some(ERR_OWN)
    else if t.listings[info.listId].sellerId == info.playerId then Some(ERR_OWN)
    else if env.fault(PayGold).Some? then env.fault(PayGold)
    else if DebitCount(t.characters, info.playerId, Total(t, info), foundRows) == 0 then Some(ERR_OWN)
    else if env.fault(TakeItems).Some? then env.fault(TakeItems)
    else if TakeCount(t.listings, ReadStock(t, info), info.listId, info.count) == 0 then Some(ERR_OWN)
    else if env.fault(LogTransaction).Some? then env.fault(LogTransaction)
    else if env.fault(LogReceipts).Some? then env.fault(LogReceipts)
    else env.fault(CommitWork)
  }

  /** The amount an attempt leaves behind in the result, also when it fails after computing it. */
  function Quoted(t: Tables, info: AuctionItemInfo, env: Env): int64 {
    if env.fault(BeginWork).None? && info.count > 0
       && env.fault(SelectListing).None? && Unexpired(t, info.listId, env.now)
    then Total(t, info) else 0
  }

  /** An attempt commits exactly when the purchase is possible and no statement fails. */
  lemma CommitsExactlyWhen(t: Tables, info: AuctionItemInfo, env: Env, foundRows: bool)
    ensures Failure(t, info, env, foundRows).None? <==> Buyable(t, info, env.now, foundRows) && NoFault(env)
    ensures Failure(t, info, env, foundRows).None? ==> Quoted(t, info, env) == Total(t, info)
  {
  }

  // ---------------------------------------------------------------------------------------
  //  Up to three attempts
  // ---------------------------------------------------------------------------------------

  datatype Outcome = Outcome(success: bool, totalPrice: int64, attempts: nat, after: Session)

  function AutoCommitAfter(was: bool, env: Env): bool {
    env.fault(RestoreAutoCommit).None? || (was && env.fault(BeginWork).Some?)
  }

  /** Attempts number `k` and, after a rollback, any retry. */
  function Attempts(s: Session, info: AuctionItemInfo, envs: nat -> Env, k: nat, foundRows: bool): Outcome
    requires 1 <= k <= MAX_TX_ATTEMPTS
    decreases MAX_TX_ATTEMPTS - k
  {
    var autoCommit := AutoCommitAfter(s.autoCommit, envs(k));
    match Failure(s.tables, info, envs(k), foundRows)
    case None =>
      CommitsExactlyWhen(s.tables, info, envs(k), foundRows);
      var t := Bought(s.tables, info);
      Outcome(true, Quoted(s.tables, info, envs(k)), k, Session(t, t, s.nextListing, autoCommit))
    case Some(code) =>
      var back := Session(s.durable, s.durable, s.nextListing, autoCommit);
      if Retryable(code) && k < MAX_TX_ATTEMPTS then Attempts(back, info, envs, k + 1, foundRows)
      else Outcome(false, Quoted(s.tables, info, envs(k)), k, back)
  }

  function PurchaseOutcome(s: Session, info: AuctionItemInfo, envs: nat -> Env, foundRows: bool): Outcome {
    Attempts(s, info, envs, 1, foundRows)
  }

  /** What attempt `j` works on: a rollback lies between the first attempt and any other. */
  function WorkedOn(s: Session, k: nat, j: nat): Tables {
    if j == k then s.tables else s.durable
  }

  /** Lock wait timeout and deadlock. */
  predicate LockError(code: Option<int>) {
    code == Some(1205) || code == Some(1213)
  }

  lemma {:induction false} AttemptsTrace(s: Session, info: AuctionItemInfo, envs: nat -> Env, k: nat, foundRows: bool)
    requires 1 <= k <= 3
    ensures var o := Attempts(s, info, envs, k, foundRows);
      && k <= o.attempts <= 3
      && (forall j :: k <= j < o.attempts ==> LockError(Failure(WorkedOn(s, k, j), info, envs(j), foundRows)))
      && var last := Failure(WorkedOn(s, k, o.attempts), info, envs(o.attempts), foundRows);
         && o.success == last.None?
         && (last.Some? ==> o.attempts == 3 || !LockError(last))
         && o.totalPrice == Quoted(WorkedOn(s, k, o.attempts), info, envs(o.attempts))
         && o.after.nextListing == s.nextListing
         && (!o.success ==> o.after.tables == o.after.durable == s.durable)
         && (o.success ==>
              && Buyable(WorkedOn(s, k, o.attempts), info, envs(o.attempts).now, foundRows)
              && NoFault(envs(o.attempts))
              && o.after.tables == o.after.durable == Bought(WorkedOn(s, k, o.attempts), info))
    decreases 3 - k
  {
    CommitsExactlyWhen(s.tables, info, envs(k), foundRows);
    var f := Failure(s.tables, info, envs(k), foundRows);
    if f.Some? && Retryable(f.value) && k < 3 {
      var back := Session(s.durable, s.durable, s.nextListing, AutoCommitAfter(s.autoCommit, envs(k)));
      AttemptsTrace(back, info, envs, k + 1, foundRows);
      assert forall j :: k < j ==> WorkedOn(back, k + 1, j) == WorkedOn(s, k, j);
    }
  }

  /** All or nothing, at most once: whatever fails at whatever statement of whatever attempt,
      either nothing happened, or exactly one purchase has been committed and `totalPrice` is
      what it cost. At most three attempts run, and only the two lock errors are retried. */
  lemma AllOrNothing(s: Session, info: AuctionItemInfo, envs: nat -> Env, foundRows: bool)
    requires s.tables == s.durable
    ensures var o := PurchaseOutcome(s, info, envs, foundRows);
      && 1 <= o.attempts <= 3
      && (forall j :: 1 <= j < o.attempts ==> LockError(Failure(s.tables, info, envs(j), foundRows)))
      && o.after.tables == o.after.durable
      && (!o.success ==> o.after.tables == s.tables)
      && (o.success ==>
           && Buyable(s.tables, info, envs(o.attempts).now, foundRows)
           && o.after.tables == Bought(s.tables, info)
           && o.totalPrice == Total(s.tables, info))
  {
    AttemptsTrace(s, info, envs, 1, foundRows);
    var o := PurchaseOutcome(s, info, envs, foundRows);
    assert forall j :: WorkedOn(s, 1, j) == s.tables;
    CommitsExactlyWhen(s.tables, info, envs(o.attempts), foundRows);
  }

  /** When a purchase succeeds: some attempt among the first three meets no fault and finds the
      purchase possible, and every attempt before it died of a lock error. */
  lemma SucceedsExactlyWhen(s: Session, info: AuctionItemInfo, envs: nat -> Env, foundRows: bool)
    ensures PurchaseOutcome(s, info, envs, foundRows).success <==>
      exists k :: 1 <= k <= 3
        && Buyable(WorkedOn(s, 1, k), info, envs(k).now, foundRows) && NoFault(envs(k))
        && forall j :: 1 <= j < k ==> LockError(Failure(WorkedOn(s, 1, j), info, envs(j), foundRows))
  {
    AttemptsTrace(s, info, envs, 1, foundRows);
    forall k | 1 <= k <= 3
      ensures Failure(WorkedOn(s, 1, k), info, envs(k), foundRows).None?
         <==> Buyable(WorkedOn(s, 1, k), info, envs(k).now, foundRows) && NoFault(envs(k))
    {
      CommitsExactlyWhen(WorkedOn(s, 1, k), info, envs(k), foundRows);
    }
  }

  /** What the service refuses by itself is not retried: without faults, a purchase that is not
      possible fails after one attempt. */
  lemma ImpossibleFailsAtOnce(s: Session, info: AuctionItemInfo, envs: nat -> Env, foundRows: bool)
    requires NoFault(envs(1)) && !Buyable(s.tables, info, envs(1).now, foundRows)
    ensures var o := PurchaseOutcome(s, info, envs, foundRows); !o.success && o.attempts == 1
  {
    CommitsExactlyWhen(s.tables, info, envs(1), foundRows);
  }

  /** A failed purchase still reports an amount once the listing was read: the buyer of his own
      listing, or one who cannot pay, is told what it would have cost; without the listing, 0. */
  lemma FailureReportsPrice(s: Session, info: AuctionItemInfo, envs: nat -> Env, foundRows: bool)
    requires NoFault(envs(1)) && !Buyable(s.tables, info, envs(1).now, foundRows)
    ensures var o := PurchaseOutcome(s, info, envs, foundRows);
      var read := info.count > 0 && info.listId in s.tables.listings
                  && s.tables.listings[info.listId].expiresAt > envs(1).now;
      && (!read ==> o.totalPrice == 0)
      && (read ==> var cost := s.tables.listings[info.listId].price * info.count;
                   -TWO_63 <= cost < TWO_63 ==> o.totalPrice == cost)
  {
    ImpossibleFailsAtOnce(s, info, envs, foundRows);
  }

  // ---------------------------------------------------------------------------------------
  //  Autocommit
  // ---------------------------------------------------------------------------------------

  /** The last moment autocommit was switched on is `k`, 0 standing for before the purchase:
      from then on no attempt got as far as switching it off. */
  predicate SwitchedOnLast(was: bool, envs: nat -> Env, attempts: nat, k: nat) {
    && k <= attempts
    && (if k == 0 then was else envs(k).fault(RestoreAutoCommit).None?)
    && forall j :: k < j <= attempts ==> envs(j).fault(BeginWork).Some?
  }

  lemma {:induction false} AutoCommitTrace(s: Session, info: AuctionItemInfo, envs: nat -> Env, k: nat, foundRows: bool)
    requires 1 <= k <= 3
    ensures var o := Attempts(s, info, envs, k, foundRows);
      o.after.autoCommit <==>
        || (s.autoCommit && forall j :: k <= j <= o.attempts ==> envs(j).fault(BeginWork).Some?)
        || (exists i :: k <= i <= o.attempts && envs(i).fault(RestoreAutoCommit).None?
              && forall j :: i < j <= o.attempts ==> envs(j).fault(BeginWork).Some?)
    decreases 3 - k
  {
    AttemptsTrace(s, info, envs, k, foundRows);
    var f := Failure(s.tables, info, envs(k), foundRows);
    if f.Some? && Retryable(f.value) && k < 3 {
      var back := Session(s.durable, s.durable, s.nextListing, AutoCommitAfter(s.autoCommit, envs(k)));
      AutoCommitTrace(back, info, envs, k + 1, foundRows);
      AttemptsTrace(back, info, envs, k + 1, foundRows);
    }
  }

  /** Every purchase, failed or not, leaves autocommit on if the last restore worked, and
      otherwise exactly if it had been on before and no later attempt switched it off. */
  lemma AutoCommitIsRestored(s: Session, info: AuctionItemInfo, envs: nat -> Env, foundRows: bool)
    ensures var o := PurchaseOutcome(s, info, envs, foundRows);
      && (envs(o.attempts).fault(RestoreAutoCommit).None? ==> o.after.autoCommit)
      && (o.after.autoCommit <==> exists k :: SwitchedOnLast(s.autoCommit, envs, o.attempts, k))
  {
    AutoCommitTrace(s, info, envs, 1, foundRows);
    AttemptsTrace(s, info, envs, 1, foundRows);
    var o := PurchaseOutcome(s, info, envs, foundRows);
    if envs(o.attempts).fault(RestoreAutoCommit).None? {
      assert SwitchedOnLast(s.autoCommit, envs, o.attempts, o.attempts);
    }
    if o.after.autoCommit {
      if s.autoCommit && forall j :: 1 <= j <= o.attempts ==> envs(j).fault(BeginWork).Some? {
        assert SwitchedOnLast(s.autoCommit, envs, o.attempts, 0);
      } else {
        var i :| 1 <= i <= o.attempts && envs(i).fault(RestoreAutoCommit).None?
                 && forall j :: i < j <= o.attempts ==> envs(j).fault(BeginWork).Some?;
        assert SwitchedOnLast(s.autoCommit, envs, o.attempts, i);
      }
    }
  }

  // ---------------------------------------------------------------------------------------
  //  Registration
  // ---------------------------------------------------------------------------------------

  function ListingFor(info: AuctionItemInfo, now: int): Listing {
    Listing(info.playerId, info.itemId, info.count, info.price,
            now + 3600 * (if info.expiredAt == [50, 52] then 24 else 48))
  }

  /** An INSERT takes effect at once, and for good only with autocommit on. */
  function Registered(s: Session, row: Listing): Session {
    var t := s.tables.(listings := s.tables.listings[s.nextListing := row]);
    s.(tables := t, durable := if s.autoCommit then t else s.durable, nextListing := s.nextListing + 1)
  }

  /** A restore of autocommit that throws is only logged, and the next registration on that
      connection stays open: it outlives a purchase that starts with a failing attempt exactly
      when autocommit had been restored. */
  lemma RegistrationOutlivesFailedPurchase(s: Session, row: Listing, info: AuctionItemInfo, envs: nat -> Env,
                                           foundRows: bool)
    requires s.tables == s.durable && s.nextListing !in s.tables.listings
    requires var o := PurchaseOutcome(Registered(s, row), info, envs, foundRows); !o.success
    ensures var o := PurchaseOutcome(Registered(s, row), info, envs, foundRows);
      s.nextListing in o.after.tables.listings <==> s.autoCommit
  {
    AttemptsTrace(Registered(s, row), info, envs, 1, foundRows);
  }

  // ---------------------------------------------------------------------------------------
  //  The service on one connection
  // ---------------------------------------------------------------------------------------

  class Connection {
    var listings: map<int, Listing>
    var characters: seq<Character>
    var transactions: seq<Transaction>
    var receipts: seq<Receipt>
    var nextListing: int
    var autoCommit: bool
    /** What a rollback restores. */
    var durable: Tables
    /** Whether updates report matched rows. */
    const foundRows: bool

    function Current(): Tables
      reads this
    {
      Tables(listings, characters, transactions, receipts)
    }

    function View(): Session
      reads this
    {
      Session(Current(), durable, nextListing, autoCommit)
    }

    constructor (t: Tables, next: int, foundRows: bool)
      ensures View() == Session(t, t, next, true) && this.foundRows == foundRows
    {
      listings, characters, transactions, receipts := t.listings, t.characters, t.transactions, t.receipts;
      nextListing, autoCommit, durable := next, true, t;
      this.foundRows := foundRows;
    }

    method Rollback()
      modifies this
      ensures View() == old(View()).(tables := durable)
    {
      listings, characters := durable.listings, durable.characters;
      transactions, receipts := durable.transactions, durable.receipts;
    }

    method Commit()
      modifies this
      ensures View() == old(View()).(durable := Current())
    {
      durable := Current();
    }

    /** The public list, or the seller's own listings. */
    method GetListings(mine: bool, playerId: int32, now: int, show: int -> Bytes) returns (out: seq<AuctionItemInfo>)
      ensures out == Items(Current(), ListingIds(Current(), mine, playerId, now), show)
    {
      hide ListingIds;
      hide Items;
      ghost var t := Current();
      var rows := ListingIds(Current(), mine, playerId, now);
      assert forall id <- rows :: Unexpired(t, id, now);
      ghost var all := Items(t, rows, show);
      hide *;
      out := [];
      var i := 0;
      while i < |rows|
        invariant 0 <= i <= |rows| == |all|
        invariant forall k :: 0 <= k < |rows| ==>
                    rows[k] in listings && all[k] == ItemOf(rows[k], listings[rows[k]], show)
        invariant out == all[..i]
      {
        out := out + [ItemOf(rows[i], listings[rows[i]], show)];
        i := i + 1;
      }
    }

    /** False or an exception means nothing was inserted. */
    method Regist(info: AuctionItemInfo, now: int, fault: Option<int>) returns (ok: bool, thrown: Option<int>)
      modifies this
      ensures thrown == fault && ok == fault.None?
      ensures View() == if ok then Registered(old(View()), ListingFor(info, now)) else old(View())
    {
      if fault.Some? { return false, fault; }
      var hours := if info.expiredAt == [50, 52] then 24 else 48;
      var row := Listing(info.playerId, info.itemId, info.count, info.price, now + 3600 * hours);
      listings := listings[nextListing := row];
      nextListing := nextListing + 1;
      if autoCommit { durable := Current(); }
      return true, None;
    }

    /** One attempt. `thrown` is the code of the exception, if any. */
    method TryPurchase(info: AuctionItemInfo, env: Env) returns (thrown: Option<int>, totalPrice: int64)
      modifies this
      ensures thrown == Failure(old(Current()), info, env, foundRows)
      ensures totalPrice == Quoted(old(Current()), info, env)
      ensures nextListing == old(nextListing)
      ensures autoCommit == (old(autoCommit) && env.fault(BeginWork).Some?)
      ensures thrown.Some? ==> durable == old(durable)
      ensures thrown.None? ==> Buyable(old(Current()), info, env.now, foundRows)
      ensures thrown.None? ==> Current() == durable == Bought(old(Current()), info)
    {
      totalPrice := 0;
      CommitsExactlyWhen(Current(), info, env, foundRows);

      if env.fault(BeginWork).Some? { return env.fault(BeginWork), totalPrice; }
      autoCommit := false;
      if info.count <= 0 { return Some(ERR_OWN), totalPrice; }

      if env.fault(SelectListing).Some? { return env.fault(SelectListing), totalPrice; }
      if !(info.listId in listings && listings[info.listId].expiresAt > env.now) { return Some(ERR_OWN), totalPrice; }
      var row := listings[info.listId];
      var remaining := ToInt32(row.remaining);
      totalPrice := ToInt64(row.price * info.count);
      if row.sellerId == info.playerId { return Some(ERR_OWN), totalPrice; }

      if env.fault(PayGold).Some? { return env.fault(PayGold), totalPrice; }
      var paid := DebitCount(characters, info.playerId, totalPrice, foundRows);
      characters := DebitGold(characters, info.playerId, totalPrice);
      if paid == 0 { return Some(ERR_OWN), totalPrice; }

      if env.fault(TakeItems).Some? { return env.fault(TakeItems), totalPrice; }
      var taken := TakeCount(listings, remaining, info.listId, info.count);
      listings := TakeStock(listings, remaining, info.listId, info.count);
      if taken == 0 { return Some(ERR_OWN), totalPrice; }

      if env.fault(LogTransaction).Some? { return env.fault(LogTransaction), totalPrice; }
      transactions := transactions + [Transaction(ToInt32(row.itemId), info.count, totalPrice)];
      if env.fault(LogReceipts).Some? { return env.fault(LogReceipts), totalPrice; }
      receipts := receipts + [BuyerReceipt(info.playerId, ToInt32(row.itemId), info.count, info.listId),
                              SellerReceipt(row.sellerId, totalPrice, info.listId)];

      if env.fault(CommitWork).Some? { return env.fault(CommitWork), totalPrice; }
      Commit();
      return None, totalPrice;
    }

    method Purchase(info: AuctionItemInfo, envs: nat -> Env) returns (success: bool, totalPrice: int64)
      modifies this
      ensures var o := PurchaseOutcome(old(View()), info, envs, foundRows);
        success == o.success && totalPrice == o.totalPrice && View() == o.after
    {
      hide Failure;
      hide Quoted;
      hide Buyable;
      hide Bought;
      success, totalPrice := false, 0;
      var attempt := 1;
      while attempt <= MAX_TX_ATTEMPTS
        invariant 1 <= attempt <= MAX_TX_ATTEMPTS
        invariant Attempts(View(), info, envs, attempt, foundRows)
               == PurchaseOutcome(old(View()), info, envs, foundRows)
        decreases MAX_TX_ATTEMPTS - attempt
      {
        var retry := false;
        var thrown, quoted := TryPurchase(info, envs(attempt));
        success := thrown.None?;
        if thrown.Some? {
          Rollback();
          retry := Retryable(thrown.value) && attempt < MAX_TX_ATTEMPTS;
        }
        totalPrice := quoted;
        if envs(attempt).fault(RestoreAutoCommit).None? {
          autoCommit := true;
        }
        if !retry { return; }
        attempt := attempt + 1;
      }
    }
  }
}

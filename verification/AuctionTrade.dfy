/** A listing from its registration to its sale: what was asked for is what is shown, and what
    is shown is what is sold. */
module AuctionTrade {
  import opened Machine
  import opened WireFormat
  import opened ItemMessage
  import opened AuctionTables
  import opened AuctionService
  import opened AuctionRuns
  import opened AuctionLedgers

  /** 24 hours for the text "24", 48 for any other. */
  function Expiry(info: AuctionItemInfo, now: int): int {
    now + if info.expiredAt == [50, 52] then 86400 else 172800
  }

  /** The row of a registration as it was asked for, whatever has been sold of it. */
  predicate AsRegistered(row: Listing, info: AuctionItemInfo, now: int) {
    && row.sellerId == info.playerId && row.itemId == info.itemId && row.price == info.price
    && row.expiresAt == Expiry(info, now)
    && (row.remaining == info.count || 0 < row.remaining < info.count)
  }

  /** Over every run after it, a registered listing stays as registered wherever it is found. */
  lemma StaysAsRegistered(d: Database, e: Event, events: seq<Event>, row: Listing)
    requires Proper(d) && e.Registration? && e.conn < |d.conns| && e.fault.None?
    requires Occurs(Run(Next(d, e), events), d.nextListing, row)
    ensures AsRegistered(row, e.info, e.now)
  {
    var id, r := d.nextListing, Next(d, e);
    RegistrationStep(d, e);
    StepIsProper(d, e);
    var before := RunShrinks(r, events, id, row);
    hide Next;
    assert d.conns[e.conn] in d.conns;
    if !(id in r.tables.listings && r.tables.listings[id] == before) {
      var c :| c in r.conns && id in c.open && c.open[id] == before;
      assert c in d.conns || c == r.conns[e.conn];
    }
  }

  /** A listing registered under autocommit is on sale for 24 or 48 hours exactly. */
  lemma OnSaleExactlyUntilExpiry(d: Database, e: Event, time: int)
    requires Proper(d) && e.Registration? && e.conn < |d.conns| && e.fault.None? && d.conns[e.conn].autoCommit
    ensures Unexpired(Next(d, e).tables, d.nextListing, time)
       <==> time < e.now + if e.info.expiredAt == [50, 52] then 24 * 3600 else 48 * 3600
  {
    RegistrationStep(d, e);
  }

  /** As long as it is on sale, the seller's own list shows a committed listing as registered,
      for values that fit the list's 32 bits. */
  lemma ShownAsRegistered(d: Database, e: Event, events: seq<Event>, time: int, show: int -> Bytes)
    returns (i: nat)
    requires Proper(d) && e.Registration? && e.conn < |d.conns| && e.fault.None?
    requires var t := Run(Next(d, e), events).tables; d.nextListing in t.listings && time < Expiry(e.info, e.now)
    requires d.nextListing < TWO_31 && IsInt32(e.info.playerId) && IsInt32(e.info.itemId)
    requires 0 < e.info.count < TWO_31 && IsInt32(e.info.price)
    ensures var t := Run(Next(d, e), events).tables;
      var own := Items(t, ListingIds(t, true, e.info.playerId, time), show);
      && i < |own|
      && own[i] == AuctionItemInfo(d.nextListing, e.info.playerId, 0, e.info.itemId,
                                   t.listings[d.nextListing].remaining, e.info.price, show(Expiry(e.info, e.now)))
  {
    var id, t := d.nextListing, Run(Next(d, e), events).tables;
    StaysAsRegistered(d, e, events, t.listings[id]);
    ProperGivesIds(d);
    hide Run;
    hide Next;
    hide Proper;
    i := OnOwnList(t, id, e.info.playerId, time);
    hide ListingIds;
  }

  lemma ProperGivesIds(d: Database)
    requires Proper(d)
    ensures 1 <= d.nextListing
  {
  }

  lemma OnOwnList(t: Tables, id: int, seller: int32, time: int) returns (i: nat)
    requires Unexpired(t, id, time) && t.listings[id].sellerId == seller
    ensures i < |ListingIds(t, true, seller, time)| && ListingIds(t, true, seller, time)[i] == id
  {
    OwnIdsExact(t, seller, time);
    var ids := OwnIds(t, seller, time);
    assert ids == ListingIds(t, true, seller, time);
    hide OwnIds;
    hide ListingIds;
    i :| 0 <= i < |ids| && ids[i] == id;
  }

  /** Only one row belongs to the account. */
  predicate OnlyRowOf(rows: seq<Character>, account: int64, i: nat) {
    i < |rows| && forall j :: 0 <= j < |rows| ==> (rows[j].accountId == account <==> j == i)
  }

  lemma {:induction false} NobodyPays(rows: seq<Character>, account: int64, total: int64)
    requires forall c <- rows :: !CanPay(c, account, total)
    ensures PayingRows(rows, account, total) == 0
  {
    if rows != [] {
      NobodyPays(rows[1..], account, total);
    }
  }

  /** A sale, at any later time: the buyer's row pays price times count, the player who
      registered earns it, and receipt and transaction name the item that was registered. */
  lemma SoldAsRegistered(d: Database, e: Event, events: seq<Event>, p: Event, i: nat)
    requires Proper(d) && e.Registration? && e.conn < |d.conns| && e.fault.None?
    requires var d1 := Run(Next(d, e), events);
      && p.PurchaseOf? && Succeeds(d1, p) && p.info.listId == d.nextListing
      && OnlyRowOf(d1.tables.characters, p.info.playerId, i)
    requires IsInt32(e.info.itemId) && -TWO_63 <= e.info.price * p.info.count < TWO_63
    ensures var d1 := Run(Next(d, e), events);
      var t, r := d1.tables, Next(d1, p).tables;
      var total := e.info.price * p.info.count;
      && r.characters == t.characters[i := Character(p.info.playerId, t.characters[i].gold - total)]
      && Earned(r.receipts, e.info.playerId) == Earned(t.receipts, e.info.playerId) + total
      && r.transactions == t.transactions + [Transaction(e.info.itemId, p.info.count, total)]
      && r.receipts == t.receipts
           + [BuyerReceipt(p.info.playerId, e.info.itemId, p.info.count, d.nextListing),
              SellerReceipt(e.info.playerId, total, d.nextListing)]
  {
    var d1 := Run(Next(d, e), events);
    hide Next;
    PurchaseStep(d1, p);
    var w, id := LastWorkedOn(d1, p), d.nextListing;
    var now :| Buyable(w, p.info, now, p.foundRows);
    var row := w.listings[id];
    assert w.characters == d1.tables.characters && w.receipts == d1.tables.receipts;
    assert w.transactions == d1.tables.transactions;
    assert d1.conns[p.conn] in d1.conns;
    assert Occurs(d1, id, row);
    hide LastWorkedOn;
    hide Run;
    StaysAsRegistered(d, e, events, row);
    var total := Total(w, p.info);
    assert total == e.info.price * p.info.count;
    assert CanPay(w.characters[i], p.info.playerId, total) by {
      if !CanPay(w.characters[i], p.info.playerId, total) { NobodyPays(w.characters, p.info.playerId, total); }
    }
    PurchaseNamesTheParties(w, p.info, e.info.playerId, id);
  }
}

/** What whole runs of the auction database conserve: gold, stock, and what was registered. */
module AuctionLedgers {
  import opened Machine
  import opened ItemMessage
  import opened AuctionTables
  import opened AuctionService
  import opened AuctionRuns

  // ---------------------------------------------------------------------------------------
  //  Gold
  // ---------------------------------------------------------------------------------------

  function CharacterGold(rows: seq<Character>): int {
    if rows == [] then 0 else rows[0].gold + CharacterGold(rows[1..])
  }

  function SellerGold(receipts: seq<Receipt>): int {
    if receipts == [] then 0
    else (if receipts[0].SellerReceipt? then receipts[0].gold else 0) + SellerGold(receipts[1..])
  }

  /** The quantity on buyer receipts that name a listing. */
  function Sold(receipts: seq<Receipt>, id: int): int {
    if receipts == [] then 0
    else (if receipts[0].BuyerReceipt? && receipts[0].listingId == id then receipts[0].quantity else 0)
         + Sold(receipts[1..], id)
  }

  lemma {:induction false} DebitTakes(rows: seq<Character>, account: int64, total: int64)
    ensures CharacterGold(DebitGold(rows, account, total))
         == CharacterGold(rows) - total * PayingRows(rows, account, total)
  {
    if rows != [] {
      DebitTakes(rows[1..], account, total);
      var pays := if CanPay(rows[0], account, total) then 1 else 0;
      assert total * PayingRows(rows, account, total) == total * pays + total * PayingRows(rows[1..], account, total);
      assert DebitGold(rows, account, total)[1..] == DebitGold(rows[1..], account, total);
    }
  }

  lemma {:induction false} SellerGoldAppend(r: seq<Receipt>, more: seq<Receipt>)
    ensures SellerGold(r + more) == SellerGold(r) + SellerGold(more)
  {
    if r == [] {
      assert r + more == more;
    } else {
      assert (r + more)[1..] == r[1..] + more;
      SellerGoldAppend(r[1..], more);
    }
  }

  /** What the two receipts of a purchase add to the sums. */
  lemma PurchaseReceipts(buyer: Receipt, seller: Receipt, id: int)
    requires buyer.BuyerReceipt? && seller.SellerReceipt?
    ensures SellerGold([buyer, seller]) == seller.gold
    ensures Sold([buyer, seller], id) == if buyer.listingId == id then buyer.quantity else 0
  {
    var both := [buyer, seller];
    assert both[1..] == [seller];
    assert SellerGold([seller]) == seller.gold && Sold([seller], id) == 0;
  }

  predicate OneRowPerAccount(rows: seq<Character>) {
    forall i, j :: 0 <= i < j < |rows| ==> rows[i].accountId != rows[j].accountId
  }

  lemma {:induction false} OneRowPays(rows: seq<Character>, account: int64, total: int64)
    requires OneRowPerAccount(rows)
    ensures PayingRows(rows, account, total) <= 1
    ensures (forall c <- rows :: c.accountId != account) ==> PayingRows(rows, account, total) == 0
  {
    if rows != [] {
      OneRowPays(rows[1..], account, total);
    }
  }

  /** A purchase charges its price once for every row of the account that could pay it, and
      writes the price to one seller receipt. */
  lemma PurchaseMovesGold(t: Tables, info: AuctionItemInfo)
    requires info.listId in t.listings && info.count > 0
    ensures var total := Total(t, info);
      && CharacterGold(Bought(t, info).characters)
         == CharacterGold(t.characters) - total * PayingRows(t.characters, info.playerId, total)
      && SellerGold(Bought(t, info).receipts) == SellerGold(t.receipts) + total
  {
    var total := Total(t, info);
    DebitTakes(t.characters, info.playerId, total);
    var row := t.listings[info.listId];
    var buyer := BuyerReceipt(info.playerId, ToInt32(row.itemId), info.count, info.listId);
    var seller := SellerReceipt(row.sellerId, total, info.listId);
    SellerGoldAppend(t.receipts, [buyer, seller]);
    PurchaseReceipts(buyer, seller, info.listId);
  }

  /** The gold on the seller receipts of one owner. */
  function Earned(receipts: seq<Receipt>, owner: int64): int {
    if receipts == [] then 0
    else (if receipts[0].SellerReceipt? && receipts[0].owner == owner then receipts[0].gold else 0)
         + Earned(receipts[1..], owner)
  }

  /** The quantity of one listing on the buyer receipts of one owner. */
  function Acquired(receipts: seq<Receipt>, owner: int64, id: int): int {
    if receipts == [] then 0
    else (if receipts[0].BuyerReceipt? && receipts[0].owner == owner && receipts[0].listingId == id
          then receipts[0].quantity else 0)
         + Acquired(receipts[1..], owner, id)
  }

  lemma {:induction false} ReceiptsAppend(r: seq<Receipt>, buyer: Receipt, seller: Receipt, owner: int64, id: int)
    requires buyer.BuyerReceipt? && seller.SellerReceipt?
    ensures Earned(r + [buyer, seller], owner) == Earned(r, owner) + if seller.owner == owner then seller.gold else 0
    ensures Acquired(r + [buyer, seller], owner, id)
         == Acquired(r, owner, id) + if buyer.owner == owner && buyer.listingId == id then buyer.quantity else 0
  {
    if r == [] {
      var both := [buyer, seller];
      assert r + both == both && both[1..] == [seller];
      assert Earned([seller], owner) == if seller.owner == owner then seller.gold else 0;
      assert Acquired([seller], owner, id) == 0;
    } else {
      assert (r + [buyer, seller])[1..] == r[1..] + [buyer, seller];
      ReceiptsAppend(r[1..], buyer, seller, owner, id);
    }
  }

  /** The right people get the receipts: the listing's seller earns the price, the player who
      asked acquires the count, and nobody else's sums change. */
  lemma PurchaseNamesTheParties(t: Tables, info: AuctionItemInfo, owner: int64, id: int)
    requires info.listId in t.listings && info.count > 0
    ensures Earned(Bought(t, info).receipts, owner)
         == Earned(t.receipts, owner) + if t.listings[info.listId].sellerId == owner then Total(t, info) else 0
    ensures Acquired(Bought(t, info).receipts, owner, id)
         == Acquired(t.receipts, owner, id) + if info.playerId == owner && info.listId == id then info.count else 0
  {
    var row := t.listings[info.listId];
    ReceiptsAppend(t.receipts, BuyerReceipt(info.playerId, ToInt32(row.itemId), info.count, info.listId),
                   SellerReceipt(row.sellerId, Total(t, info), info.listId), owner, id);
  }

  function AllGold(t: Tables): int {
    CharacterGold(t.characters) + SellerGold(t.receipts)
  }

  predicate NoDebt(t: Tables) {
    forall c <- t.characters :: c.gold >= 0
  }

  /** What an event makes vanish: a successful purchase charges its total to every row of the
      account that can pay it, and the seller's receipt records it once. */
  function Overcharge(d: Database, e: Event): int {
    if Succeeds(d, e) then
      var t := LastWorkedOn(d, e);
      if e.info.listId in t.listings then
        var total := Total(t, e.info);
        total * (PayingRows(t.characters, e.info.playerId, total) - 1)
      else 0
    else 0
  }

  function Overcharged(d: Database, events: seq<Event>): int
    decreases |events|
  {
    if events == [] then 0 else Overcharge(d, events[0]) + Overcharged(Next(d, events[0]), events[1..])
  }

  lemma StepAccountsForGold(d: Database, e: Event)
    ensures AllGold(Next(d, e).tables) == AllGold(d.tables) - Overcharge(d, e)
  {
    if e.PurchaseOf? && e.conn < |d.conns| {
      PurchaseStep(d, e);
      hide Next;
      if Succeeds(d, e) {
        var t := LastWorkedOn(d, e);
        assert t.characters == d.tables.characters && t.receipts == d.tables.receipts;
        hide LastWorkedOn;
        hide Bought;
        PurchaseMovesGold(t, e.info);
        Distribute(Total(t, e.info), PayingRows(t.characters, e.info.playerId, Total(t, e.info)));
      }
    }
  }

  lemma Distribute(total: int, rows: int)
    ensures total * (rows - 1) == total * rows - total
  {
  }

  /** Over every run, for any number of rows per account: all gold is what it was, less what
      was charged to second and further rows. */
  lemma {:induction false} GoldAccountedFor(d: Database, events: seq<Event>)
    ensures AllGold(Run(d, events).tables) == AllGold(d.tables) - Overcharged(d, events)
    decreases |events|
  {
    if events != [] {
      StepAccountsForGold(d, events[0]);
      GoldAccountedFor(Next(d, events[0]), events[1..]);
    }
  }

  /** One event keeps character gold plus gold on seller receipts exactly when the purchase, if
      one went through, was free or was charged to a single row. */
  lemma GoldKeptExactlyWhen(d: Database, e: Event)
    ensures AllGold(Next(d, e).tables) == AllGold(d.tables) <==>
      (Succeeds(d, e) ==>
         var t := LastWorkedOn(d, e);
         && e.info.listId in t.listings
         && var total := Total(t, e.info);
            total == 0 || PayingRows(t.characters, e.info.playerId, total) == 1)
  {
    StepAccountsForGold(d, e);
    if Succeeds(d, e) {
      PurchaseStep(d, e);
      var t := LastWorkedOn(d, e);
      ChargedOnce(Total(t, e.info), PayingRows(t.characters, e.info.playerId, Total(t, e.info)));
    }
  }

  lemma ChargedOnce(total: int, rows: int)
    ensures total * (rows - 1) == 0 <==> total == 0 || rows == 1
  {
  }

  /** With one row per account, gold is conserved over every run. */
  lemma {:induction false} GoldConserved(d: Database, events: seq<Event>)
    requires OneRowPerAccount(d.tables.characters)
    ensures AllGold(Run(d, events).tables) == AllGold(d.tables)
    decreases |events|
  {
    if events != [] {
      var e := events[0];
      OneRowStays(d, e);
      GoldConserved(Next(d, e), events[1..]);
    }
  }

  lemma OneRowStays(d: Database, e: Event)
    requires OneRowPerAccount(d.tables.characters)
    ensures OneRowPerAccount(Next(d, e).tables.characters) && AllGold(Next(d, e).tables) == AllGold(d.tables)
  {
    GoldKeptExactlyWhen(d, e);
    if e.conn < |d.conns| && e.PurchaseOf? {
      PurchaseStep(d, e);
      if Succeeds(d, e) {
        var t := LastWorkedOn(d, e);
        OneRowPays(t.characters, e.info.playerId, Total(t, e.info));
      }
    }
  }

  /** No balance ever goes negative, however many rows an account has: only rows that can pay are charged. */
  lemma {:induction false} BalancesStayNonNegative(d: Database, events: seq<Event>)
    requires NoDebt(d.tables)
    ensures NoDebt(Run(d, events).tables)
    decreases |events|
  {
    if events != [] {
      var e := events[0];
      if e.conn < |d.conns| && e.PurchaseOf? {
        PurchaseStep(d, e);
        hide Next;
      }
      BalancesStayNonNegative(Next(d, e), events[1..]);
    }
  }

  const TWO_ROWS := Database(
    Tables(map[1 := Listing(9, 1, 5, 10, 100)], [Character(7, 1000), Character(7, 1000)], [], []),
    2, [Conn(true, map[])])

  /** An account with two rows pays twice: ten gold of the price vanish. */
  lemma TwoRowsPayTwice()
    ensures var e := PurchaseOf(0, Asking(1, 1, 7), QuietAt(0), false);
      Succeeds(TWO_ROWS, e) && AllGold(Next(TWO_ROWS, e).tables) == AllGold(TWO_ROWS.tables) - 10
  {
    var info := Asking(1, 1, 7);
    var t := Seen(TWO_ROWS, 0);
    assert Total(t, info) == 10;
    assert t.characters[1..] == [Character(7, 1000)];
    assert PayingRows(t.characters, 7, 10) == 2;
    QuietPurchase(TWO_ROWS, 0, info, 0, false);
    StepAccountsForGold(TWO_ROWS, PurchaseOf(0, info, QuietAt(0), false));
  }

  /** The 64-bit product in a committed purchase is the true product for 32-bit price and stock. */
  lemma TotalIsExact(t: Tables, info: AuctionItemInfo, now: int, foundRows: bool)
    requires Buyable(t, info, now, foundRows)
    requires IsInt32(t.listings[info.listId].price) && IsInt32(t.listings[info.listId].remaining)
    ensures Total(t, info) == t.listings[info.listId].price * info.count
  {
    var price := t.listings[info.listId].price;
    assert 0 < info.count <= INT_MAX;
    if price >= 0 {
      assert 0 <= price * info.count <= INT_MAX * INT_MAX by { MulBound(price, info.count); }
    } else {
      assert -TWO_31 * INT_MAX <= price * info.count <= 0 by { MulBound(-price, info.count); }
    }
  }

  lemma MulBound(a: int, b: int)
    requires 0 <= a <= TWO_31 && 0 < b <= INT_MAX
    ensures 0 <= a * b <= a * INT_MAX <= TWO_31 * INT_MAX
    ensures a <= INT_MAX ==> a * b <= INT_MAX * INT_MAX
    ensures (-a) * b == -(a * b)
  {
  }

  // ---------------------------------------------------------------------------------------
  //  Stock
  // ---------------------------------------------------------------------------------------

  function Remaining(t: Tables, id: int): int {
    if id in t.listings then t.listings[id].remaining else 0
  }

  function Stock(t: Tables, id: int): int {
    Remaining(t, id) + Sold(t.receipts, id)
  }

  lemma {:induction false} SoldAppend(r: seq<Receipt>, more: seq<Receipt>, id: int)
    ensures Sold(r + more, id) == Sold(r, id) + Sold(more, id)
  {
    if r == [] {
      assert r + more == more;
    } else {
      assert (r + more)[1..] == r[1..] + more;
      SoldAppend(r[1..], more, id);
    }
  }

  /** A purchase keeps every listing's stock plus sales exactly when the row it deletes, if it
      deletes one, held just the quantity bought. The service compares 32 bits of the stock, so
      a wider stock can be deleted while items remain. */
  lemma StockKeptExactlyWhen(t: Tables, info: AuctionItemInfo, now: int, foundRows: bool)
    requires Buyable(t, info, now, foundRows)
    ensures (forall id :: Stock(Bought(t, info), id) == Stock(t, id))
       <==> (ReadStock(t, info) == info.count ==> t.listings[info.listId].remaining == info.count)
    ensures forall id :: Stock(Bought(t, info), id) == Stock(t, id) - if id == info.listId then Vanishes(t, info) else 0
  {
    var row := t.listings[info.listId];
    var buyer := BuyerReceipt(info.playerId, ToInt32(row.itemId), info.count, info.listId);
    var seller := SellerReceipt(row.sellerId, Total(t, info), info.listId);
    forall id
      ensures Sold(Bought(t, info).receipts, id) == Sold(t.receipts, id) + if id == info.listId then info.count else 0
    {
      SoldAppend(t.receipts, [buyer, seller], id);
      PurchaseReceipts(buyer, seller, id);
    }
    assert Stock(t, info.listId) == row.remaining + Sold(t.receipts, info.listId);
  }

  /** What a purchase deletes beyond what it buys. */
  function Vanishes(t: Tables, info: AuctionItemInfo): int
    requires info.listId in t.listings
  {
    if ReadStock(t, info) == info.count then t.listings[info.listId].remaining - info.count else 0
  }

  const WIDE_STOCK := Database(
    Tables(map[1 := Listing(9, 1, TWO_32 + 5, 0, 100)], [Character(7, 0)], [], []), 2, [Conn(true, map[])])

  /** A stock whose low 32 bits are the count bought is deleted with 2^32 items left. */
  lemma WideStockVanishes()
    ensures var e := PurchaseOf(0, Asking(1, 5, 7), QuietAt(0), true);
      Succeeds(WIDE_STOCK, e) && Stock(WIDE_STOCK.tables, 1) == TWO_32 + 5 && Stock(Next(WIDE_STOCK, e).tables, 1) == 5
  {
    var info := Asking(1, 5, 7);
    var t := Seen(WIDE_STOCK, 0);
    assert Total(t, info) == 0 && ReadStock(t, info) == 5;
    assert PayingRows(t.characters, 7, 0) == 1;
    QuietPurchase(WIDE_STOCK, 0, info, 0, true);
    var buyer, seller := BuyerReceipt(7, 1, 5, 1), SellerReceipt(9, 0, 1);
    PurchaseReceipts(buyer, seller, 1);
    assert Bought(t, info).receipts == [buyer, seller];
  }

  /** A stock that never reads as a count it is not, neither now nor after some of it is sold. */
  predicate NeverMisread(remaining: int) {
    remaining <= TWO_32 && (remaining < 0 ==> ToInt32(remaining) <= 0)
  }

  predicate SafeFor(t: Tables, id: int) {
    id in t.listings ==> NeverMisread(t.listings[id].remaining)
  }

  /** No connection has left `id` open. */
  predicate Closed(d: Database, id: int) {
    forall c <- d.conns :: id !in c.open
  }

  lemma {:induction false} NothingSold(receipts: seq<Receipt>, id: int)
    requires forall r <- receipts :: r.listingId < id
    ensures Sold(receipts, id) == 0
  {
    if receipts != [] {
      assert receipts[0] in receipts;
      assert forall r <- receipts[1..] :: r in receipts;
      NothingSold(receipts[1..], id);
    }
  }

  /** A purchase keeps the stock of every listing that is never misread, whatever it buys. */
  lemma PurchaseKeepsStock(d: Database, e: Event, id: int)
    requires Succeeds(d, e) && SafeFor(LastWorkedOn(d, e), id)
    ensures Stock(Next(d, e).tables, id) == Stock(LastWorkedOn(d, e), id) && SafeFor(Next(d, e).tables, id)
    ensures LastWorkedOn(d, e).receipts == d.tables.receipts
  {
    PurchaseStep(d, e);
    var t := LastWorkedOn(d, e);
    assert t.receipts == d.tables.receipts;
    hide Next;
    hide LastWorkedOn;
    var now :| Buyable(t, e.info, now, e.foundRows);
    StockKeptExactlyWhen(t, e.info, now, e.foundRows);
  }

  /** One event keeps the stock of a committed listing that is never misread. */
  lemma StepKeepsStock(d: Database, e: Event, id: int)
    requires Proper(d) && Closed(d, id) && id < d.nextListing && SafeFor(d.tables, id)
    ensures Closed(Next(d, e), id) && SafeFor(Next(d, e).tables, id)
    ensures Stock(Next(d, e).tables, id) == Stock(d.tables, id)
  {
    if e.conn < |d.conns| && (e.PurchaseOf? || e.fault.None?) {
      assert d.conns[e.conn] in d.conns;
      if e.PurchaseOf? {
        PurchaseStep(d, e);
        if Succeeds(d, e) { PurchaseKeepsStock(d, e, id); }
      } else {
        RegistrationStep(d, e);
      }
    }
  }

  /** Over every run, what remains of a committed listing plus what buyers hold receipts for
      stays the same, so it is never oversold, whatever is registered and bought besides. */
  lemma {:induction false} StockConserved(d: Database, events: seq<Event>, id: int)
    requires Proper(d) && Closed(d, id) && id < d.nextListing && SafeFor(d.tables, id)
    ensures Closed(Run(d, events), id)
    ensures Stock(Run(d, events).tables, id) == Stock(d.tables, id)
    decreases |events|
  {
    if events != [] {
      StepKeepsStock(d, events[0], id);
      StepIsProper(d, events[0]);
      StockConserved(Next(d, events[0]), events[1..], id);
    }
  }

  // ---------------------------------------------------------------------------------------
  //  Exactly which stock is conserved
  // ---------------------------------------------------------------------------------------

  function WithRows(d: Database, rows: seq<Character>): Database {
    d.(tables := d.tables.(characters := rows))
  }

  /** Whoever buys, and whatever happens, the stock of the listing is accounted for. */
  ghost predicate StockAlwaysKept(d: Database, id: int) {
    forall rows, events :: Stock(Run(WithRows(d, rows), events).tables, id) == Stock(d.tables, id)
  }

  /** That is so exactly for a stock that is never misread: any other is lost to some buyer, at
      once or after selling it down. */
  lemma StockAlwaysKeptExactlyWhen(d: Database, id: int64)
    requires Proper(d) && Closed(d, id) && id in d.tables.listings && |d.conns| > 0
    ensures StockAlwaysKept(d, id) <==> NeverMisread(d.tables.listings[id].remaining)
  {
    if NeverMisread(d.tables.listings[id].remaining) {
      forall rows, events ensures Stock(Run(WithRows(d, rows), events).tables, id) == Stock(d.tables, id) {
        StockConserved(WithRows(d, rows), events, id);
      }
    } else {
      var rows, events := LoseStock(d, id);
      assert Stock(Run(WithRows(d, rows), events).tables, id) != Stock(d.tables, id);
    }
  }

  /** The only character is rich enough for any price, and no seller of the listing. */
  predicate Rich(t: Tables, id: int, buyer: int64) {
    && |t.characters| == 1 && t.characters[0].accountId == buyer && t.characters[0].gold >= TWO_63
    && id in t.listings && t.listings[id].sellerId != buyer
  }

  /** What is left when `count` of the listing has been bought. */
  predicate LeftAfter(t: Tables, r: Tables, id: int, count: int64, buyer: int64)
    requires Rich(t, id, buyer)
  {
    var row := t.listings[id];
    var read := ToInt32(row.remaining);
    && Stock(r, id) == Stock(t, id) - (if read == count then row.remaining - count else 0)
    && (read != count ==>
          && id in r.listings && r.listings[id] == row.(remaining := r.listings[id].remaining)
          && r.listings[id].remaining == row.remaining - count)
    && |r.characters| == 1 && r.characters[0].accountId == buyer
    && r.characters[0].gold >= t.characters[0].gold - TWO_63
  }

  lemma RichCanBuy(t: Tables, id: int64, count: int64, buyer: int64)
    requires Rich(t, id, buyer)
    requires var row := t.listings[id]; count > 0 && (ToInt32(row.remaining) == count || row.remaining > count)
    ensures Buyable(t, Asking(id, count, buyer), t.listings[id].expiresAt - 1, true)
    ensures LeftAfter(t, Bought(t, Asking(id, count, buyer)), id, count, buyer)
  {
    var info, now := Asking(id, count, buyer), t.listings[id].expiresAt - 1;
    assert PayingRows(t.characters, buyer, Total(t, info)) == 1;
    StockKeptExactlyWhen(t, info, now, true);
  }

  lemma RichBuys(d: Database, id: int64, count: int64, buyer: int64) returns (e: Event)
    requires Proper(d) && Closed(d, id) && Rich(d.tables, id, buyer) && |d.conns| > 0
    requires var row := d.tables.listings[id]; count > 0 && (ToInt32(row.remaining) == count || row.remaining > count)
    ensures LeftAfter(d.tables, Next(d, e).tables, id, count, buyer) && |Next(d, e).conns| == |d.conns|
  {
    var t, info, now := Seen(d, 0), Asking(id, count, buyer), d.tables.listings[id].expiresAt - 1;
    e := PurchaseOf(0, info, QuietAt(now), true);
    assert d.conns[0] in d.conns;
    assert t.listings[id] == d.tables.listings[id];
    RichCanBuy(t, id, count, buyer);
    QuietPurchase(d, 0, info, now, true);
    PurchaseStep(d, e);
    assert Stock(t, id) == Stock(d.tables, id);
  }

  lemma LoseStock(d: Database, id: int64) returns (rows: seq<Character>, events: seq<Event>)
    requires Proper(d) && Closed(d, id) && id in d.tables.listings && |d.conns| > 0
    requires !NeverMisread(d.tables.listings[id].remaining)
    ensures Stock(Run(WithRows(d, rows), events).tables, id) != Stock(d.tables, id)
  {
    hide Next;
    hide Stock;
    var row := d.tables.listings[id];
    var read := ToInt32(row.remaining);
    var buyer: int64 := if row.sellerId == 0 then 1 else 0;
    rows := [Character(buyer, TWO_64)];
    var start := WithRows(d, rows);
    StockIgnoresRows(d.tables, rows, id);
    if read >= 1 {
      var e := RichBuys(start, id, read, buyer);
      events := [e];
      assert Run(Next(start, e), events[1..]) == Next(start, e);
    } else {
      var e := RichBuys(start, id, row.remaining - (TWO_32 + 1), buyer);
      var mid := Next(start, e);
      StepIsProper(start, e);
      ClosedStays(start, e, id);
      assert ToInt32(TWO_32 + 1) == 1;
      var last := RichBuys(mid, id, 1, buyer);
      events := [e, last];
      RunTwo(start, e, last);
    }
  }

  lemma StockIgnoresRows(t: Tables, rows: seq<Character>, id: int)
    ensures Stock(t.(characters := rows), id) == Stock(t, id)
  {
  }

  lemma RunTwo(d: Database, a: Event, b: Event)
    ensures Run(d, [a, b]) == Next(Next(d, a), b)
  {
    hide Next;
    assert [a, b][1..] == [b] && [b][1..] == [];
    assert Run(Next(d, a), [b]) == Run(Next(Next(d, a), b), []);
  }

  lemma ClosedStays(d: Database, e: Event, id: int)
    requires Proper(d) && Closed(d, id) && id < d.nextListing
    ensures Closed(Next(d, e), id)
  {
    if e.conn < |d.conns| && (e.PurchaseOf? || e.fault.None?) {
      assert d.conns[e.conn] in d.conns;
      if e.PurchaseOf? { PurchaseStep(d, e); } else { RegistrationStep(d, e); }
    }
  }

  // ---------------------------------------------------------------------------------------
  //  What becomes of a registration
  // ---------------------------------------------------------------------------------------

  /** What connection `c` has left open survives: the next purchase on it succeeds at once, or
      there is none. */
  predicate OpenSurvives(d: Database, c: nat, events: seq<Event>)
    decreases |events|
  {
    if events == [] then true
    else if events[0].PurchaseOf? && events[0].conn == c && c < |d.conns| then
      && Succeeds(d, events[0])
      && PurchaseOutcome(View(d, c), events[0].info, events[0].envs, events[0].foundRows).attempts == 1
    else OpenSurvives(Next(d, events[0]), c, events[1..])
  }

  /** `id` is open on connection `c` with `count` items, and nobody has bought any. */
  predicate OpenOn(d: Database, c: nat, id: int, count: int) {
    && c < |d.conns| && !d.conns[c].autoCommit && id in d.conns[c].open && d.conns[c].open[id].remaining == count
    && NeverMisread(count) && id < d.nextListing && Sold(d.tables.receipts, id) == 0
  }

  lemma OpenElsewhere(d: Database, c: nat, id: int, count: int)
    requires Proper(d) && OpenOn(d, c, id, count)
    ensures id !in d.tables.listings
    ensures forall k :: 0 <= k < |d.conns| && k != c ==> id !in d.conns[k].open
  {
    assert d.conns[c] in d.conns;
    forall k | 0 <= k < |d.conns| && k != c ensures id !in d.conns[k].open {
      assert if k < c then d.conns[k].open.Keys !! d.conns[c].open.Keys
             else d.conns[c].open.Keys !! d.conns[k].open.Keys;
    }
  }

  /** Any event but a purchase on its own connection leaves an open registration open. */
  lemma OthersKeepOpen(d: Database, e: Event, c: nat, id: int, count: int)
    requires Proper(d) && OpenOn(d, c, id, count) && !(e.PurchaseOf? && e.conn == c)
    ensures OpenOn(Next(d, e), c, id, count)
  {
    OpenElsewhere(d, c, id, count);
    if e.conn < |d.conns| && (e.PurchaseOf? || e.fault.None?) {
      if e.PurchaseOf? {
        PurchaseStep(d, e);
        assert id !in LastWorkedOn(d, e).listings;
        if Succeeds(d, e) { PurchaseKeepsStock(d, e, id); }
      } else {
        RegistrationStep(d, e);
      }
    }
  }

  /** A purchase on its own connection commits it or drops it. */
  lemma OwnPurchaseSettles(d: Database, e: Event, c: nat, id: int, count: int)
    requires Proper(d) && OpenOn(d, c, id, count) && e.PurchaseOf? && e.conn == c
    ensures Closed(Next(d, e), id)
    ensures SafeFor(Next(d, e).tables, id)
    ensures Stock(Next(d, e).tables, id) == if OpenSurvives(d, c, [e]) then count else 0
  {
    OpenElsewhere(d, c, id, count);
    PurchaseStep(d, e);
    if Succeeds(d, e) { PurchaseKeepsStock(d, e, id); }
    var r := Next(d, e);
    hide Next;
    forall k <- r.conns ensures id !in k.open {
      var j :| 0 <= j < |r.conns| && r.conns[j] == k;
      assert j != c ==> k == d.conns[j];
    }
  }

  lemma {:induction false} OpenRunSettles(d: Database, events: seq<Event>, c: nat, id: int, count: int)
    requires Proper(d) && OpenOn(d, c, id, count)
    ensures |Run(d, events).conns| == |d.conns|
    ensures Stock(Seen(Run(d, events), c), id) == if OpenSurvives(d, c, events) then count else 0
    decreases |events|
  {
    RunIsProper(d, events);
    if events != [] {
      var e := events[0];
      StepIsProper(d, e);
      if e.PurchaseOf? && e.conn == c {
        OwnPurchaseSettles(d, e, c, id, count);
        StockConserved(Next(d, e), events[1..], id);
        SeenWhenClosed(Run(d, events), c, id);
      } else {
        OthersKeepOpen(d, e, c, id, count);
        OpenRunSettles(Next(d, e), events[1..], c, id, count);
      }
    }
  }

  lemma SeenWhenClosed(d: Database, c: nat, id: int)
    requires c < |d.conns| && Closed(d, id)
    ensures Stock(Seen(d, c), id) == Stock(d.tables, id)
  {
    assert d.conns[c] in d.conns;
  }

  /** From its registration on, for every later run: the count registered is what remains plus
      what was sold, exactly if autocommit was on or the next purchase on that connection
      succeeded at once; otherwise the listing is gone without a sale. */
  lemma RegisteredEqualsRemainingPlusSold(d: Database, e: Event, events: seq<Event>)
    requires Proper(d) && e.Registration? && e.conn < |d.conns| && e.fault.None? && NeverMisread(e.info.count)
    ensures var after := Run(Next(d, e), events);
      && |after.conns| == |d.conns|
      && Remaining(Seen(after, e.conn), d.nextListing) + Sold(after.tables.receipts, d.nextListing)
         == if d.conns[e.conn].autoCommit || OpenSurvives(Next(d, e), e.conn, events) then e.info.count else 0
  {
    var id, r := d.nextListing, Next(d, e);
    NothingSold(d.tables.receipts, id);
    RegistrationStep(d, e);
    StepIsProper(d, e);
    RunIsProper(r, events);
    assert d.conns[e.conn] in d.conns;
    if d.conns[e.conn].autoCommit {
      assert Closed(r, id) by {
        hide Next;
        forall c <- r.conns ensures id !in c.open {
          assert c in d.conns;
        }
      }
      StockConserved(r, events, id);
      SeenWhenClosed(Run(r, events), e.conn, id);
    } else {
      OpenRunSettles(r, events, e.conn, id, e.info.count);
    }
  }

  /** No restore of autocommit fails, in any attempt of any purchase. */
  predicate RestoresWork(events: seq<Event>) {
    forall i, k: nat :: 0 <= i < |events| && events[i].PurchaseOf? && 1 <= k <= 3 ==>
      events[i].envs(k).fault(RestoreAutoCommit).None?
  }

  /** As long as no restore fails, a connection in autocommit stays there, whatever else fails. */
  lemma {:induction false} AutoCommitStays(d: Database, events: seq<Event>, c: nat)
    requires Proper(d) && c < |d.conns| && d.conns[c].autoCommit && RestoresWork(events)
    ensures Proper(Run(d, events)) && |Run(d, events).conns| == |d.conns| && Run(d, events).conns[c].autoCommit
    decreases |events|
  {
    if events != [] {
      var e := events[0];
      StepIsProper(d, e);
      if e.conn < |d.conns| && e.PurchaseOf? {
        AutoCommitIsRestored(View(d, e.conn), e.info, e.envs, e.foundRows);
        AttemptsTrace(View(d, e.conn), e.info, e.envs, 1, e.foundRows);
        PurchaseStep(d, e);
        assert Next(d, e).conns[c].autoCommit;
      } else if e.conn < |d.conns| && e.fault.None? {
        RegistrationStep(d, e);
      }
      assert RestoresWork(events[1..]) by {
        assert forall i :: 0 <= i < |events| - 1 ==> events[1..][i] == events[i + 1];
      }
      hide Next;
      AutoCommitStays(Next(d, e), events[1..], c);
    }
  }

  /** Then a registration that reports success is committed at once, after whatever purchases
      and failures on its connection, and its count is accounted for ever after. */
  lemma RegistrationIsCommitted(d: Database, before: seq<Event>, e: Event, after: seq<Event>)
    requires Proper(d) && e.Registration? && e.conn < |d.conns| && d.conns[e.conn].autoCommit
    requires RestoresWork(before) && e.fault.None? && NeverMisread(e.info.count)
    ensures var mid := Run(d, before);
      var id, r := mid.nextListing, Next(mid, e);
      && id in r.tables.listings && r.tables.listings[id].remaining == e.info.count && Closed(r, id)
      && var t := Run(r, after).tables;
         Remaining(t, id) + Sold(t.receipts, id) == e.info.count
  {
    AutoCommitStays(d, before, e.conn);
    var mid := Run(d, before);
    var id, r := mid.nextListing, Next(mid, e);
    RegistrationStep(mid, e);
    StepIsProper(mid, e);
    NothingSold(mid.tables.receipts, id);
    assert Closed(r, id) by {
      forall c <- r.conns ensures id !in c.open {
        assert c in mid.conns;
      }
    }
    hide Next;
    StockConserved(r, after, id);
  }

  const NO_LISTINGS := Database(Tables(map[], [], [], []), 1, [Conn(true, map[])])

  /** A failing restore of autocommit, a registration that reports success, a failing purchase:
      the listing is gone, and nobody bought it. */
  lemma RegistrationIsLost(info: AuctionItemInfo)
    ensures var lost := [
        PurchaseOf(0, DEFAULT_ITEM, NO_RESTORE, false),
        Registration(0, info, 0, None),
        PurchaseOf(0, DEFAULT_ITEM, QuietAt(0), false)];
      Run(NO_LISTINGS, lost).tables == NO_LISTINGS.tables && Run(NO_LISTINGS, lost).nextListing == 2
  {
    var p := PurchaseOf(0, DEFAULT_ITEM, NO_RESTORE, false);
    var r := Registration(0, info, 0, None);
    var q := PurchaseOf(0, DEFAULT_ITEM, QuietAt(0), false);
    var d1 := Next(NO_LISTINGS, p);
    PurchaseStep(NO_LISTINGS, p);
    AutoCommitIsRestored(View(NO_LISTINGS, 0), p.info, p.envs, p.foundRows);
    assert !d1.conns[0].autoCommit;
    hide Next;
    StepIsProper(NO_LISTINGS, p);
    RegistrationStep(d1, r);
    var d2 := Next(d1, r);
    FailsOnEmpty(d2, q);
    PurchaseStep(d2, q);
    assert [p, r, q][1..] == [r, q] && [r, q][1..] == [q] && [q][1..] == [];
    assert Run(d2, [q]) == Run(Next(d2, q), []);
    assert Run(d1, [r, q]) == Run(d2, [q]);
  }

  /** A purchase of nothing fails. */
  lemma FailsOnEmpty(d: Database, e: Event)
    requires e.PurchaseOf? && e.conn < |d.conns| && e.info.count <= 0
    ensures !Succeeds(d, e)
  {
    SucceedsExactlyWhen(View(d, e.conn), e.info, e.envs, e.foundRows);
  }

  ghost predicate InStock(d: Database, id: int) {
    forall row :: Occurs(d, id, row) ==> row.remaining > 0
  }

  /** A listing with stock keeps some for as long as it exists. */
  lemma ListedMeansInStock(d: Database, events: seq<Event>, id: int)
    requires Proper(d) && id < d.nextListing && InStock(d, id)
    ensures InStock(Run(d, events), id)
  {
    forall row | Occurs(Run(d, events), id, row) ensures row.remaining > 0 {
      var before := RunShrinks(d, events, id, row);
    }
  }
}

/** The tables of the auction database and what one SQL statement does to them. */
module AuctionTables {
  import opened Machine
  import opened WireFormat
  import opened ItemMessage

  datatype Listing = Listing(sellerId: int64, itemId: int64, remaining: int64, price: int64, expiresAt: int)

  /** One row of `character_base`; an account may have several. */
  datatype Character = Character(accountId: int64, gold: int)

  datatype Transaction = Transaction(itemId: int32, quantity: int64, totalPrice: int64)

  datatype Receipt =
    | BuyerReceipt(owner: int64, itemId: int32, quantity: int64, listingId: int64)
    | SellerReceipt(owner: int64, gold: int64, listingId: int64)

  datatype Tables = Tables(
    listings: map<int, Listing>,
    characters: seq<Character>,
    transactions: seq<Transaction>,
    receipts: seq<Receipt>)

  /** Ids in the table are positive and have been handed out. */
  predicate IdsHandedOut(listings: map<int, Listing>, next: int) {
    next >= 1 && forall id <- listings :: 1 <= id < next
  }

  // ---------------------------------------------------------------------------------------
  //  SELECT ... WHERE expired_at > NOW() ORDER BY listing_id ASC [LIMIT 100]
  // ---------------------------------------------------------------------------------------

  const PAGE_LIMIT: nat := 100

  predicate Ascending(ids: seq<int>) {
    forall i, j :: 0 <= i < j < |ids| ==> ids[i] < ids[j]
  }

  predicate IsLeast(x: int, ids: set<int>) {
    x in ids && forall id <- ids :: x <= id
  }

  function Ordered(ids: set<int>): (r: seq<int>)
    ensures |r| == |ids|
    ensures forall id :: id in r <==> id in ids
    ensures Ascending(r)
  {
    if ids == {} then []
    else
      HasLeast(ids);
      var least :| IsLeast(least, ids);
      var rest := Ordered(ids - {least});
      assert forall id <- rest :: least < id;
      [least] + rest
  }

  lemma {:induction false} HasLeast(ids: set<int>)
    requires ids != {}
    ensures exists x :: IsLeast(x, ids)
    decreases |ids|
  {
    EmptyOrInhabited(ids);
    var some :| some in ids;
    var others := ids - {some};
    if others == {} {
      assert ids == {some};
      assert IsLeast(some, ids);
    } else {
      HasLeast(others);
      var least :| IsLeast(least, others);
      assert ids == others + {some};
      assert IsLeast(if some < least then some else least, ids);
    }
  }

  predicate Unexpired(t: Tables, id: int, now: int) {
    id in t.listings && t.listings[id].expiresAt > now
  }

  function UnexpiredIds(t: Tables, now: int): set<int> {
    set id <- t.listings | Unexpired(t, id, now)
  }

  /** The ids of the public list: the first hundred unexpired ones. */
  function PageIds(t: Tables, now: int): seq<int> {
    var all := Ordered(UnexpiredIds(t, now));
    if |all| <= PAGE_LIMIT then all else all[..PAGE_LIMIT]
  }

  /** The public list is an ascending prefix: what is unexpired and not on it comes after all of it. */
  lemma PageIsPrefix(t: Tables, now: int)
    ensures Ascending(PageIds(t, now)) && |PageIds(t, now)| <= 100
    ensures |PageIds(t, now)| < 100 ==> forall id :: Unexpired(t, id, now) ==> id in PageIds(t, now)
    ensures forall id <- PageIds(t, now) :: Unexpired(t, id, now)
    ensures forall id, listed :: Unexpired(t, id, now) && id !in PageIds(t, now) && listed in PageIds(t, now)
              ==> listed < id
  {
    var all := Ordered(UnexpiredIds(t, now));
    var page := PageIds(t, now);
    forall id <- page ensures Unexpired(t, id, now) {
      assert id in all;
    }
    forall id, listed | Unexpired(t, id, now) && id !in page && listed in page
      ensures listed < id
    {
      assert id in all;
      var k :| 0 <= k < |all| && all[k] == id;
      var j :| 0 <= j < |page| && page[j] == listed;
      assert page[j] == all[j];
      assert forall i :: 0 <= i < |page| ==> page[i] == all[i] && page[i] in page;
    }
  }

  /** The ids of a seller's own list, which has no limit. */
  function OwnIds(t: Tables, sellerId: int32, now: int): seq<int> {
    Ordered(set id <- UnexpiredIds(t, now) | t.listings[id].sellerId == sellerId)
  }

  /** It is complete, in order, and nobody else's. */
  lemma OwnIdsExact(t: Tables, sellerId: int32, now: int)
    ensures Ascending(OwnIds(t, sellerId, now))
    ensures forall id :: id in OwnIds(t, sellerId, now)
                    <==> Unexpired(t, id, now) && t.listings[id].sellerId == sellerId
  {
  }

  /** The answer to a list request, row by row. */
  function ListingIds(t: Tables, mine: bool, playerId: int32, now: int): (ids: seq<int>)
    ensures forall id <- ids :: Unexpired(t, id, now)
    ensures Ascending(ids)
  {
    PageIsPrefix(t, now);
    if mine then OwnIds(t, playerId, now) else PageIds(t, now)
  }

  /** A result row as a list entry: every integer column goes through a 32-bit read. */
  function ItemOf(id: int, row: Listing, show: int -> Bytes): AuctionItemInfo {
    AuctionItemInfo(ToInt32(id), ToInt32(row.sellerId), 0, ToInt32(row.itemId),
                    ToInt32(row.remaining), ToInt32(row.price), show(row.expiresAt))
  }

  function Items(t: Tables, ids: seq<int>, show: int -> Bytes): (r: seq<AuctionItemInfo>)
    requires forall id <- ids :: id in t.listings
    ensures |r| == |ids| && forall i :: 0 <= i < |r| ==> r[i] == ItemOf(ids[i], t.listings[ids[i]], show)
  {
    if ids == [] then [] else [ItemOf(ids[0], t.listings[ids[0]], show)] + Items(t, ids[1..], show)
  }

  /** The public list as the game server receives it. */
  function PublicList(t: Tables, now: int, show: int -> Bytes): seq<AuctionItemInfo> {
    Items(t, ListingIds(t, false, 0, now), show)
  }

  // ---------------------------------------------------------------------------------------
  //  The statements of a purchase
  // ---------------------------------------------------------------------------------------

  predicate CanPay(c: Character, account: int64, total: int64) {
    c.accountId == account && c.gold >= total
  }

  /** UPDATE character_base: every row of the account with enough gold pays. */
  function DebitGold(rows: seq<Character>, account: int64, total: int64): (r: seq<Character>)
    ensures |r| == |rows|
    ensures forall i :: 0 <= i < |r| ==>
              r[i] == if CanPay(rows[i], account, total) then rows[i].(gold := rows[i].gold - total) else rows[i]
  {
    if rows == [] then []
    else [if CanPay(rows[0], account, total) then rows[0].(gold := rows[0].gold - total) else rows[0]]
         + DebitGold(rows[1..], account, total)
  }

  function PayingRows(rows: seq<Character>, account: int64, total: int64): nat {
    if rows == [] then 0
    else (if CanPay(rows[0], account, total) then 1 else 0) + PayingRows(rows[1..], account, total)
  }

  /** The row count of that statement: rows matched, or rows changed, depending on a setting of
      the connection. They differ only when nothing is to be paid. */
  function DebitCount(rows: seq<Character>, account: int64, total: int64, foundRows: bool): nat {
    if total == 0 && !foundRows then 0 else PayingRows(rows, account, total)
  }

  /** The choice between DELETE and the guarded UPDATE, made on the 32-bit stock read earlier. */
  function TakeStock(listings: map<int, Listing>, read: int32, id: int64, count: int64): map<int, Listing>
    requires count > 0
  {
    if id !in listings then listings
    else if read == count then listings - {id as int}
    else if listings[id].remaining > count
    then listings[id as int := listings[id].(remaining := listings[id].remaining - count)]
    else listings
  }

  /** The row count of that choice. */
  function TakeCount(listings: map<int, Listing>, read: int32, id: int64, count: int64): nat {
    if id in listings && (read == count || listings[id].remaining > count) then 1 else 0
  }
}

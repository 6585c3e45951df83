/** The game server's snapshot of the listings: how it is built from a reply, how a purchase is
    judged from it, and why a refusal taken from an old snapshot is still right. */
module AuctionSnapshot {
  import opened Machine
  import opened WireFormat
  import opened Utf8
  import opened ItemMessage
  import opened ListMessage
  import opened AuctionTables
  import opened AuctionService
  import opened AuctionRuns

  datatype Snapshot = Snapshot(
    items: seq<AuctionItemInfo>,
    index: map<int64, nat>,
    listPacket: Option<Bytes>,
    maxListId: int64,
    fetchedAt: int)

  datatype Verdict = Pass | Unknown | RejectNotFound | RejectShortage | RejectOwn

  predicate Rejects(v: Verdict) {
    v.RejectNotFound? || v.RejectShortage? || v.RejectOwn?
  }

  // ---------------------------------------------------------------------------------------
  //  Building
  // ---------------------------------------------------------------------------------------

  /** Where a linear search finds the id first. */
  function FirstAt(items: seq<AuctionItemInfo>, id: int64): (at: Option<nat>)
    ensures at.Some? ==> at.value < |items| && items[at.value].listId == id
    ensures at.Some? ==> forall i :: 0 <= i < at.value ==> items[i].listId != id
    ensures at.None? ==> forall item <- items :: item.listId != id
  {
    if items == [] then None
    else if items[0].listId == id then Some(0)
    else match FirstAt(items[1..], id)
      case None => None
      case Some(i) => Some(i + 1)
  }

  /** The packet for clients: the first hundred items, unless it would be too large. */
  function ClientPacket(items: seq<AuctionItemInfo>): Option<Bytes> {
    var first := if |items| <= CLIENT_LIST_MAX then items else items[..CLIENT_LIST_MAX];
    var packet := ClientListBytes(first, false);
    if |packet| > SHRT_MAX then None else Some(packet)
  }

  /** The index sends every id to the first item with it. */
  predicate Indexes(index: map<int64, nat>, items: seq<AuctionItemInfo>) {
    forall id: int64 :: if id in index then FirstAt(items, id) == Some(index[id]) else FirstAt(items, id) == None
  }

  /** The greatest id listed, or 0. */
  predicate Greatest(bound: int64, items: seq<AuctionItemInfo>) {
    && bound >= 0
    && (forall item <- items :: item.listId <= bound)
    && (bound == 0 || exists item <- items :: item.listId == bound)
  }

  /** `s` indexes `items`. */
  predicate IndexedFrom(s: Snapshot, items: seq<AuctionItemInfo>) {
    && s.items == items
    && Indexes(s.index, items)
    && Greatest(s.maxListId, items)
  }

  /** `s` was built from `items`: it indexes them and holds their packet. */
  predicate BuiltFrom(s: Snapshot, items: seq<AuctionItemInfo>) {
    IndexedFrom(s, items) && s.listPacket == ClientPacket(items)
  }

  lemma {:induction false} FirstAtPrefix(items: seq<AuctionItemInfo>, i: nat, id: int64)
    requires i < |items|
    ensures FirstAt(items[..i + 1], id)
         == if FirstAt(items[..i], id).Some? then FirstAt(items[..i], id)
            else if items[i].listId == id then Some(i) else None
  {
    var shorter, longer := items[..i], items[..i + 1];
    assert longer == shorter + [items[i]];
    if FirstAt(longer, id).Some? {
      var at := FirstAt(longer, id).value;
      if at < i {
        assert longer[at] == shorter[at] && shorter[at] in shorter;
      }
    }
    if FirstAt(shorter, id).Some? {
      var at := FirstAt(shorter, id).value;
      assert longer[at] == shorter[at] && longer[at] in longer;
    } else if items[i].listId == id {
      assert longer[i] in longer;
    }
  }

  /** `emplace` leaves an id that is already there alone. */
  lemma IndexesNext(index: map<int64, nat>, items: seq<AuctionItemInfo>, i: nat)
    requires i < |items| && Indexes(index, items[..i])
    ensures Indexes(if items[i].listId in index then index else index[items[i].listId := i], items[..i + 1])
  {
    hide FirstAt;
    forall id: int64 ensures FirstAt(items[..i + 1], id)
         == if FirstAt(items[..i], id).Some? then FirstAt(items[..i], id)
            else if items[i].listId == id then Some(i) else None
    {
      FirstAtPrefix(items, i, id);
    }
  }

  lemma GreatestNext(bound: int64, items: seq<AuctionItemInfo>, i: nat)
    requires i < |items| && Greatest(bound, items[..i])
    ensures Greatest(if items[i].listId > bound then items[i].listId else bound, items[..i + 1])
  {
    assert items[..i + 1] == items[..i] + [items[i]];
  }

  method BuildClientPacket(items: seq<AuctionItemInfo>) returns (listPacket: Option<Bytes>)
    ensures listPacket == ClientPacket(items)
  {
    var n := if |items| < CLIENT_LIST_MAX then |items| else CLIENT_LIST_MAX;
    var itemlist: seq<AuctionItemInfo> := [];
    for i := 0 to n
      invariant itemlist == items[..i]
    {
      itemlist := itemlist + [items[i]];
    }
    assert |items| <= CLIENT_LIST_MAX ==> itemlist == items;
    var size := ClientListSize(itemlist, false);
    if size > SHRT_MAX { return None; }
    return Some(ClientListBytes(itemlist, false));
  }

  method BuildSnapshot(listinfo: seq<AuctionItemInfo>, now: int) returns (s: Snapshot)
    ensures BuiltFrom(s, listinfo) && s.fetchedAt == now
  {
    var items: seq<AuctionItemInfo> := [];
    for i := 0 to |listinfo|
      invariant items == listinfo[..i]
    {
      items := items + [listinfo[i]];
    }
    assert items == listinfo;
    var index: map<int64, nat> := map[];
    var maxListId: int64 := 0;
    for i := 0 to |items|
      invariant Indexes(index, items[..i]) && Greatest(maxListId, items[..i])
    {
      var id := items[i].listId;
      IndexesNext(index, items, i);
      GreatestNext(maxListId, items, i);
      if id !in index { index := index[id := i]; }
      if id > maxListId { maxListId := id; }
    }
    assert items[..|items|] == items;
    var packet := BuildClientPacket(items);
    s := Snapshot(items, index, packet, maxListId, now);
  }

  // ---------------------------------------------------------------------------------------
  //  Judging a purchase
  // ---------------------------------------------------------------------------------------

  /** The verdict of a fresh snapshot, by hash lookup. */
  function Judge(s: Snapshot, listId: int64, count: int64, buyerId: int64): Verdict
    requires Indexes(s.index, s.items)
  {
    if listId !in s.index then
      if listId > s.maxListId then Unknown else RejectNotFound
    else
      var item := s.items[s.index[listId]];
      if count <= 0 || count > item.count then RejectShortage
      else if item.playerId == buyerId then RejectOwn
      else Pass
  }

  /** The same verdict by scanning the list: the first item with the id decides, and without
      one the id is refused when nothing listed comes after it. */
  function ScanVerdict(items: seq<AuctionItemInfo>, listId: int64, count: int64, buyerId: int64): Verdict {
    match FirstAt(items, listId)
    case None => if listId <= 0 || exists item <- items :: listId < item.listId then RejectNotFound else Unknown
    case Some(i) =>
      if count <= 0 || count > items[i].count then RejectShortage
      else if items[i].playerId == buyerId then RejectOwn
      else Pass
  }

  lemma IndexRefinesScan(s: Snapshot, items: seq<AuctionItemInfo>, listId: int64, count: int64, buyerId: int64)
    requires IndexedFrom(s, items)
    ensures Judge(s, listId, count, buyerId) == ScanVerdict(items, listId, count, buyerId)
  {
    if listId !in s.index && 0 < listId <= s.maxListId {
      var item :| item in items && item.listId == s.maxListId;
      assert listId != item.listId;
    }
  }

  // ---------------------------------------------------------------------------------------
  //  Refusals stay right
  // ---------------------------------------------------------------------------------------

  /** A listing on the page is safe to refuse by what is read of it: its stock is not beyond 32
      bits, and if the stock read is positive, its seller fits 32 bits. */
  predicate ReadsRight(row: Listing) {
    row.remaining <= INT_MAX && (ToInt32(row.remaining) >= 1 ==> IsInt32(row.sellerId))
  }

  /** Some count of it can be bought by someone, whatever is read of the stock. */
  predicate Sellable(row: Listing, now: int) {
    row.expiresAt > now && (row.remaining > 1 || ToInt32(row.remaining) >= 1)
  }

  /** What refusals of one listing need: if it is on the page under its own id, its row reads
      right; if a connection has left it open and it can be sold, everything on the page comes before it. */
  ghost predicate RefusedRight(d: Database, now: int, id: int) {
    && (IsInt32(id) && id in PageIds(d.tables, now) && id in d.tables.listings ==> ReadsRight(d.tables.listings[id]))
    && (forall c :: 0 <= c < |d.conns| && id in d.conns[c].open && Sellable(d.conns[c].open[id], now) ==>
          forall listed <- PageIds(d.tables, now) :: listed < id)
  }

  /** The row can no longer be bought with these arguments, whatever happens from `now` on. */
  predicate NoSale(row: Listing, now: int, count: int64, buyerId: int64) {
    || count <= 0
    || row.expiresAt <= now
    || row.sellerId == buyerId
    || (row.remaining <= INT_MAX && ToInt32(row.remaining) < count)
  }

  /** The same for the listing, committed or left open. */
  ghost predicate Hopeless(d: Database, now: int, listId: int64, count: int64, buyerId: int64) {
    forall row :: Occurs(d, listId, row) ==> NoSale(row, now, count, buyerId)
  }

  /** Entry by entry, the public list shows the rows of the page. An id beyond 32 bits is shown
      as something smaller. */
  lemma PublicListEntries(d: Database, now: int, show: int -> Bytes)
    requires Proper(d)
    ensures var ids, items := PageIds(d.tables, now), PublicList(d.tables, now, show);
      && |items| == |ids|
      && forall i :: 0 <= i < |ids| ==>
           && ids[i] in ids && ids[i] in d.tables.listings && 1 <= ids[i] < d.nextListing
           && items[i] == ItemOf(ids[i], d.tables.listings[ids[i]], show)
           && items[i].listId <= ids[i] && (IsInt32(ids[i]) <==> items[i].listId == ids[i])
  {
    PageIsPrefix(d.tables, now);
    var ids := PageIds(d.tables, now);
    assert forall i :: 0 <= i < |ids| ==> ids[i] in ids;
  }

  /** Searching the public list for an id: one on the page that fits 32 bits is found, with its
      own row; a wider one is not; and what is found for an id that is not on the page is a
      wider id, which comes after it. */
  lemma FirstOnPage(d: Database, now: int, show: int -> Bytes, id: int64)
    requires Proper(d)
    ensures var items, ids := PublicList(d.tables, now, show), PageIds(d.tables, now);
      var first := FirstAt(items, id);
      && (id in ids ==> id in d.tables.listings && (first.Some? <==> IsInt32(id)))
      && (id in ids && first.Some? ==> items[first.value] == ItemOf(id, d.tables.listings[id], show))
      && (id !in ids && first.Some? ==> exists listed <- ids :: id < listed && !IsInt32(listed))
  {
    hide PageIds;
    hide PublicList;
    var ids := PageIds(d.tables, now);
    var items := PublicList(d.tables, now, show);
    PageIsPrefix(d.tables, now);
    PublicListEntries(d, now, show);
    var first := FirstAt(items, id);
    hide FirstAt;
    if id in ids {
      var k :| 0 <= k < |ids| && ids[k] == id;
      assert items[k] in items;
      if first.Some? {
        assert IsInt32(items[first.value].listId);
        assert first.value <= k && ids[first.value] <= id;
      }
    } else if first.Some? {
      assert id < ids[first.value] && ids[first.value] in ids && !IsInt32(ids[first.value]);
    }
  }

  /** An id that is not on the page although something shown after it is was not for sale. */
  lemma AbsentIsNotForSale(d: Database, now: int, show: int -> Bytes, listId: int64)
    requires Proper(d) && listId !in PageIds(d.tables, now)
    requires listId <= 0 || exists item <- PublicList(d.tables, now, show) :: listId < item.listId
    ensures listId < d.nextListing && !Unexpired(d.tables, listId, now)
    ensures 0 < listId ==> exists listed <- PageIds(d.tables, now) :: listId < listed
  {
    hide PageIds;
    hide PublicList;
    var ids := PageIds(d.tables, now);
    var items := PublicList(d.tables, now, show);
    PageIsPrefix(d.tables, now);
    PublicListEntries(d, now, show);
    if 0 < listId {
      var item :| item in items && listId < item.listId;
      var k :| 0 <= k < |items| && items[k] == item;
      assert ids[k] in ids && listId < ids[k];
    }
  }

  /** What is refused is on the page, found there by its own row, or is not for sale. */
  lemma RefusedIsListedOrBehind(d: Database, now: int, show: int -> Bytes, listId: int64, count: int64, buyerId: int64)
    requires Proper(d) && Rejects(ScanVerdict(PublicList(d.tables, now, show), listId, count, buyerId))
    ensures listId < d.nextListing
    ensures listId in PageIds(d.tables, now) ==>
      && FirstAt(PublicList(d.tables, now, show), listId).Some? && listId in d.tables.listings
    ensures listId !in PageIds(d.tables, now) ==>
      && !Unexpired(d.tables, listId, now)
      && (0 < listId ==> exists listed <- PageIds(d.tables, now) :: listId < listed)
  {
    hide PageIds;
    hide PublicList;
    var ids := PageIds(d.tables, now);
    var items := PublicList(d.tables, now, show);
    FirstOnPage(d, now, show, listId);
    PublicListEntries(d, now, show);
    PageIsPrefix(d.tables, now);
    if listId !in ids && FirstAt(items, listId).None? {
      AbsentIsNotForSale(d, now, show, listId);
    }
  }

  /** What a fresh snapshot of the page says of a listing on it, from the tables. */
  lemma VerdictOfListed(d: Database, now: int, show: int -> Bytes, listId: int64, count: int64, buyerId: int64)
    requires Proper(d) && listId in PageIds(d.tables, now) && IsInt32(listId)
    ensures listId in d.tables.listings
    ensures var row := d.tables.listings[listId];
      var verdict := ScanVerdict(PublicList(d.tables, now, show), listId, count, buyerId);
      IsInt32(row.remaining) && IsInt32(row.sellerId) ==>
        verdict == if count <= 0 || row.remaining < count then RejectShortage
                   else if row.sellerId == buyerId then RejectOwn
                   else Pass
  {
    hide PageIds;
    hide PublicList;
    FirstOnPage(d, now, show, listId);
    hide FirstAt;
  }

  /** And of an id that is not on it: whether something on the page comes after. */
  lemma VerdictOfAbsent(d: Database, now: int, show: int -> Bytes, listId: int64, count: int64, buyerId: int64)
    requires Proper(d) && d.nextListing <= TWO_31 && listId !in PageIds(d.tables, now)
    ensures ScanVerdict(PublicList(d.tables, now, show), listId, count, buyerId)
         == if listId <= 0 || exists id <- PageIds(d.tables, now) :: listId < id then RejectNotFound else Unknown
  {
    hide PageIds;
    hide PublicList;
    var ids, items := PageIds(d.tables, now), PublicList(d.tables, now, show);
    FirstOnPage(d, now, show, listId);
    PublicListEntries(d, now, show);
    assert FirstAt(items, listId).None?;
    hide FirstAt;
    hide ItemOf;
    if listed :| listed in ids && listId < listed {
      var k :| 0 <= k < |ids| && ids[k] == listed;
      assert items[k] in items && IsInt32(ids[k]);
    }
    if item :| item in items && listId < item.listId {
      var k :| 0 <= k < |items| && items[k] == item;
      assert ids[k] in ids;
    }
  }

  /** A refusal by a snapshot of the page at `now` means the purchase was hopeless then. */
  lemma RefusalMeansHopeless(d: Database, now: int, show: int -> Bytes, listId: int64, count: int64, buyerId: int64)
    requires Proper(d) && RefusedRight(d, now, listId)
    requires Rejects(ScanVerdict(PublicList(d.tables, now, show), listId, count, buyerId))
    ensures listId < d.nextListing && Hopeless(d, now, listId, count, buyerId)
  {
    hide PageIds;
    hide PublicList;
    FirstOnPage(d, now, show, listId);
    RefusedIsListedOrBehind(d, now, show, listId, count, buyerId);
    forall row | Occurs(d, listId, row) ensures NoSale(row, now, count, buyerId) {
      if listId in PageIds(d.tables, now) {
        assert forall c <- d.conns :: listId !in c.open;
      } else if !(listId in d.tables.listings && d.tables.listings[listId] == row) {
        var conn :| conn in d.conns && listId in conn.open && conn.open[listId] == row;
        var c :| 0 <= c < |d.conns| && d.conns[c] == conn;
        assert !Sellable(d.conns[c].open[listId], now);
      }
    }
  }

  /** A row that cannot be bought stays so when it shrinks. */
  lemma NoSaleStays(before: Listing, after: Listing, now: int, count: int64, buyerId: int64)
    requires NoSale(before, now, count, buyerId) && Shrunk(before, after)
    ensures NoSale(after, now, count, buyerId)
  {
  }

  /** Hopeless stays hopeless over every run, on every connection. */
  lemma StaysHopeless(d: Database, now: int, events: seq<Event>, c: nat,
                      info: AuctionItemInfo, later: int, foundRows: bool)
    requires Proper(d) && info.listId < d.nextListing && now <= later && c < |Run(d, events).conns|
    requires Hopeless(d, now, info.listId, info.count, info.playerId)
    ensures !Buyable(Seen(Run(d, events), c), info, later, foundRows)
    ensures !Buyable(Run(d, events).tables, info, later, foundRows)
  {
    var r := Run(d, events);
    assert r.conns[c] in r.conns;
    if info.listId in r.tables.listings {
      var row := r.tables.listings[info.listId];
      var before := RunShrinks(d, events, info.listId, row);
      NoSaleStays(before, row, now, info.count, info.playerId);
    }
    if info.listId in r.conns[c].open {
      var row := r.conns[c].open[info.listId];
      var before := RunShrinks(d, events, info.listId, row);
      NoSaleStays(before, row, now, info.count, info.playerId);
    }
  }

  /** Every refusal is sound: a snapshot of the public list, however old it is by now, refuses
      only purchases that the auction server would fail too, on any connection, after any
      registrations and purchases in between and with any faults, as long as the clock does not
      go back. */
  lemma RefusalIsSound(d: Database, now: int, show: int -> Bytes, s: Snapshot, events: seq<Event>, c: nat,
                       info: AuctionItemInfo, envs: nat -> Env, foundRows: bool)
    requires Proper(d) && RefusedRight(d, now, info.listId)
    requires IndexedFrom(s, PublicList(d.tables, now, show))
    requires c < |Run(d, events).conns| && forall k: nat :: now <= envs(k).now
    requires Rejects(Judge(s, info.listId, info.count, info.playerId))
    ensures !PurchaseOutcome(View(Run(d, events), c), info, envs, foundRows).success
  {
    hide PurchaseOutcome;
    IndexRefinesScan(s, PublicList(d.tables, now, show), info.listId, info.count, info.playerId);
    RefusalMeansHopeless(d, now, show, info.listId, info.count, info.playerId);
    var later := View(Run(d, events), c);
    SucceedsExactlyWhen(later, info, envs, foundRows);
    forall k | 1 <= k <= 3 ensures !Buyable(WorkedOn(later, 1, k), info, envs(k).now, foundRows) {
      StaysHopeless(d, now, events, c, info, envs(k).now, foundRows);
    }
  }

  /** The same through the wire: the auction server's reply to the cache is parsed back to the
      list it sent, and a snapshot built from what was parsed refuses soundly. With at most 200
      bytes of text for a time it also has a packet for the clients. */
  lemma RefusalIsSoundOverTheWire(d: Database, now: int, show: int -> Bytes, requestId: int32, received: AuctionList,
                                  s: Snapshot, events: seq<Event>, c: nat,
                                  info: AuctionItemInfo, envs: nat -> Env, foundRows: bool)
    requires Proper(d) && RefusedRight(d, now, info.listId)
    requires forall item <- PublicList(d.tables, now, show) :: ValidUtf8(item.expiredAt) && ItemSize(item) <= INT_MAX
    requires var sent := AuctionList(0, requestId, PublicList(d.tables, now, show), false);
      ParseList(DEFAULT_LIST, ListBytes(sent)) == Some(received)
    requires BuiltFrom(s, received.listinfo)
    requires c < |Run(d, events).conns| && forall k: nat :: now <= envs(k).now
    requires Rejects(Judge(s, info.listId, info.count, info.playerId))
    ensures received.requestId == requestId && received.listinfo == PublicList(d.tables, now, show)
    ensures (forall time :: |show(time)| <= 200) ==> s.listPacket.Some?
    ensures !PurchaseOutcome(View(Run(d, events), c), info, envs, foundRows).success
  {
    hide PurchaseOutcome;
    hide ParseList;
    hide ListBytes;
    hide ValidUtf8;
    hide ItemSize;
    var items := PublicList(d.tables, now, show);
    ListRoundTrip(AuctionList(0, requestId, items, false));
    RefusalIsSound(d, now, show, s, events, c, info, envs, foundRows);
    if forall time :: |show(time)| <= 200 {
      forall item <- items ensures |item.expiredAt| <= 200 {
        var i :| 0 <= i < |items| && items[i] == item;
      }
      PacketIsBuilt(items);
    }
  }

  /** The prepared packet reads back as the first hundred items. */
  lemma PacketCarriesItems(items: seq<AuctionItemInfo>)
    requires Fits(items) && AllUtf8(items) && ClientPacket(items).Some?
    ensures ParseClientList(DEFAULT_CLIENT_LIST, ClientPacket(items).value)
         == Some(ClientList(if |items| <= 100 then items else items[..100], false))
  {
    hide ItemSize;
    hide ValidUtf8;
    hide ParseClientList;
    hide ClientListBytes;
    var first := if |items| <= 100 then items else items[..100];
    assert forall item <- first :: item in items;
    ClientRoundTrip(first, false);
  }

  /** With at most 200 bytes of expiry text per item the size refusal is never taken. */
  lemma PacketIsBuilt(items: seq<AuctionItemInfo>)
    requires forall item <- items :: |item.expiredAt| <= 200
    ensures ClientPacket(items).Some?
  {
    ClientPacketFits(if |items| <= CLIENT_LIST_MAX then items else items[..CLIENT_LIST_MAX], false);
  }

  // ---------------------------------------------------------------------------------------
  //  Exactly when refusals are right
  // ---------------------------------------------------------------------------------------

  /** Whatever a snapshot of the page refuses of one listing, no connection could sell to
      anyone, whatever the character rows hold. */
  ghost predicate RefusalsRight(d: Database, now: int, show: int -> Bytes, listId: int64) {
    forall c, count: int64, buyerId: int64, rows, foundRows ::
      0 <= c < |d.conns| && Rejects(ScanVerdict(PublicList(d.tables, now, show), listId, count, buyerId)) ==>
        !Buyable(Seen(d, c).(characters := rows), Asking(listId, count, buyerId), now, foundRows)
  }

  lemma RefusedRightSuffices(d: Database, now: int, show: int -> Bytes, listId: int64)
    requires Proper(d) && RefusedRight(d, now, listId)
    ensures RefusalsRight(d, now, show, listId)
  {
    forall c, count: int64, buyerId: int64, rows, foundRows |
      0 <= c < |d.conns| && Rejects(ScanVerdict(PublicList(d.tables, now, show), listId, count, buyerId))
      ensures !Buyable(Seen(d, c).(characters := rows), Asking(listId, count, buyerId), now, foundRows)
    {
      RefusalMeansHopeless(d, now, show, listId, count, buyerId);
      HopelessNow(d, now, c, listId, count, buyerId, rows, foundRows);
    }
  }

  /** The condition on a listing is exact, as long as ids are shown as they are: for any listing
      that fails it, some refusal is wrong. */
  lemma RefusalsRightExactlyWhen(d: Database, now: int, show: int -> Bytes, listId: int64)
    requires Proper(d) && d.nextListing <= TWO_31 && |d.conns| > 0
    ensures RefusalsRight(d, now, show, listId) <==> RefusedRight(d, now, listId)
  {
    var ids := PageIds(d.tables, now);
    if RefusedRight(d, now, listId) {
      RefusedRightSuffices(d, now, show, listId);
    } else if listId in ids && listId in d.tables.listings && !ReadsRight(d.tables.listings[listId]) {
      WrongRefusalOfListed(d, now, show, listId);
    } else {
      var c, listed :| 0 <= c < |d.conns| && listId in d.conns[c].open && Sellable(d.conns[c].open[listId], now)
                       && listed in ids && listId <= listed;
      WrongRefusalOfOpen(d, now, show, c, listId, listed);
    }
  }

  lemma HopelessNow(d: Database, now: int, c: nat, listId: int64, count: int64, buyerId: int64,
                    rows: seq<Character>, foundRows: bool)
    requires Hopeless(d, now, listId, count, buyerId) && c < |d.conns|
    ensures !Buyable(Seen(d, c).(characters := rows), Asking(listId, count, buyerId), now, foundRows)
  {
    assert d.conns[c] in d.conns;
    var t := Seen(d, c);
    if listId in t.listings {
      assert Occurs(d, listId, t.listings[listId]);
    }
  }

  /** A count of the row and a buyer, and a character row that can pay. */
  lemma AnyoneCanPay(t: Tables, info: AuctionItemInfo, now: int) returns (rows: seq<Character>)
    requires info.count > 0 && Unexpired(t, info.listId, now) && t.listings[info.listId].sellerId != info.playerId
    requires ReadStock(t, info) == info.count || t.listings[info.listId].remaining > info.count
    ensures Buyable(t.(characters := rows), info, now, true)
  {
    var total := Total(t, info);
    rows := [Character(info.playerId, if total < 0 then 0 else total)];
    assert Total(t.(characters := rows), info) == total;
    assert PayingRows(rows, info.playerId, total) == 1;
  }

  lemma WrongRefusalOfListed(d: Database, now: int, show: int -> Bytes, id: int64)
    requires Proper(d) && d.nextListing <= TWO_31 && |d.conns| > 0
    requires id in PageIds(d.tables, now) && id in d.tables.listings && !ReadsRight(d.tables.listings[id])
    ensures !RefusalsRight(d, now, show, id)
  {
    PageIsPrefix(d.tables, now);
    hide PageIds;
    hide PublicList;
    FirstOnPage(d, now, show, id);
    var row := d.tables.listings[id];
    var read: int := ToInt32(row.remaining);
    var count: int64, buyer: int64;
    if row.remaining > INT_MAX {
      count := if read > 0 then read + 1 else 1;
      buyer := if row.sellerId == 0 then 1 else 0;
    } else {
      count := read;
      buyer := ToInt32(row.sellerId);
    }
    assert row.remaining <= INT_MAX || row.remaining > count;
    assert d.conns[0] in d.conns;
    var t := Seen(d, 0);
    var info := Asking(id, count, buyer);
    assert t.listings[id] == row && Unexpired(t, id, now);
    var rows := AnyoneCanPay(t, info, now);
  }

  lemma WrongRefusalOfOpen(d: Database, now: int, show: int -> Bytes, c: nat, id: int64, listed: int)
    requires Proper(d) && d.nextListing <= TWO_31
    requires c < |d.conns| && id in d.conns[c].open && Sellable(d.conns[c].open[id], now)
    requires listed in PageIds(d.tables, now) && id <= listed
    ensures !RefusalsRight(d, now, show, id)
  {
    PageIsPrefix(d.tables, now);
    hide PageIds;
    hide PublicList;
    assert d.conns[c] in d.conns;
    FirstOnPage(d, now, show, id);
    FirstOnPage(d, now, show, listed);
    var items := PublicList(d.tables, now, show);
    assert items[FirstAt(items, listed).value].listId == listed;
    var row := d.conns[c].open[id];
    var read := ToInt32(row.remaining);
    var count: int64 := if read >= 1 then read else 1;
    var buyer: int64 := if row.sellerId == 0 then 1 else 0;
    var info := Asking(id, count, buyer);
    var rows := AnyoneCanPay(Seen(d, c), info, now);
  }

  const WIDE_SELLER: int64 := TWO_32 + 7
  const WIDE_DATABASE := Database(
    Tables(map[1 := Listing(WIDE_SELLER, 1, 5, 10, 100)], [Character(7, 1000)], [], []), 2, [Conn(true, map[])])

  /** Player 7 is refused as the owner of a listing whose seller merely ends in the same 32
      bits, while the auction server would have sold it. */
  lemma WideSellerIsRefusedWrongly(show: int -> Bytes, s: Snapshot, envs: nat -> Env)
    requires IndexedFrom(s, PublicList(WIDE_DATABASE.tables, 0, show))
    requires NoFault(envs(1)) && envs(1).now == 0
    ensures Judge(s, 1, 1, 7) == RejectOwn
    ensures PurchaseOutcome(View(WIDE_DATABASE, 0), Asking(1, 1, 7), envs, false).success
  {
    hide PurchaseOutcome;
    WideSellerVerdict(show, s);
    WideSellerSells();
    SucceedsExactlyWhen(View(WIDE_DATABASE, 0), Asking(1, 1, 7), envs, false);
  }

  lemma WideSellerSells()
    ensures Buyable(Seen(WIDE_DATABASE, 0), Asking(1, 1, 7), 0, false)
  {
    var t := Seen(WIDE_DATABASE, 0);
    var info := Asking(1, 1, 7);
    assert t.listings == WIDE_DATABASE.tables.listings;
    assert Total(t, info) == 10;
    assert PayingRows(t.characters, 7, 10) == 1;
  }

  lemma WideSellerIsListed()
    ensures 1 in PageIds(WIDE_DATABASE.tables, 0)
  {
    assert UnexpiredIds(WIDE_DATABASE.tables, 0) == {1};
    var all := Ordered({1});
    hide Ordered;
    assert 1 in all && |all| == 1;
  }

  lemma WideSellerVerdict(show: int -> Bytes, s: Snapshot)
    requires IndexedFrom(s, PublicList(WIDE_DATABASE.tables, 0, show))
    ensures Judge(s, 1, 1, 7) == RejectOwn
  {
    hide PageIds;
    hide PublicList;
    hide FirstAt;
    hide Judge;
    var d := WIDE_DATABASE;
    var items := PublicList(d.tables, 0, show);
    WideSellerIsListed();
    FirstOnPage(d, 0, show, 1);
    IndexRefinesScan(s, items, 1, 1, 7);
    hide IndexedFrom;
    WideRow(show);
    hide ItemOf;
    assert FirstAt(items, 1).Some?;
  }

  lemma WideRow(show: int -> Bytes)
    ensures 1 in WIDE_DATABASE.tables.listings
    ensures var item := ItemOf(1, WIDE_DATABASE.tables.listings[1], show);
      item.playerId == 7 && item.count == 5
  {
    assert ToInt32(WIDE_SELLER) == 7;
  }
}

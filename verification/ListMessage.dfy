/** The two list messages: `RES_AUCTION_LIST` between the servers, and the smaller
    `RES_AUCTION_LIST` the game server sends on to its clients. */
module ListMessage {
  import opened Machine
  import opened WireFormat
  import opened Utf8
  import opened ItemMessage

  datatype AuctionList = AuctionList(sessionId: int64, requestId: int32, listinfo: seq<AuctionItemInfo>, mylist: bool)

  const DEFAULT_LIST := AuctionList(0, 0, [], false)

  /** Every nested message is within the 2 GiB a length may announce. */
  predicate Fits(items: seq<AuctionItemInfo>) {
    forall item <- items :: ItemSize(item) <= INT_MAX
  }

  predicate AllUtf8(items: seq<AuctionItemInfo>) {
    forall item <- items :: ValidUtf8(item.expiredAt)
  }

  // ---------------------------------------------------------------------------------------
  //  The codec as functions
  // ---------------------------------------------------------------------------------------

  function Flag(b: bool): int64 {
    if b then 1 else 0
  }

  function ItemsBytes(tag: byte, items: seq<AuctionItemInfo>): Bytes {
    if items == [] then [] else LengthField(tag, ItemBytes(items[0])) + ItemsBytes(tag, items[1..])
  }

  function ListBytes(m: AuctionList): Bytes {
    VarintField(8, m.sessionId) + (VarintField(16, m.requestId)
    + (ItemsBytes(26, m.listinfo) + VarintField(32, Flag(m.mylist))))
  }

  /** The length prefix and body of every item; the tags are counted apart. */
  function MessagesSize(items: seq<AuctionItemInfo>): nat {
    if items == [] then 0
    else VarintSize(ItemSize(items[0])) + ItemSize(items[0]) + MessagesSize(items[1..])
  }

  function ListSize(m: AuctionList): nat {
    |m.listinfo| + MessagesSize(m.listinfo)
    + VarintFieldSize(m.sessionId) + VarintFieldSize(m.requestId) + VarintFieldSize(Flag(m.mylist))
  }

  function ApplyList(m: AuctionList, r: Record): Option<AuctionList> {
    match r.tag
    case 8 => Some(m.(sessionId := ToInt64(r.number)))
    case 16 => Some(m.(requestId := ToInt32(r.number)))
    case 26 => (
      match ParseItem(DEFAULT_ITEM, r.body)
      case None => None
      case Some(item) => Some(m.(listinfo := m.listinfo + [item])))
    case 32 => Some(m.(mylist := r.number != 0))
    case _ => Some(m)
  }

  function ParseList(m: AuctionList, b: Bytes): Option<AuctionList> {
    ParseRecords(ApplyList, m, b)
  }

  function MergeList(into: AuctionList, from: AuctionList): AuctionList {
    AuctionList(
      if from.sessionId != 0 then from.sessionId else into.sessionId,
      if from.requestId != 0 then from.requestId else into.requestId,
      into.listinfo + from.listinfo,
      from.mylist || into.mylist)
  }

  // ---------------------------------------------------------------------------------------
  //  Round trip, size and merge
  // ---------------------------------------------------------------------------------------

  lemma {:induction false} ItemsBytesLength(tag: byte, items: seq<AuctionItemInfo>)
    ensures |ItemsBytes(tag, items)| == |items| + MessagesSize(items)
  {
    if items != [] {
      ItemBytesLength(items[0]);
      ItemsBytesLength(tag, items[1..]);
    }
  }

  /** The bytes written number exactly what the size function says. */
  lemma ListBytesLength(m: AuctionList)
    ensures |ListBytes(m)| == ListSize(m)
  {
    ItemsBytesLength(26, m.listinfo);
  }

  lemma CastBack32(x: int32)
    ensures ToInt32(ToUint64(x)) == x
  {
    if x < 0 {
      assert (x + TWO_64 + TWO_31) % TWO_32 == x + TWO_31;
    }
  }

  /** `m` after the parser met the varint field `tag` with value `v`, written only if not 0. */
  function Put(m: AuctionList, tag: byte, v: int64): AuctionList {
    if v == 0 || tag == 26 then m else ApplyList(m, Record(tag, ToUint64(v), [], 0)).value
  }

  lemma ParseVarintField(m: AuctionList, tag: byte, v: int64, rest: Bytes)
    requires 8 <= tag < 128 && tag % 8 == 0
    ensures ParseList(m, VarintField(tag, v) + rest) == ParseList(Put(m, tag, v), rest)
  {
    if v == 0 {
      assert VarintField(tag, v) + rest == rest;
    } else {
      hide ReadRecord;
      hide ParseRecords;
      ReadVarintField(tag, v, rest);
      ParseOne(ApplyList, m, VarintField(tag, v), rest, Record(tag, ToUint64(v), [], |VarintField(tag, v)|));
    }
  }

  lemma ParseItemField(m: AuctionList, item: AuctionItemInfo, rest: Bytes)
    requires ItemSize(item) <= INT_MAX
    ensures ParseList(m, LengthField(26, ItemBytes(item)) + rest)
         == if ValidUtf8(item.expiredAt) then ParseList(m.(listinfo := m.listinfo + [item]), rest) else None
  {
    hide ValidUtf8;
    hide ReadRecord;
    hide ParseRecords;
    hide ParseItem;
    var body := ItemBytes(item);
    ItemBytesLength(item);
    ParseItemBytes(DEFAULT_ITEM, item);
    ReadLengthField(26, body, rest);
    ParseOne(ApplyList, m, LengthField(26, body), rest, Record(26, 0, body, |LengthField(26, body)|));
  }

  lemma {:induction false} ParseItems(m: AuctionList, items: seq<AuctionItemInfo>, rest: Bytes)
    requires Fits(items)
    ensures ParseList(m, ItemsBytes(26, items) + rest)
         == if AllUtf8(items) then ParseList(m.(listinfo := m.listinfo + items), rest) else None
    decreases |items|
  {
    hide ParseList;
    hide ItemBytes;
    hide ValidUtf8;
    if items == [] {
      assert ItemsBytes(26, items) + rest == rest;
      assert m.listinfo + items == m.listinfo;
    } else {
      var field := LengthField(26, ItemBytes(items[0]));
      var tail := ItemsBytes(26, items[1..]);
      Append(field, tail, rest);
      ParseItemField(m, items[0], tail + rest);
      ParseItems(m.(listinfo := m.listinfo + [items[0]]), items[1..], rest);
      assert m.listinfo + [items[0]] + items[1..] == m.listinfo + items;
      assert AllUtf8(items) <==> ValidUtf8(items[0].expiredAt) && AllUtf8(items[1..]) by {
        assert items == [items[0]] + items[1..];
      }
    }
  }

  /** Parsing the encoding of `from` on top of `m` is merging `from` into `m`, list entries
      appended in order, unless a string inside is not UTF-8. */
  lemma ParseListBytes(m: AuctionList, from: AuctionList)
    requires Fits(from.listinfo)
    ensures ParseList(m, ListBytes(from)) == if AllUtf8(from.listinfo) then Some(MergeList(m, from)) else None
  {
    hide VarintField;
    hide ItemsBytes;
    hide ParseList;
    var b3 := VarintField(32, Flag(from.mylist));
    var b2 := ItemsBytes(26, from.listinfo) + b3;
    var b1 := VarintField(16, from.requestId) + b2;
    var m1 := Put(m, 8, from.sessionId);
    var m2 := Put(m1, 16, from.requestId);
    var m3 := m2.(listinfo := m2.listinfo + from.listinfo);
    ParseVarintField(m, 8, from.sessionId, b1);
    ParseVarintField(m1, 16, from.requestId, b2);
    ParseItems(m2, from.listinfo, b3);
    ParseLast(m3, from.mylist);
    CastBack(from.sessionId);
    CastBack32(from.requestId);
  }

  lemma ParseLast(m: AuctionList, flag: bool)
    ensures ParseList(m, VarintField(32, Flag(flag))) == Some(m.(mylist := flag || m.mylist))
  {
    assert VarintField(32, Flag(flag)) + [] == VarintField(32, Flag(flag));
    ParseVarintField(m, 32, Flag(flag), []);
  }

  /** Parsing undoes serializing for any list length and any field values; the exact
      condition is that every nested string is valid UTF-8. */
  lemma ListRoundTrip(m: AuctionList)
    requires Fits(m.listinfo)
    ensures ParseList(DEFAULT_LIST, ListBytes(m)) == Some(m) <==> AllUtf8(m.listinfo)
  {
    ParseListBytes(DEFAULT_LIST, m);
    assert [] + m.listinfo == m.listinfo;
  }

  /** Lists of texts come back: the round trip for strings that encode some. */
  lemma ListTextRoundTrip(m: AuctionList)
    requires Fits(m.listinfo)
    requires forall item <- m.listinfo :: exists text :: item.expiredAt == Encode(text)
    ensures ParseList(DEFAULT_LIST, ListBytes(m)) == Some(m)
  {
    forall item <- m.listinfo ensures ValidUtf8(item.expiredAt) {
      var text :| item.expiredAt == Encode(text);
      EncodedIsValid(text);
    }
    ListRoundTrip(m);
  }

  /** Fields with other numbers are skipped, whatever they hold. */
  lemma ListSkipsUnknown(m: AuctionList, tag: byte, v: int64, body: Bytes, rest: Bytes)
    requires 40 <= tag < 128 && |body| <= INT_MAX
    ensures tag % 8 == 0 && v != 0 ==> ParseList(m, VarintField(tag, v) + rest) == ParseList(m, rest)
    ensures tag % 8 == 2 ==> ParseList(m, LengthField(tag, body) + rest) == ParseList(m, rest)
  {
    hide ReadRecord;
    hide ParseRecords;
    hide ParseItem;
    if tag % 8 == 0 && v != 0 {
      ReadVarintField(tag, v, rest);
      ParseOne(ApplyList, m, VarintField(tag, v), rest, Record(tag, ToUint64(v), [], |VarintField(tag, v)|));
    }
    if tag % 8 == 2 {
      ReadLengthField(tag, body, rest);
      ParseOne(ApplyList, m, LengthField(tag, body), rest, Record(tag, 0, body, |LengthField(tag, body)|));
    }
  }

  /** The bytes of one list, written out: field numbers 1 to 4, the items under 3. */
  lemma ListExample()
    ensures ListBytes(AuctionList(5, 6, [DEFAULT_ITEM.(listId := 7)], true))
         == [0x08, 5, 0x10, 6, 0x1A, 2, 0x08, 7, 0x20, 1]
    ensures ClientListBytes([DEFAULT_ITEM.(listId := 7)], true) == [0x0A, 2, 0x08, 7, 0x10, 1]
  {
    var item := DEFAULT_ITEM.(listId := 7);
    assert ItemBytes(item) == [0x08, 7];
    assert [item][1..] == [];
    assert ItemsBytes(26, [item]) == [0x1A, 2, 0x08, 7];
    assert ItemsBytes(10, [item]) == [0x0A, 2, 0x08, 7];
  }

  /** Two encodings back to back parse as the merge of the two messages. */
  lemma ListConcatIsMerge(a: AuctionList, b: AuctionList)
    requires Fits(a.listinfo) && Fits(b.listinfo)
    requires AllUtf8(a.listinfo) && AllUtf8(b.listinfo)
    ensures ParseList(DEFAULT_LIST, ListBytes(a) + ListBytes(b)) == Some(MergeList(a, b))
  {
    hide ParseRecords;
    hide ListBytes;
    ParseListBytes(DEFAULT_LIST, a);
    assert [] + a.listinfo == a.listinfo;
    ParseConcat(ApplyList, DEFAULT_LIST, ListBytes(a), ListBytes(b));
    ParseListBytes(a, b);
  }

  // ---------------------------------------------------------------------------------------
  //  The message object of the server protocol
  // ---------------------------------------------------------------------------------------

  class AuctionListMessage {
    var sessionId: int64
    var requestId: int32
    var listinfo: seq<AuctionItemInfo>
    var mylist: bool

    function Value(): AuctionList
      reads this
    {
      AuctionList(sessionId, requestId, listinfo, mylist)
    }

    constructor ()
      ensures Value() == DEFAULT_LIST
    {
      sessionId, requestId, listinfo, mylist := 0, 0, [], false;
    }

    /** Appends a new item and parses `body` into it. */
    method AddListinfo(body: Bytes) returns (ok: bool)
      modifies this`listinfo
      ensures ok == ParseItem(DEFAULT_ITEM, body).Some?
      ensures ok ==> listinfo == old(listinfo) + [ParseItem(DEFAULT_ITEM, body).value]
    {
      var item := new AuctionItemMessage();
      ok := item.InternalParse(body);
      listinfo := listinfo + [item.Value()];
    }

    /** The parser keeps taking items in an inner loop for as long as the next byte is their
        tag; it computes what the plain record loop computes. */
    method InternalParse(b: Bytes) returns (ok: bool)
      modifies this
      ensures ok == ParseList(old(Value()), b).Some?
      ensures ok ==> Some(Value()) == ParseList(old(Value()), b)
    {
      hide ReadRecord;
      hide ReadPayload;
      hide ParseItem;
      var ptr := 0;
      while ptr < |b|
        invariant 0 <= ptr <= |b|
        invariant ParseList(Value(), b[ptr..]) == ParseList(old(Value()), b)
      {
        var next := ReadRecord(b[ptr..]);
        if next.None? { return false; }
        var r := next.value;
        assert b[ptr..][r.used..] == b[ptr + r.used..];
        match r.tag {
          case 8 => sessionId := ToInt64(r.number);
          case 16 => requestId := ToInt32(r.number);
          case 26 =>
            var added := AddListinfo(r.body);
            if !added { return false; }
          case 32 => mylist := r.number != 0;
          case _ =>
        }
        ptr := ptr + r.used;
        while r.tag == 26 && ptr < |b| && b[ptr] == 26
          invariant 0 <= ptr <= |b|
          invariant ParseList(Value(), b[ptr..]) == ParseList(old(Value()), b)
          decreases |b| - ptr
        {
          ReadOneByteTag(b[ptr..]);
          assert b[ptr..][1..] == b[ptr + 1..];
          var payload := ReadPayload(b[ptr + 1..]);
          if payload.None? { return false; }
          assert b[ptr..][1 + payload.value.used..] == b[ptr + 1 + payload.value.used..];
          var added := AddListinfo(payload.value.body);
          if !added { return false; }
          ptr := ptr + 1 + payload.value.used;
        }
      }
      return true;
    }

    method InternalSerialize(stream: OutputStream)
      modifies stream
      ensures stream.data == old(stream.data) + ListBytes(Value())
    {
      ghost var last := VarintField(32, Flag(mylist));
      ghost var items := ItemsBytes(26, listinfo) + last;
      Append(stream.data, VarintField(8, sessionId), VarintField(16, requestId) + items);
      stream.WriteVarintField(8, sessionId);
      Append(stream.data, VarintField(16, requestId), items);
      stream.WriteVarintField(16, requestId);
      Append(stream.data, ItemsBytes(26, listinfo), last);
      SerializeItems(stream);
      stream.WriteVarintField(32, Flag(mylist));
    }

    method SerializeItems(stream: OutputStream)
      modifies stream
      ensures stream.data == old(stream.data) + ItemsBytes(26, listinfo)
    {
      var i, n := 0, |listinfo|;
      while i < n
        invariant 0 <= i <= n
        invariant stream.data + ItemsBytes(26, listinfo[i..]) == old(stream.data) + ItemsBytes(26, listinfo)
      {
        ghost var body := ItemBytes(listinfo[i]);
        ghost var rest := ItemsBytes(26, listinfo[i + 1..]);
        assert listinfo[i..][1..] == listinfo[i + 1..];
        Append(stream.data, LengthField(26, body), rest);
        WriteMessage(stream, listinfo[i]);
        i := i + 1;
      }
    }

    /** InternalWriteMessage: tag, cached size, then the nested serializer. */
    method WriteMessage(stream: OutputStream, item: AuctionItemInfo)
      modifies stream
      ensures stream.data == old(stream.data) + LengthField(26, ItemBytes(item))
    {
      var message := new AuctionItemMessage.Of(item);
      var cachedSize := message.ByteSizeLong();
      Append(stream.data, [26], Varint(cachedSize));
      Append(stream.data, [26] + Varint(cachedSize), ItemBytes(item));
      stream.WriteByte(26);
      stream.WriteVarint(cachedSize);
      message.InternalSerialize(stream);
    }

    method ByteSizeLong() returns (totalSize: nat)
      ensures totalSize == |ListBytes(Value())|
    {
      totalSize := |listinfo|;
      var i := 0;
      while i < |listinfo|
        invariant 0 <= i <= |listinfo|
        invariant totalSize + MessagesSize(listinfo[i..]) == |listinfo| + MessagesSize(listinfo)
      {
        assert listinfo[i..][1..] == listinfo[i + 1..];
        totalSize := totalSize + (VarintSize(ItemSize(listinfo[i])) + ItemSize(listinfo[i]));
        i := i + 1;
      }
      if sessionId != 0 { totalSize := totalSize + 1 + VarintSize(ToUint64(sessionId)); }
      if requestId != 0 { totalSize := totalSize + 1 + VarintSize(ToUint64(requestId)); }
      if mylist { totalSize := totalSize + 1 + 1; }
      ListBytesLength(Value());
    }

    method MergeFrom(from: AuctionListMessage)
      requires from != this
      modifies this
      ensures Value() == MergeList(old(Value()), from.Value())
    {
      listinfo := listinfo + from.listinfo;
      if from.sessionId != 0 { sessionId := from.sessionId; }
      if from.requestId != 0 { requestId := from.requestId; }
      if from.mylist { mylist := from.mylist; }
    }
  }

  // ---------------------------------------------------------------------------------------
  //  The list packet for clients
  // ---------------------------------------------------------------------------------------

  const CLIENT_LIST_MAX: nat := 100

  function ClientListBytes(items: seq<AuctionItemInfo>, mylist: bool): Bytes {
    ItemsBytes(10, items) + VarintField(16, Flag(mylist))
  }

  /** `ByteSizeLong` of the client message. */
  method ClientListSize(items: seq<AuctionItemInfo>, mylist: bool) returns (totalSize: nat)
    ensures totalSize == |ClientListBytes(items, mylist)|
  {
    totalSize := |items|;
    var i := 0;
    while i < |items|
      invariant 0 <= i <= |items|
      invariant totalSize + MessagesSize(items[i..]) == |items| + MessagesSize(items)
    {
      assert items[i..][1..] == items[i + 1..];
      totalSize := totalSize + (VarintSize(ItemSize(items[i])) + ItemSize(items[i]));
      i := i + 1;
    }
    if mylist { totalSize := totalSize + 1 + 1; }
    ItemsBytesLength(10, items);
  }

  // How the client reads it.

  datatype ClientList = ClientList(itemlist: seq<AuctionItemInfo>, mylist: bool)

  const DEFAULT_CLIENT_LIST := ClientList([], false)

  function ApplyClientList(m: ClientList, r: Record): Option<ClientList> {
    match r.tag
    case 10 => (
      match ParseItem(DEFAULT_ITEM, r.body)
      case None => None
      case Some(item) => Some(m.(itemlist := m.itemlist + [item])))
    case 16 => Some(m.(mylist := r.number != 0))
    case _ => Some(m)
  }

  function ParseClientList(m: ClientList, b: Bytes): Option<ClientList> {
    ParseRecords(ApplyClientList, m, b)
  }

  lemma ParseClientItem(m: ClientList, item: AuctionItemInfo, rest: Bytes)
    requires ItemSize(item) <= INT_MAX && ValidUtf8(item.expiredAt)
    ensures ParseClientList(m, LengthField(10, ItemBytes(item)) + rest)
         == ParseClientList(m.(itemlist := m.itemlist + [item]), rest)
  {
    hide ValidUtf8;
    hide ReadRecord;
    hide ParseRecords;
    hide ParseItem;
    var body := ItemBytes(item);
    ItemBytesLength(item);
    ParseItemBytes(DEFAULT_ITEM, item);
    ReadLengthField(10, body, rest);
    ParseOne(ApplyClientList, m, LengthField(10, body), rest, Record(10, 0, body, |LengthField(10, body)|));
  }

  lemma {:induction false} ParseClientItems(m: ClientList, items: seq<AuctionItemInfo>, rest: Bytes)
    requires Fits(items) && AllUtf8(items)
    ensures ParseClientList(m, ItemsBytes(10, items) + rest)
         == ParseClientList(m.(itemlist := m.itemlist + items), rest)
    decreases |items|
  {
    hide ParseClientList;
    hide ItemBytes;
    hide ValidUtf8;
    if items == [] {
      assert ItemsBytes(10, items) + rest == rest;
      assert m.itemlist + items == m.itemlist;
    } else {
      var field := LengthField(10, ItemBytes(items[0]));
      var tail := ItemsBytes(10, items[1..]);
      Append(field, tail, rest);
      ParseClientItem(m, items[0], tail + rest);
      ParseClientItems(m.(itemlist := m.itemlist + [items[0]]), items[1..], rest);
      assert m.itemlist + [items[0]] + items[1..] == m.itemlist + items;
    }
  }

  /** The client reads back the items and the flag that were sent. */
  lemma ClientRoundTrip(items: seq<AuctionItemInfo>, mylist: bool)
    requires Fits(items) && AllUtf8(items)
    ensures ParseClientList(DEFAULT_CLIENT_LIST, ClientListBytes(items, mylist)) == Some(ClientList(items, mylist))
  {
    var last := VarintField(16, Flag(mylist));
    ParseClientItems(DEFAULT_CLIENT_LIST, items, last);
    assert [] + items == items;
    var m := ClientList(items, false);
    if mylist {
      hide ReadRecord;
      ReadVarintField(16, 1, []);
      assert last + [] == last;
      ParseOne(ApplyClientList, m, last, [], Record(16, 1, [], |last|));
    }
  }

  lemma {:induction false} MessagesSizeBound(items: seq<AuctionItemInfo>)
    requires forall item <- items :: |item.expiredAt| <= 200
    ensures MessagesSize(items) <= |items| * 271
  {
    if items != [] {
      hide ItemSize;
      ItemSizeBound(items[0], 200);
      MessagesSizeBound(items[1..]);
      assert VarintSize(ItemSize(items[0])) <= 2;
    }
  }

  /** A packet of at most a hundred items, each with at most 200 bytes of expiry text, never
      reaches the size that is refused, whatever the numbers in it. */
  lemma ClientPacketFits(items: seq<AuctionItemInfo>, mylist: bool)
    requires |items| <= CLIENT_LIST_MAX && forall item <- items :: |item.expiredAt| <= 200
    ensures |ClientListBytes(items, mylist)| <= SHRT_MAX
  {
    ItemsBytesLength(10, items);
    MessagesSizeBound(items);
  }
}

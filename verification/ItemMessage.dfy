/** The `AuctionItemInfo` message: six 64-bit integers and a string. */
module ItemMessage {
  import opened Machine
  import opened WireFormat
  import opened Utf8

  datatype AuctionItemInfo = AuctionItemInfo(
    listId: int64, playerId: int64, receiptType: int64, itemId: int64,
    count: int64, price: int64, expiredAt: Bytes)

  const DEFAULT_ITEM := AuctionItemInfo(0, 0, 0, 0, 0, 0, [])

  // ---------------------------------------------------------------------------------------
  //  The codec as functions
  // ---------------------------------------------------------------------------------------

  function StringField(tag: byte, s: Bytes): Bytes {
    if s == [] then [] else LengthField(tag, s)
  }

  /** The fields in the order the serializer writes them; defaults are left out. */
  function ItemBytes(m: AuctionItemInfo): Bytes {
    VarintField(8, m.listId) + (VarintField(16, m.playerId) + (VarintField(24, m.receiptType)
    + (VarintField(32, m.itemId) + (VarintField(40, m.count)
    + (VarintField(48, m.price) + StringField(58, m.expiredAt))))))
  }

  function ItemSize(m: AuctionItemInfo): nat {
    (if m.expiredAt == [] then 0 else LengthFieldSize(|m.expiredAt|))
    + VarintFieldSize(m.listId) + VarintFieldSize(m.playerId) + VarintFieldSize(m.receiptType)
    + VarintFieldSize(m.itemId) + VarintFieldSize(m.count) + VarintFieldSize(m.price)
  }

  /** One turn of the parser's switch. A record with another tag is skipped. */
  function ApplyItem(m: AuctionItemInfo, r: Record): Option<AuctionItemInfo> {
    match r.tag
    case 8 => Some(m.(listId := ToInt64(r.number)))
    case 16 => Some(m.(playerId := ToInt64(r.number)))
    case 24 => Some(m.(receiptType := ToInt64(r.number)))
    case 32 => Some(m.(itemId := ToInt64(r.number)))
    case 40 => Some(m.(count := ToInt64(r.number)))
    case 48 => Some(m.(price := ToInt64(r.number)))
    case 58 => if ValidUtf8(r.body) then Some(m.(expiredAt := r.body)) else None
    case _ => Some(m)
  }

  /** Parses `b` on top of the values `m` already has. */
  function ParseItem(m: AuctionItemInfo, b: Bytes): Option<AuctionItemInfo> {
    ParseRecords(ApplyItem, m, b)
  }

  /** Field by field, `from` wins where it holds something other than the default. */
  function MergeItem(into: AuctionItemInfo, from: AuctionItemInfo): AuctionItemInfo {
    AuctionItemInfo(
      if from.listId != 0 then from.listId else into.listId,
      if from.playerId != 0 then from.playerId else into.playerId,
      if from.receiptType != 0 then from.receiptType else into.receiptType,
      if from.itemId != 0 then from.itemId else into.itemId,
      if from.count != 0 then from.count else into.count,
      if from.price != 0 then from.price else into.price,
      if from.expiredAt != [] then from.expiredAt else into.expiredAt)
  }

  // ---------------------------------------------------------------------------------------
  //  Round trip, size and merge
  // ---------------------------------------------------------------------------------------

  lemma ItemBytesLength(m: AuctionItemInfo)
    ensures |ItemBytes(m)| == ItemSize(m)
  {
  }

  /** `m` after the parser met the varint field `tag` with value `v`, written only if not 0. */
  function Put(m: AuctionItemInfo, tag: byte, v: int64): AuctionItemInfo {
    if v == 0 || tag == 58 then m else ApplyItem(m, Record(tag, ToUint64(v), [], 0)).value
  }

  lemma ParseVarintField(m: AuctionItemInfo, tag: byte, v: int64, rest: Bytes)
    requires 8 <= tag < 128 && tag % 8 == 0
    ensures ParseItem(m, VarintField(tag, v) + rest) == ParseItem(Put(m, tag, v), rest)
  {
    if v == 0 {
      assert VarintField(tag, v) + rest == rest;
    } else {
      ReadVarintField(tag, v, rest);
      ParseOne(ApplyItem, m, VarintField(tag, v), rest, Record(tag, ToUint64(v), [], |VarintField(tag, v)|));
    }
  }

  lemma ParseStringField(m: AuctionItemInfo, s: Bytes, rest: Bytes)
    requires s != [] && |s| <= INT_MAX
    ensures ParseItem(m, LengthField(58, s) + rest)
         == if ValidUtf8(s) then ParseItem(m.(expiredAt := s), rest) else None
  {
    hide ValidUtf8;
    hide ReadRecord;
    hide ParseRecords;
    ReadLengthField(58, s, rest);
    ParseOne(ApplyItem, m, LengthField(58, s), rest, Record(58, 0, s, |LengthField(58, s)|));
  }

  /** Parsing the encoding of `from` on top of `m` merges `from` into `m` when its string is
      UTF-8, and is refused when it is not: the serializer writes such a string, the parser
      does not take it back. */
  lemma ParseItemBytes(m: AuctionItemInfo, from: AuctionItemInfo)
    requires |from.expiredAt| <= INT_MAX
    ensures ParseItem(m, ItemBytes(from)) == if ValidUtf8(from.expiredAt) then Some(MergeItem(m, from)) else None
  {
    hide VarintField;
    hide LengthField;
    var b6 := StringField(58, from.expiredAt);
    var b5 := VarintField(48, from.price) + b6;
    var b4 := VarintField(40, from.count) + b5;
    var b3 := VarintField(32, from.itemId) + b4;
    var b2 := VarintField(24, from.receiptType) + b3;
    var b1 := VarintField(16, from.playerId) + b2;
    var m1 := Put(m, 8, from.listId);
    var m2 := Put(m1, 16, from.playerId);
    var m3 := Put(m2, 24, from.receiptType);
    var m4 := Put(m3, 32, from.itemId);
    var m5 := Put(m4, 40, from.count);
    var m6 := Put(m5, 48, from.price);
    ParseVarintField(m, 8, from.listId, b1);
    ParseVarintField(m1, 16, from.playerId, b2);
    ParseVarintField(m2, 24, from.receiptType, b3);
    ParseVarintField(m3, 32, from.itemId, b4);
    ParseVarintField(m4, 40, from.count, b5);
    ParseVarintField(m5, 48, from.price, b6);
    if from.expiredAt != [] {
      ParseStringField(m6, from.expiredAt, []);
      assert b6 + [] == b6;
    }
    CastBack(from.listId);
    CastBack(from.playerId);
    CastBack(from.receiptType);
    CastBack(from.itemId);
    CastBack(from.count);
    CastBack(from.price);
  }

  /** Parsing undoes serializing exactly for the messages whose string is valid UTF-8. */
  lemma ItemRoundTrip(m: AuctionItemInfo)
    requires |m.expiredAt| <= INT_MAX
    ensures ParseItem(DEFAULT_ITEM, ItemBytes(m)) == Some(m) <==> ValidUtf8(m.expiredAt)
  {
    ParseItemBytes(DEFAULT_ITEM, m);
  }

  /** Any text comes back: the round trip for a string that encodes one. */
  lemma ItemTextRoundTrip(m: AuctionItemInfo, text: seq<Scalar>)
    requires m.expiredAt == Encode(text) && |m.expiredAt| <= INT_MAX
    ensures ParseItem(DEFAULT_ITEM, ItemBytes(m)) == Some(m)
  {
    ValidExactlyEncodings(m.expiredAt);
    ItemRoundTrip(m);
  }

  /** In particular every string of seven-bit bytes, such as a timestamp. */
  lemma ItemAsciiRoundTrip(m: AuctionItemInfo)
    requires |m.expiredAt| <= INT_MAX && forall b <- m.expiredAt :: b <= 0x7F
    ensures ParseItem(DEFAULT_ITEM, ItemBytes(m)) == Some(m)
  {
    AsciiIsValid(m.expiredAt);
    ItemRoundTrip(m);
  }

  /** Fields with other numbers are skipped, whatever they hold. */
  lemma ItemSkipsUnknown(m: AuctionItemInfo, tag: byte, v: int64, body: Bytes, rest: Bytes)
    requires 64 <= tag < 128 && |body| <= INT_MAX
    ensures tag % 8 == 0 && v != 0 ==> ParseItem(m, VarintField(tag, v) + rest) == ParseItem(m, rest)
    ensures tag % 8 == 2 ==> ParseItem(m, LengthField(tag, body) + rest) == ParseItem(m, rest)
  {
    hide ReadRecord;
    hide ParseRecords;
    if tag % 8 == 0 && v != 0 {
      ReadVarintField(tag, v, rest);
      ParseOne(ApplyItem, m, VarintField(tag, v), rest, Record(tag, ToUint64(v), [], |VarintField(tag, v)|));
    }
    if tag % 8 == 2 {
      ReadLengthField(tag, body, rest);
      ParseOne(ApplyItem, m, LengthField(tag, body), rest, Record(tag, 0, body, |LengthField(tag, body)|));
    }
  }

  /** The bytes of one message, written out: field numbers 1 to 7 in order. */
  lemma ItemExample()
    ensures ItemBytes(AuctionItemInfo(1, 2, 3, 4, 5, 300, [50, 52]))
         == [0x08, 1, 0x10, 2, 0x18, 3, 0x20, 4, 0x28, 5, 0x30, 0xAC, 0x02, 0x3A, 2, 50, 52]
  {
    assert Varint(300) == [0xAC, 0x02];
  }

  /** Two encodings back to back parse as the merge of the two messages. */
  lemma ItemConcatIsMerge(a: AuctionItemInfo, b: AuctionItemInfo)
    requires |a.expiredAt| <= INT_MAX && |b.expiredAt| <= INT_MAX
    requires ValidUtf8(a.expiredAt) && ValidUtf8(b.expiredAt)
    ensures ParseItem(DEFAULT_ITEM, ItemBytes(a) + ItemBytes(b)) == Some(MergeItem(a, b))
  {
    ParseItemBytes(DEFAULT_ITEM, a);
    ParseConcat(ApplyItem, DEFAULT_ITEM, ItemBytes(a), ItemBytes(b));
    ParseItemBytes(a, b);
  }

  /** Six varint fields of at most eleven bytes each, a tag, a length and the string. */
  lemma ItemSizeBound(m: AuctionItemInfo, limit: nat)
    requires |m.expiredAt| <= limit < 16384
    ensures ItemSize(m) <= 66 + 3 + limit
  {
    SizeLimits(ToUint64(m.listId));
    SizeLimits(ToUint64(m.playerId));
    SizeLimits(ToUint64(m.receiptType));
    SizeLimits(ToUint64(m.itemId));
    SizeLimits(ToUint64(m.count));
    SizeLimits(ToUint64(m.price));
    assert VarintSize(|m.expiredAt|) <= 2;
  }

  // ---------------------------------------------------------------------------------------
  //  The message object
  // ---------------------------------------------------------------------------------------

  class AuctionItemMessage {
    var listId: int64
    var playerId: int64
    var receiptType: int64
    var itemId: int64
    var count: int64
    var price: int64
    var expiredAt: Bytes

    function Value(): AuctionItemInfo
      reads this
    {
      AuctionItemInfo(listId, playerId, receiptType, itemId, count, price, expiredAt)
    }

    constructor ()
      ensures Value() == DEFAULT_ITEM
    {
      listId, playerId, receiptType, itemId, count, price := 0, 0, 0, 0, 0, 0;
      expiredAt := [];
    }

    /** A message holding the values of an element of a repeated field. */
    constructor Of(m: AuctionItemInfo)
      ensures Value() == m
    {
      listId, playerId, receiptType := m.listId, m.playerId, m.receiptType;
      itemId, count, price, expiredAt := m.itemId, m.count, m.price, m.expiredAt;
    }

    method InternalParse(b: Bytes) returns (ok: bool)
      modifies this
      ensures ok == ParseItem(old(Value()), b).Some?
      ensures ok ==> Some(Value()) == ParseItem(old(Value()), b)
    {
      hide ReadRecord;
      hide ValidUtf8;
      var ptr := 0;
      while ptr < |b|
        invariant 0 <= ptr <= |b|
        invariant ParseItem(Value(), b[ptr..]) == ParseItem(old(Value()), b)
      {
        var next := ReadRecord(b[ptr..]);
        if next.None? { return false; }
        var r := next.value;
        match r.tag {
          case 8 => listId := ToInt64(r.number);
          case 16 => playerId := ToInt64(r.number);
          case 24 => receiptType := ToInt64(r.number);
          case 32 => itemId := ToInt64(r.number);
          case 40 => count := ToInt64(r.number);
          case 48 => price := ToInt64(r.number);
          case 58 =>
            if !ValidUtf8(r.body) { return false; }
            expiredAt := r.body;
          case _ =>
        }
        assert b[ptr..][r.used..] == b[ptr + r.used..];
        ptr := ptr + r.used;
      }
      return true;
    }

    method InternalSerialize(stream: OutputStream)
      modifies stream
      ensures stream.data == old(stream.data) + ItemBytes(Value())
    {
      ghost var b6 := StringField(58, expiredAt);
      ghost var b5 := VarintField(48, price) + b6;
      ghost var b4 := VarintField(40, count) + b5;
      ghost var b3 := VarintField(32, itemId) + b4;
      ghost var b2 := VarintField(24, receiptType) + b3;
      ghost var b1 := VarintField(16, playerId) + b2;
      Append(stream.data, VarintField(8, listId), b1);
      stream.WriteVarintField(8, listId);
      Append(stream.data, VarintField(16, playerId), b2);
      stream.WriteVarintField(16, playerId);
      Append(stream.data, VarintField(24, receiptType), b3);
      stream.WriteVarintField(24, receiptType);
      Append(stream.data, VarintField(32, itemId), b4);
      stream.WriteVarintField(32, itemId);
      Append(stream.data, VarintField(40, count), b5);
      stream.WriteVarintField(40, count);
      Append(stream.data, VarintField(48, price), b6);
      stream.WriteVarintField(48, price);
      WriteString(stream);
    }

    method WriteString(stream: OutputStream)
      modifies stream
      ensures stream.data == old(stream.data) + StringField(58, expiredAt)
    {
      if expiredAt != [] {
        Append(stream.data, [58], Varint(|expiredAt|));
        Append(stream.data, [58] + Varint(|expiredAt|), expiredAt);
        stream.WriteByte(58);
        stream.WriteVarint(|expiredAt|);
        stream.WriteRaw(expiredAt);
      }
    }

    method ByteSizeLong() returns (totalSize: nat)
      ensures totalSize == |ItemBytes(Value())|
    {
      totalSize := 0;
      if expiredAt != [] { totalSize := totalSize + LengthFieldSize(|expiredAt|); }
      totalSize := totalSize + VarintFieldSize(listId);
      totalSize := totalSize + VarintFieldSize(playerId);
      totalSize := totalSize + VarintFieldSize(receiptType);
      totalSize := totalSize + VarintFieldSize(itemId);
      totalSize := totalSize + VarintFieldSize(count);
      totalSize := totalSize + VarintFieldSize(price);
      ItemBytesLength(Value());
    }

    method MergeFrom(from: AuctionItemMessage)
      requires from != this
      modifies this
      ensures Value() == MergeItem(old(Value()), from.Value())
    {
      if from.expiredAt != [] { expiredAt := from.expiredAt; }
      if from.listId != 0 { listId := from.listId; }
      if from.playerId != 0 { playerId := from.playerId; }
      if from.receiptType != 0 { receiptType := from.receiptType; }
      if from.itemId != 0 { itemId := from.itemId; }
      if from.count != 0 { count := from.count; }
      if from.price != 0 { price := from.price; }
    }
  }
}

/** The packet header and what it does to the byte stream of a session: a 16-bit length, a
    16-bit code, then the message. */
module PacketFraming {
  import opened Machine
  import opened WireFormat
  import opened ItemMessage
  import opened ListMessage
  import opened AuctionTables
  import SendQueue

  const HEADER_SIZE: nat := 4

  type int16 = x: int | -0x8000 <= x < 0x8000

  datatype Packet = Packet(code: int16, body: Bytes)

  /** The cast to a short, and the two bytes of one, low byte first. */
  function ToInt16(x: int): int16 {
    (x + 0x8000) % 0x1_0000 - 0x8000
  }

  function ShortBytes(x: int16): (b: Bytes)
    ensures |b| == 2
  {
    var u := if x < 0 then x + 0x1_0000 else x;
    [u % 256, u / 256]
  }

  function ReadShort(low: byte, high: byte): int16 {
    ToInt16(low + 256 * high)
  }

  lemma ShortRoundTrip(x: int16)
    ensures ReadShort(ShortBytes(x)[0], ShortBytes(x)[1]) == x
  {
  }

  /** `PacketUtil::Serialize`: the length of the message goes through a short. */
  function Frame(p: Packet): Bytes {
    ShortBytes(ToInt16(|p.body|)) + (ShortBytes(p.code) + p.body)
  }

  datatype Received = Received(packet: Packet, used: nat)

  /** One round of the session's read loop. None when the header or body is not all there yet,
      or when the length is negative and no buffer of that size can be made. */
  function ReadPacket(b: Bytes): (r: Option<Received>)
    ensures r.Some? ==> HEADER_SIZE <= r.value.used <= |b|
  {
    if |b| < HEADER_SIZE then None
    else
      var length := ReadShort(b[0], b[1]);
      if length < 0 || |b| < HEADER_SIZE + length then None
      else Some(Received(Packet(ReadShort(b[2], b[3]), b[HEADER_SIZE..HEADER_SIZE + length]), HEADER_SIZE + length))
  }

  function ReadAll(b: Bytes): Option<seq<Packet>>
    decreases |b|
  {
    if b == [] then Some([])
    else match ReadPacket(b)
      case None => None
      case Some(r) =>
        match ReadAll(b[r.used..])
        case None => None
        case Some(rest) => Some([r.packet] + rest)
  }

  lemma FrameReads(p: Packet, rest: Bytes)
    requires |p.body| <= SHRT_MAX
    ensures ReadPacket(Frame(p) + rest) == Some(Received(p, |Frame(p)|))
  {
    var b := Frame(p) + rest;
    var length := ToInt16(|p.body|);
    assert length == |p.body|;
    ShortRoundTrip(length);
    ShortRoundTrip(p.code);
    hide ShortBytes;
    hide ReadShort;
    hide ToInt16;
    assert b[0] == ShortBytes(length)[0] && b[1] == ShortBytes(length)[1];
    assert b[2] == ShortBytes(p.code)[0] && b[3] == ShortBytes(p.code)[1];
    assert b[HEADER_SIZE..HEADER_SIZE + |p.body|] == p.body;
  }

  predicate ReadsBack(p: Packet) {
    ReadPacket(Frame(p)) == Some(Received(p, |Frame(p)|))
  }

  /** A packet is read back exactly when its message has at most SHRT_MAX bytes. */
  lemma FrameReadsExactlyWhen(p: Packet)
    ensures ReadsBack(p) <==> |p.body| <= SHRT_MAX
  {
    if |p.body| <= SHRT_MAX {
      FrameReads(p, []);
      assert Frame(p) + [] == Frame(p);
    } else {
      var r := ReadPacket(Frame(p));
      if r.Some? {
        assert |r.value.packet.body| <= SHRT_MAX;
      }
    }
  }

  function Stream(buffers: seq<Bytes>): Bytes {
    if buffers == [] then [] else buffers[0] + Stream(buffers[1..])
  }

  function Frames(packets: seq<Packet>): (r: seq<Bytes>)
    ensures |r| == |packets| && forall i :: 0 <= i < |r| ==> r[i] == Frame(packets[i])
  {
    if packets == [] then [] else [Frame(packets[0])] + Frames(packets[1..])
  }

  /** A stream of packets that each fit reads back as those packets. */
  lemma {:induction false} StreamReads(packets: seq<Packet>)
    requires forall p <- packets :: |p.body| <= SHRT_MAX
    ensures ReadAll(Stream(Frames(packets))) == Some(packets)
  {
    if packets != [] {
      var rest := Stream(Frames(packets[1..]));
      assert Frames(packets) == [Frame(packets[0])] + Frames(packets[1..]);
      assert Stream(Frames(packets)) == Frame(packets[0]) + rest;
      hide Frames;
      hide Stream;
      hide Frame;
      hide ReadPacket;
      FrameReads(packets[0], rest);
      StreamReads(packets[1..]);
      ReadOne(packets[0], rest, packets[1..]);
      hide ReadAll;
      assert [packets[0]] + packets[1..] == packets;
    }
  }

  lemma ReadOne(p: Packet, rest: Bytes, others: seq<Packet>)
    requires ReadPacket(Frame(p) + rest) == Some(Received(p, |Frame(p)|)) && ReadAll(rest) == Some(others)
    ensures ReadAll(Frame(p) + rest) == Some([p] + others)
  {
    hide ReadPacket;
    assert (Frame(p) + rest)[|Frame(p)|..] == rest;
  }

  lemma PrefixReads(packets: seq<Packet>, delivered: seq<Bytes>)
    requires |delivered| <= |packets| && delivered == Frames(packets)[..|delivered|]
    requires forall p <- packets :: |p.body| <= SHRT_MAX
    ensures ReadAll(Stream(delivered)) == Some(packets[..|delivered|])
  {
    hide Stream;
    hide ReadAll;
    hide Frame;
    var front := packets[..|delivered|];
    assert delivered == Frames(front);
    StreamReads(front);
  }

  /** Packets put through a session's send queue arrive whole and in order: after any run up to
      an overflow, with any failures and closes, what the peer has been delivered reads as a
      prefix of the packets enqueued. */
  lemma DeliveredReadsAsPrefix(actions: seq<SendQueue.Action>, packets: seq<Packet>) returns (r: SendQueue.Sender)
    requires SendQueue.UpToOverflow(SendQueue.NEW_SENDER, actions)
    requires SendQueue.Sent(actions) == Frames(packets) && forall p <- packets :: |p.body| <= SHRT_MAX
    ensures SendQueue.Run(SendQueue.NEW_SENDER, actions) == Some(r)
    ensures |r.delivered| <= |packets| && ReadAll(Stream(r.delivered)) == Some(packets[..|r.delivered|])
  {
    SendQueue.SendQueueSafe(actions);
    hide *;
    r := SendQueue.Run(SendQueue.NEW_SENDER, actions).value;
    PrefixReads(packets, r.delivered);
  }

  /** The bytes of one packet, written out: both header fields low byte first. */
  lemma FrameExample()
    ensures Frame(Packet(0x0102, [9, 8, 7])) == [3, 0, 2, 1, 9, 8, 7]
  {
  }

  /** The reply with the public list always fits a frame. */
  lemma PublicListFitsFrame(m: AuctionList)
    requires |m.listinfo| <= 100 && forall item <- m.listinfo :: |item.expiredAt| <= 200
    ensures |ListBytes(m)| <= SHRT_MAX
  {
    ListBytesLength(m);
    MessagesSizeBound(m.listinfo);
    SizeLimits(ToUint64(m.sessionId));
    SizeLimits(ToUint64(m.requestId));
    assert VarintSize(ToUint64(Flag(m.mylist))) == 1;
  }

  lemma {:induction false} TwoBytesPerItem(items: seq<AuctionItemInfo>)
    ensures |items| <= MessagesSize(items)
  {
    if items != [] {
      TwoBytesPerItem(items[1..]);
    }
  }

  /** A seller's own list has no limit, and from 16384 entries on its reply cannot be read back. */
  lemma LongOwnListBreaksFraming(m: AuctionList, code: int16)
    requires |m.listinfo| >= 16384
    ensures !ReadsBack(Packet(code, ListBytes(m)))
  {
    ListBytesLength(m);
    TwoBytesPerItem(m.listinfo);
    FrameReadsExactlyWhen(Packet(code, ListBytes(m)));
  }

  /** The reply to a seller with so many unexpired listings. */
  lemma OwnListBreaksFraming(t: Tables, seller: int32, now: int, show: int -> Bytes, sessionId: int64, code: int16)
    requires |OwnIds(t, seller, now)| >= 16384
    ensures var own := Items(t, ListingIds(t, true, seller, now), show);
      !ReadsBack(Packet(code, ListBytes(AuctionList(sessionId, 0, own, true))))
  {
    hide OwnIds;
    hide ReadsBack;
    LongOwnListBreaksFraming(AuctionList(sessionId, 0, Items(t, ListingIds(t, true, seller, now), show), true), code);
  }

  /** A table in which seller 7 has `n` listings. */
  function ManyListings(n: nat): Tables {
    Tables(map id <- UpTo(n) :: Listing(7, 1, 1, 1, 100), [], [], [])
  }

  function UpTo(n: nat): (ids: set<int>)
    ensures forall id :: id in ids <==> 1 <= id <= n
    ensures |ids| == n
  {
    if n == 0 then {} else UpTo(n - 1) + {n as int}
  }

  /** There are such tables: a seller with 16384 listings does not get to see them. */
  lemma ManyListingsBreakFraming(show: int -> Bytes, sessionId: int64, code: int16)
    ensures var t := ManyListings(16384);
      var own := Items(t, ListingIds(t, true, 7, 0), show);
      !ReadsBack(Packet(code, ListBytes(AuctionList(sessionId, 0, own, true))))
  {
    var t := ManyListings(16384);
    hide UpTo;
    assert (set id <- UnexpiredIds(t, 0) | t.listings[id].sellerId == 7) == UpTo(16384);
    assert |OwnIds(t, 7, 0)| == 16384;
    hide ReadsBack;
    OwnListBreaksFraming(t, 7, 0, show, sessionId, code);
  }
}

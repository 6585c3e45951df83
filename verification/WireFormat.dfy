/** The Protocol Buffers primitives the generated code calls: base-128 varints, tags,
    length-delimited records, and the loop every message parser runs over its fields.
    They follow the Protocol Buffers Encoding guide, sections "Base 128 Varints",
    "Message Structure" and "Length-Delimited Records". */
module WireFormat {
  import opened Machine

  type byte = x: int | 0 <= x < 256
  type Bytes = seq<byte>

  const MAX_VARINT64: nat := 10
  const MAX_VARINT32: nat := 5

  // ---------------------------------------------------------------------------------------
  //  Base 128 varints
  // ---------------------------------------------------------------------------------------

  /** Seven bits to a byte, least significant first, top bit set on every byte but the last. */
  function Varint(n: nat): (b: Bytes)
    ensures |b| == VarintSize(n)
  {
    if n < 128 then [n] else [128 + n % 128] + Varint(n / 128)
  }

  function VarintSize(n: nat): (size: nat)
    ensures size >= 1
  {
    if n < 128 then 1 else 1 + VarintSize(n / 128)
  }

  datatype Read = Read(value: nat, used: nat)

  /** Reads at most `limit` bytes; None when the input ends first or the limit is passed. */
  function ReadVarint(b: Bytes, limit: nat): (r: Option<Read>)
    ensures r.Some? ==> 1 <= r.value.used <= |b| && r.value.used <= limit
  {
    if |b| == 0 || limit == 0 then None
    else if b[0] < 128 then Some(Read(b[0], 1))
    else match ReadVarint(b[1..], limit - 1)
      case None => None
      case Some(rest) => Some(Read(b[0] - 128 + 128 * rest.value, rest.used + 1))
  }

  lemma {:induction false} VarintSizeBound(n: nat, k: nat, bound: nat)
    requires 1 <= k <= 10 && bound == Pow128(k) && n < bound
    ensures VarintSize(n) <= k
    decreases k
  {
    if n >= 128 {
      VarintSizeBound(n / 128, k - 1, Pow128(k - 1));
    }
  }

  function Pow128(k: nat): nat {
    if k == 0 then 1 else 128 * Pow128(k - 1)
  }

  lemma SizeLimits(n: nat)
    ensures n < TWO_64 ==> VarintSize(n) <= MAX_VARINT64
    ensures n < TWO_32 ==> VarintSize(n) <= MAX_VARINT32
  {
    assert Pow128(5) == 0x8_0000_0000 by {
      assert Pow128(1) == 128 && Pow128(2) == 16384 && Pow128(3) == 2097152;
    }
    assert Pow128(10) == 0x40_0000_0000_0000_0000 by {
      assert Pow128(6) == 0x400_0000_0000 && Pow128(8) == 0x100_0000_0000_0000;
    }
    if n < TWO_64 { VarintSizeBound(n, 10, Pow128(10)); }
    if n < TWO_32 { VarintSizeBound(n, 5, Pow128(5)); }
  }

  /** Reading undoes writing, whatever bytes follow. */
  lemma {:induction false} ReadUndoesVarint(n: nat, limit: nat, rest: Bytes)
    requires VarintSize(n) <= limit
    ensures ReadVarint(Varint(n) + rest, limit) == Some(Read(n, VarintSize(n)))
    decreases n
  {
    var b := Varint(n) + rest;
    if n >= 128 {
      ReadUndoesVarint(n / 128, limit - 1, rest);
      assert b[1..] == Varint(n / 128) + rest;
    }
  }

  /** The number a varint stands for: seven bits of each byte, least significant first. */
  function Base128(b: Bytes): nat {
    if b == [] then 0 else b[0] % 128 + 128 * Base128(b[1..])
  }

  /** What is written has the top bit on every byte but the last, stands for the number, and
      has no byte too many. */
  lemma {:induction false} VarintIsBase128(n: nat)
    ensures var b := Varint(n);
      && Base128(b) == n && b[|b| - 1] < 128 && (forall i :: 0 <= i < |b| - 1 ==> b[i] >= 128)
      && (|b| > 1 ==> b[|b| - 1] != 0)
  {
    if n >= 128 {
      VarintIsBase128(n / 128);
      assert Varint(n)[1..] == Varint(n / 128);
    } else {
      assert Varint(n)[1..] == [];
    }
  }

  /** A read that succeeded does not depend on what follows. */
  lemma {:induction false} ReadVarintPrefix(b: Bytes, limit: nat, rest: Bytes)
    requires ReadVarint(b, limit).Some?
    ensures ReadVarint(b + rest, limit) == ReadVarint(b, limit)
    decreases limit
  {
    if b[0] >= 128 {
      assert (b + rest)[1..] == b[1..] + rest;
      ReadVarintPrefix(b[1..], limit - 1, rest);
    }
  }

  // ---------------------------------------------------------------------------------------
  //  Records
  // ---------------------------------------------------------------------------------------

  /** One record of the input. `number` is the payload of a varint record, `body` the payload
      of a length-delimited one; a fixed-width record carries neither, since no message here
      has such a field and the parser only steps over it. */
  datatype Record = Record(tag: nat, number: uint64, body: Bytes, used: nat)

  datatype Payload = Payload(body: Bytes, used: nat)

  /** A length and that many bytes; None when they are not all there or the length is above INT_MAX. */
  function ReadPayload(p: Bytes): (r: Option<Payload>)
    ensures r.Some? ==> 1 <= r.value.used <= |p|
  {
    match ReadVarint(p, MAX_VARINT32)
    case None => None
    case Some(n) =>
      if n.value > INT_MAX || |p| < n.used + n.value then None
      else Some(Payload(p[n.used..n.used + n.value], n.used + n.value))
  }

  /** The next record, or None when the input is malformed: tag 0, a field number of 0, an
      end-group tag, a truncated payload, or a length above INT_MAX. */
  function ReadRecord(b: Bytes): (r: Option<Record>)
    ensures r.Some? ==> 1 <= r.value.used <= |b|
  {
    match ReadVarint(b, MAX_VARINT32)
    case None => None
    case Some(t) =>
      var tag := t.value % TWO_32;
      var p := b[t.used..];
      if tag < 8 then None
      else match tag % 8
        case 0 => (
          match ReadVarint(p, MAX_VARINT64)
          case None => None
          case Some(v) => Some(Record(tag, v.value % TWO_64, [], t.used + v.used)))
        case 1 => if |p| < 8 then None else Some(Record(tag, 0, [], t.used + 8))
        case 2 => (
          match ReadPayload(p)
          case None => None
          case Some(payload) => Some(Record(tag, 0, payload.body, t.used + payload.used)))
        case 5 => if |p| < 4 then None else Some(Record(tag, 0, [], t.used + 4))
        case _ => None
  }

  lemma ReadPayloadPrefix(p: Bytes, rest: Bytes)
    requires ReadPayload(p).Some?
    ensures ReadPayload(p + rest) == ReadPayload(p)
  {
    ReadVarintPrefix(p, MAX_VARINT32, rest);
    var n := ReadVarint(p, MAX_VARINT32).value;
    assert (p + rest)[n.used..n.used + n.value] == p[n.used..n.used + n.value];
  }

  lemma ReadRecordPrefix(b: Bytes, rest: Bytes)
    requires ReadRecord(b).Some?
    ensures ReadRecord(b + rest) == ReadRecord(b)
  {
    ReadVarintPrefix(b, MAX_VARINT32, rest);
    var t := ReadVarint(b, MAX_VARINT32).value;
    var p := b[t.used..];
    assert (b + rest)[t.used..] == p + rest;
    match (t.value % TWO_32) % 8 {
      case 0 => ReadVarintPrefix(p, MAX_VARINT64, rest);
      case 2 => ReadPayloadPrefix(p, rest);
      case _ =>
    }
  }

  /** WriteInt64ToArray, WriteInt32ToArray and WriteBoolToArray behind their test for the
      default: negative numbers go out as their 64-bit two's complement. */
  function VarintField(tag: byte, v: int64): Bytes {
    if v == 0 then [] else [tag] + Varint(ToUint64(v))
  }

  function VarintFieldSize(v: int64): nat {
    if v == 0 then 0 else 1 + VarintSize(ToUint64(v))
  }

  /** A tag, a length and that many bytes. */
  function LengthField(tag: byte, body: Bytes): Bytes {
    [tag] + Varint(|body|) + body
  }

  function LengthFieldSize(length: nat): nat {
    1 + VarintSize(length) + length
  }

  lemma ReadVarintField(tag: byte, v: int64, rest: Bytes)
    requires 8 <= tag < 128 && tag % 8 == 0 && v != 0
    ensures ReadRecord(VarintField(tag, v) + rest)
         == Some(Record(tag, ToUint64(v), [], |VarintField(tag, v)|))
  {
    hide ReadPayload;
    hide Varint;
    var b := VarintField(tag, v) + rest;
    var n := ToUint64(v);
    SizeLimits(n);
    ReadUndoesVarint(n, MAX_VARINT64, rest);
    assert b[1..] == Varint(n) + rest;
    assert ReadVarint(b, MAX_VARINT32) == Some(Read(tag, 1));
    hide ReadVarint;
    assert n % TWO_64 == n;
  }

  lemma ReadLengthField(tag: byte, body: Bytes, rest: Bytes)
    requires 8 <= tag < 128 && tag % 8 == 2 && |body| <= INT_MAX
    ensures ReadRecord(LengthField(tag, body) + rest)
         == Some(Record(tag, 0, body, |LengthField(tag, body)|))
  {
    var b := LengthField(tag, body) + rest;
    ReadOneByteTag(b);
    SizeLimits(|body|);
    ReadUndoesVarint(|body|, MAX_VARINT32, body + rest);
    assert b[1..] == Varint(|body|) + (body + rest);
    var n := VarintSize(|body|);
    assert b[1..][n..n + |body|] == body;
  }

  /** A length-delimited record whose tag is the single byte in front. */
  lemma ReadOneByteTag(b: Bytes)
    requires |b| > 0 && 8 <= b[0] < 128 && b[0] % 8 == 2
    ensures ReadRecord(b) == match ReadPayload(b[1..])
                             case None => None
                             case Some(payload) => Some(Record(b[0], 0, payload.body, 1 + payload.used))
  {
    assert ReadVarint(b, MAX_VARINT32) == Some(Read(b[0], 1));
  }

  /** Fixed-width records are stepped over as a whole. */
  lemma ReadFixed(tag: byte, payload: Bytes, rest: Bytes)
    requires 8 <= tag < 128 && ((tag % 8 == 1 && |payload| == 8) || (tag % 8 == 5 && |payload| == 4))
    ensures ReadRecord([tag] + payload + rest) == Some(Record(tag, 0, [], 1 + |payload|))
  {
    var b := [tag] + payload + rest;
    assert ReadVarint(b, MAX_VARINT32) == Some(Read(tag, 1));
    assert b[1..] == payload + rest;
  }

  /** Refused: field number 0, groups and undefined wire types, and whatever is cut short. */
  lemma RefusesMalformed(tag: byte, rest: Bytes)
    requires tag < 128
    ensures tag < 8 || tag % 8 == 3 || tag % 8 == 4 || tag % 8 >= 6 ==> ReadRecord([tag] + rest).None?
    ensures tag % 8 == 0 && (forall x <- rest :: x >= 128) ==> ReadRecord([tag] + rest).None?
    ensures tag % 8 == 1 && |rest| < 8 ==> ReadRecord([tag] + rest).None?
    ensures tag % 8 == 2 && rest != [] && rest[0] < 128 && |rest| - 1 < rest[0] ==> ReadRecord([tag] + rest).None?
    ensures tag % 8 == 5 && |rest| < 4 ==> ReadRecord([tag] + rest).None?
  {
    var b := [tag] + rest;
    assert ReadVarint(b, MAX_VARINT32) == Some(Read(tag, 1));
    assert b[1..] == rest;
    if forall x <- rest :: x >= 128 { NoEndNoVarint(rest, MAX_VARINT64); }
  }

  lemma {:induction false} NoEndNoVarint(b: Bytes, limit: nat)
    requires forall x <- b :: x >= 128
    ensures ReadVarint(b, limit).None?
    decreases limit
  {
    if b != [] && limit > 0 {
      assert b[0] in b && forall x <- b[1..] :: x in b;
      NoEndNoVarint(b[1..], limit - 1);
    }
  }

  // ---------------------------------------------------------------------------------------
  //  The parse loop
  // ---------------------------------------------------------------------------------------

  /** Runs `apply` over the records of `b` in order, starting from `m`. Every generated parser
      is this loop with its own switch as `apply`. */
  function ParseRecords<M>(apply: (M, Record) -> Option<M>, m: M, b: Bytes): Option<M>
    decreases |b|
  {
    if |b| == 0 then Some(m)
    else match ReadRecord(b)
      case None => None
      case Some(record) =>
        match apply(m, record)
        case None => None
        case Some(next) => ParseRecords(apply, next, b[record.used..])
  }

  /** Parsing two inputs back to back is parsing the second from the result of the first. */
  lemma {:induction false} ParseConcat<M>(apply: (M, Record) -> Option<M>, m: M, x: Bytes, y: Bytes)
    requires ParseRecords(apply, m, x).Some?
    ensures ParseRecords(apply, m, x + y) == ParseRecords(apply, ParseRecords(apply, m, x).value, y)
    decreases |x|
  {
    if |x| == 0 {
      assert x + y == y;
    } else {
      ReadRecordPrefix(x, y);
      var record := ReadRecord(x).value;
      assert (x + y)[record.used..] == x[record.used..] + y;
      ParseConcat(apply, apply(m, record).value, x[record.used..], y);
    }
  }

  /** One well-formed record followed by `rest`. */
  lemma ParseOne<M>(apply: (M, Record) -> Option<M>, m: M, field: Bytes, rest: Bytes, record: Record)
    requires |field| > 0 && record.used == |field|
    requires ReadRecord(field + rest) == Some(record)
    ensures ParseRecords(apply, m, field + rest)
         == match apply(m, record)
            case None => None
            case Some(next) => ParseRecords(apply, next, rest)
  {
    assert (field + rest)[|field|..] == rest;
  }

  // ---------------------------------------------------------------------------------------
  //  The output stream
  // ---------------------------------------------------------------------------------------

  /** The serializers' stream with its moving `target`: making room and advancing it amount
      to appending. */
  class OutputStream {
    var data: Bytes

    constructor ()
      ensures data == []
    {
      data := [];
    }

    method WriteByte(b: byte)
      modifies this
      ensures data == old(data) + [b]
    {
      data := data + [b];
    }

    method WriteRaw(bytes: Bytes)
      modifies this
      ensures data == old(data) + bytes
    {
      data := data + bytes;
    }

    method WriteVarint(n: nat)
      modifies this
      ensures data == old(data) + Varint(n)
    {
      var rest := n;
      while rest >= 128
        invariant data + Varint(rest) == old(data) + Varint(n)
      {
        Append(data, [(128 + rest % 128) as byte], Varint(rest / 128));
        data := data + [128 + rest % 128];
        rest := rest / 128;
      }
      data := data + [rest];
    }

    method WriteVarintField(tag: byte, v: int64)
      modifies this
      ensures data == old(data) + VarintField(tag, v)
    {
      if v != 0 {
        WriteByte(tag);
        WriteVarint(ToUint64(v));
        Append(old(data), [tag], Varint(ToUint64(v)));
      }
    }
  }

  lemma Append(x: Bytes, y: Bytes, z: Bytes)
    ensures (x + y) + z == x + (y + z)
  {
  }
}

/**
 * Wire layouts of the game protocol: the segment header, the keep-alive
 * payload, the IPC sub-header and the two ping payloads. Every multi-byte
 * field is little-endian on the wire. Each layout is given twice: as a
 * field table (offset and size of every field, as reflection reports them)
 * and as a typed datatype with its encoder and decoder.
 */
module Def {
  import opened Bytes

  // ---------------------------------------------------------------------
  // Field tables

  /** What reflection sees of a field's type: a scalar of some byte size,
    * a nested struct, or a field the endianness fix-up skips (static or string). */
  datatype FieldType = Scalar(size: nat) | Struct(fields: seq<Field>) | Ignored
  datatype Field = Field(offset: nat, ftype: FieldType)

  /** A C# `fixed byte X[n]` field is a nested struct whose only instance
    * field is its first byte. */
  const FixedByteBuffer: FieldType := Struct([Field(0, Scalar(1))])

  const SegmentHeaderType: FieldType :=
    Struct([Field(0, Scalar(4)), Field(4, Scalar(4)), Field(8, Scalar(4)),
            Field(12, Scalar(2)), Field(14, Scalar(2))])
  const KeepAliveDataType: FieldType :=
    Struct([Field(0, Scalar(4)), Field(4, Scalar(4))])
  const IpcHeaderType: FieldType :=
    Struct([Field(0, Scalar(1)), Field(1, Scalar(1)), Field(2, Scalar(2)), Field(4, Scalar(2)),
            Field(6, Scalar(2)), Field(8, Scalar(4)), Field(12, Scalar(4))])
  const ClientIpcPingDataType: FieldType :=
    Struct([Field(0, Scalar(4)), Field(4, FixedByteBuffer)])
  const ServerIpcPingDataType: FieldType :=
    Struct([Field(0, Scalar(8)), Field(8, FixedByteBuffer)])

  // ---------------------------------------------------------------------
  // Typed layouts

  /** 16 bytes: size@0, source actor@4, target actor@8, segment type@12, reserved@14. */
  datatype SegmentHeader = SegmentHeader(size: u32, sourceActorId: u32, targetActorId: u32,
                                         segmentType: u16, reserved: u16)

  /** Segment type codes, per direction. */
  const ClientSegmentIpc: u16 := 3
  const ClientSegmentKeepAlive: u16 := 7
  const ServerSegmentIpc: u16 := 3
  const ServerSegmentKeepAlive: u16 := 8

  /** 8 bytes: id@0, timestamp@4. */
  datatype KeepAliveData = KeepAliveData(id: u32, timestamp: u32)

  /** 16 bytes: reserved1@0, reserved2@1, type@2, unknown2@4, server id@6, timestamp@8, unknownC@12. */
  datatype IpcHeader = IpcHeader(reserved1: u8, reserved2: u8, ipcType: u16, unknown2: u16,
                                 serverId: u16, timestamp: u32, unknownC: u32)

  type Reserved20 = s: seq<u8> | |s| == 20 witness seq(20, _ => 0)
  type Reserved24 = s: seq<u8> | |s| == 24 witness seq(24, _ => 0)

  /** 24 bytes: a 32-bit timestamp@0 followed by 20 reserved bytes. */
  datatype ClientIpcPingData = ClientIpcPingData(timestamp: u32, unknown: Reserved20)

  /** 32 bytes: a 64-bit timestamp@0 followed by 24 reserved bytes. */
  datatype ServerIpcPingData = ServerIpcPingData(timestamp: u64, unknown: Reserved24)

  /** The game client's region, which selects the fixed ping opcodes. */
  datatype ClientVersion = Unknown | Global | CN

  /** The ping opcodes of one client version. */
  datatype ZoneIpcType = ZoneIpcType(serverPing: u16, clientPingHandler: u16)

  const ZoneIpcTypes: map<ClientVersion, ZoneIpcType> :=
    map[Global := ZoneIpcType(0x0200, 0x0200), CN := ZoneIpcType(0x0358, 0x0358)]

  lemma {:induction false} OpCodeTable()
    ensures Unknown !in ZoneIpcTypes && Global in ZoneIpcTypes && CN in ZoneIpcTypes
    ensures ZoneIpcTypes[Global] == ZoneIpcType(0x0200, 0x0200)
    ensures ZoneIpcTypes[CN] == ZoneIpcType(0x0358, 0x0358)
  {
  }

  // ---------------------------------------------------------------------
  // The structs as one type, standing for the generic `T` of the decoder

  datatype StructKind = SegmentHeaderKind | KeepAliveKind | IpcHeaderKind | ClientPingKind | ServerPingKind

  datatype Struct =
    | SegmentHeaderValue(segmentHeader: SegmentHeader)
    | KeepAliveValue(keepAlive: KeepAliveData)
    | IpcHeaderValue(ipcHeader: IpcHeader)
    | ClientPingValue(clientPing: ClientIpcPingData)
    | ServerPingValue(serverPing: ServerIpcPingData)

  function KindOf(v: Struct): StructKind {
    match v
    case SegmentHeaderValue(_) => SegmentHeaderKind
    case KeepAliveValue(_) => KeepAliveKind
    case IpcHeaderValue(_) => IpcHeaderKind
    case ClientPingValue(_) => ClientPingKind
    case ServerPingValue(_) => ServerPingKind
  }

  /** `Marshal.SizeOf(typeof(T))` */
  function SizeOf(kind: StructKind): nat {
    match kind
    case SegmentHeaderKind => 16
    case KeepAliveKind => 8
    case IpcHeaderKind => 16
    case ClientPingKind => 24
    case ServerPingKind => 32
  }

  function TypeOf(kind: StructKind): FieldType {
    match kind
    case SegmentHeaderKind => SegmentHeaderType
    case KeepAliveKind => KeepAliveDataType
    case IpcHeaderKind => IpcHeaderType
    case ClientPingKind => ClientIpcPingDataType
    case ServerPingKind => ServerIpcPingDataType
  }

  /** The values of a struct's scalar fields, in the order of its field table. */
  function Scalars(v: Struct): seq<nat> {
    match v
    case SegmentHeaderValue(h) => [h.size, h.sourceActorId, h.targetActorId, h.segmentType, h.reserved]
    case KeepAliveValue(k) => [k.id, k.timestamp]
    case IpcHeaderValue(h) => [h.reserved1, h.reserved2, h.ipcType, h.unknown2, h.serverId, h.timestamp, h.unknownC]
    case ClientPingValue(p) => [p.timestamp, p.unknown[0]]
    case ServerPingValue(p) => [p.timestamp, p.unknown[0]]
  }

  // ---------------------------------------------------------------------
  // Encoding (the wire image of a value) and decoding (little-endian)

  function Encode(v: Struct): (bytes: seq<u8>)
    ensures |bytes| == SizeOf(KindOf(v))
  {
    match v
    case SegmentHeaderValue(h) =>
      WriteLE(h.size, 4) + WriteLE(h.sourceActorId, 4) + WriteLE(h.targetActorId, 4)
      + WriteLE(h.segmentType, 2) + WriteLE(h.reserved, 2)
    case KeepAliveValue(k) => WriteLE(k.id, 4) + WriteLE(k.timestamp, 4)
    case IpcHeaderValue(h) =>
      WriteLE(h.reserved1, 1) + WriteLE(h.reserved2, 1) + WriteLE(h.ipcType, 2) + WriteLE(h.unknown2, 2)
      + WriteLE(h.serverId, 2) + WriteLE(h.timestamp, 4) + WriteLE(h.unknownC, 4)
    case ClientPingValue(p) => WriteLE(p.timestamp, 4) + p.unknown
    case ServerPingValue(p) => WriteLE(p.timestamp, 8) + p.unknown
  }

  function Decode(kind: StructKind, s: seq<u8>, off: nat): (v: Struct)
    requires off + SizeOf(kind) <= |s|
    ensures KindOf(v) == kind
  {
    match kind
    case SegmentHeaderKind =>
      SegmentHeaderValue(SegmentHeader(ReadLE(s, off, 4), ReadLE(s, off + 4, 4), ReadLE(s, off + 8, 4),
                                       ReadLE(s, off + 12, 2), ReadLE(s, off + 14, 2)))
    case KeepAliveKind => KeepAliveValue(KeepAliveData(ReadLE(s, off, 4), ReadLE(s, off + 4, 4)))
    case IpcHeaderKind =>
      IpcHeaderValue(IpcHeader(ReadLE(s, off, 1), ReadLE(s, off + 1, 1), ReadLE(s, off + 2, 2),
                               ReadLE(s, off + 4, 2), ReadLE(s, off + 6, 2), ReadLE(s, off + 8, 4),
                               ReadLE(s, off + 12, 4)))
    case ClientPingKind => ClientPingValue(ClientIpcPingData(ReadLE(s, off, 4), s[off + 4..off + 24]))
    case ServerPingKind => ServerPingValue(ServerIpcPingData(ReadLE(s, off, 8), s[off + 8..off + 32]))
  }

  /** A field whose bytes are the encoding of `v` reads back as `v`. */
  lemma {:induction false} ReadLEAt(s: seq<u8>, off: nat, n: nat, v: nat)
    requires off + n <= |s| && v < Pow256(n)
    requires s[off..off + n] == WriteLE(v, n)
    ensures ReadLE(s, off, n) == v
  {
    ReadLESlice(s, off, n);
    ReadWriteLE(v, n);
  }

  /** Consecutive slices join. */
  lemma {:induction false} SliceJoin(s: seq<u8>, a: nat, b: nat, c: nat)
    requires a <= b <= c <= |s|
    ensures s[a..b] + s[b..c] == s[a..c]
  {
  }

  /** Decoding the wire image of a value gives the value back. */
  lemma {:induction false} DecodeEncode(v: Struct)
    ensures Decode(KindOf(v), Encode(v), 0) == v
  {
    match v
    case SegmentHeaderValue(h) => DecodeEncodeSegmentHeader(h);
    case KeepAliveValue(k) => DecodeEncodeKeepAlive(k);
    case IpcHeaderValue(h) => DecodeEncodeIpcHeader(h);
    case ClientPingValue(p) =>
      Pow256Values();
      var s := Encode(v);
      ReadLEAt(s, 0, 4, p.timestamp);
      assert s[4..24] == p.unknown;
    case ServerPingValue(p) =>
      Pow256Values();
      var s := Encode(v);
      ReadLEAt(s, 0, 8, p.timestamp);
      assert s[8..32] == p.unknown;
  }

  lemma {:induction false} DecodeEncodeSegmentHeader(h: SegmentHeader)
    ensures Decode(SegmentHeaderKind, Encode(SegmentHeaderValue(h)), 0) == SegmentHeaderValue(h)
  {
    Pow256Values();
    var w2, w3, w4, w5 := WriteLE(h.sourceActorId, 4), WriteLE(h.targetActorId, 4),
                          WriteLE(h.segmentType, 2), WriteLE(h.reserved, 2);
    var p1 := WriteLE(h.size, 4);
    var p2 := p1 + w2;
    var p3 := p2 + w3;
    var p4 := p3 + w4;
    var s := p4 + w5;
    assert s == Encode(SegmentHeaderValue(h));
    ReadLELast(p4, h.reserved, 2);
    ReadLELast(p3, h.segmentType, 2);
    ReadLEPrefix(p4, w5, 12, 2);
    ReadLELast(p2, h.targetActorId, 4);
    ReadLEPrefix(p3, w4, 8, 4);
    ReadLEPrefix(p4, w5, 8, 4);
    ReadLELast(p1, h.sourceActorId, 4);
    ReadLEPrefix(p2, w3, 4, 4);
    ReadLEPrefix(p3, w4, 4, 4);
    ReadLEPrefix(p4, w5, 4, 4);
    ReadLELast([], h.size, 4);
    assert [] + p1 == p1;
    ReadLEPrefix(p1, w2, 0, 4);
    ReadLEPrefix(p2, w3, 0, 4);
    ReadLEPrefix(p3, w4, 0, 4);
    ReadLEPrefix(p4, w5, 0, 4);
  }

  lemma {:induction false} DecodeEncodeKeepAlive(k: KeepAliveData)
    ensures Decode(KeepAliveKind, Encode(KeepAliveValue(k)), 0) == KeepAliveValue(k)
  {
    Pow256Values();
    var w1, w2 := WriteLE(k.id, 4), WriteLE(k.timestamp, 4);
    var s := w1 + w2;
    assert s[0..4] == w1 && s[4..8] == w2;
    ReadLEAt(s, 0, 4, k.id);
    ReadLEAt(s, 4, 4, k.timestamp);
  }

  lemma {:induction false} DecodeEncodeIpcHeader(h: IpcHeader)
    ensures Decode(IpcHeaderKind, Encode(IpcHeaderValue(h)), 0) == IpcHeaderValue(h)
  {
    Pow256Values();
    var w2, w3, w4 := WriteLE(h.reserved2, 1), WriteLE(h.ipcType, 2), WriteLE(h.unknown2, 2);
    var w5, w6, w7 := WriteLE(h.serverId, 2), WriteLE(h.timestamp, 4), WriteLE(h.unknownC, 4);
    var p1 := WriteLE(h.reserved1, 1);
    var p2 := p1 + w2;
    var p3 := p2 + w3;
    var p4 := p3 + w4;
    var p5 := p4 + w5;
    var p6 := p5 + w6;
    var s := p6 + w7;
    assert s == Encode(IpcHeaderValue(h));
    ReadLELast(p6, h.unknownC, 4);
    ReadLELast(p5, h.timestamp, 4);
    ReadLEPrefix(p6, w7, 8, 4);
    ReadLELast(p4, h.serverId, 2);
    ReadLEPrefix(p5, w6, 6, 2);
    ReadLEPrefix(p6, w7, 6, 2);
    ReadLELast(p3, h.unknown2, 2);
    ReadLEPrefix(p4, w5, 4, 2);
    ReadLEPrefix(p5, w6, 4, 2);
    ReadLEPrefix(p6, w7, 4, 2);
    ReadLELast(p2, h.ipcType, 2);
    ReadLEPrefix(p3, w4, 2, 2);
    ReadLEPrefix(p4, w5, 2, 2);
    ReadLEPrefix(p5, w6, 2, 2);
    ReadLEPrefix(p6, w7, 2, 2);
    ReadLELast(p1, h.reserved2, 1);
    ReadLEPrefix(p2, w3, 1, 1);
    ReadLEPrefix(p3, w4, 1, 1);
    ReadLEPrefix(p4, w5, 1, 1);
    ReadLEPrefix(p5, w6, 1, 1);
    ReadLEPrefix(p6, w7, 1, 1);
    ReadLELast([], h.reserved1, 1);
    assert [] + p1 == p1;
    ReadLEPrefix(p1, w2, 0, 1);
    ReadLEPrefix(p2, w3, 0, 1);
    ReadLEPrefix(p3, w4, 0, 1);
    ReadLEPrefix(p4, w5, 0, 1);
    ReadLEPrefix(p5, w6, 0, 1);
    ReadLEPrefix(p6, w7, 0, 1);
  }

  /** Encoding a decoded value gives back exactly the bytes it was read from. */
  lemma {:induction false} EncodeDecode(kind: StructKind, s: seq<u8>, off: nat)
    requires off + SizeOf(kind) <= |s|
    ensures Encode(Decode(kind, s, off)) == s[off..off + SizeOf(kind)]
  {
    match kind
    case SegmentHeaderKind => EncodeDecodeSegmentHeader(s, off);
    case KeepAliveKind => EncodeDecodeKeepAlive(s, off);
    case IpcHeaderKind => EncodeDecodeIpcHeader(s, off);
    case ClientPingKind => EncodeDecodeClientPing(s, off);
    case ServerPingKind => EncodeDecodeServerPing(s, off);
  }

  lemma {:induction false} EncodeDecodeSegmentHeader(s: seq<u8>, off: nat)
    requires off + 16 <= |s|
    ensures Encode(Decode(SegmentHeaderKind, s, off)) == s[off..off + 16]
  {
    WriteReadLE(s, off, 4); WriteReadLE(s, off + 4, 4); WriteReadLE(s, off + 8, 4);
    WriteReadLE(s, off + 12, 2); WriteReadLE(s, off + 14, 2);
    SliceJoin(s, off, off + 4, off + 8);
    SliceJoin(s, off, off + 8, off + 12);
    SliceJoin(s, off, off + 12, off + 14);
    SliceJoin(s, off, off + 14, off + 16);
  }

  lemma {:induction false} EncodeDecodeKeepAlive(s: seq<u8>, off: nat)
    requires off + 8 <= |s|
    ensures Encode(Decode(KeepAliveKind, s, off)) == s[off..off + 8]
  {
    WriteReadLE(s, off, 4); WriteReadLE(s, off + 4, 4);
    SliceJoin(s, off, off + 4, off + 8);
  }

  lemma {:induction false} EncodeDecodeIpcHeader(s: seq<u8>, off: nat)
    requires off + 16 <= |s|
    ensures Encode(Decode(IpcHeaderKind, s, off)) == s[off..off + 16]
  {
    WriteReadLE(s, off, 1); WriteReadLE(s, off + 1, 1); WriteReadLE(s, off + 2, 2);
    WriteReadLE(s, off + 4, 2); WriteReadLE(s, off + 6, 2); WriteReadLE(s, off + 8, 4);
    WriteReadLE(s, off + 12, 4);
    SliceJoin(s, off, off + 1, off + 2);
    SliceJoin(s, off, off + 2, off + 4);
    SliceJoin(s, off, off + 4, off + 6);
    SliceJoin(s, off, off + 6, off + 8);
    SliceJoin(s, off, off + 8, off + 12);
    SliceJoin(s, off, off + 12, off + 16);
  }

  lemma {:induction false} EncodeDecodeClientPing(s: seq<u8>, off: nat)
    requires off + 24 <= |s|
    ensures Encode(Decode(ClientPingKind, s, off)) == s[off..off + 24]
  {
    WriteReadLE(s, off, 4);
    SliceJoin(s, off, off + 4, off + 24);
  }

  lemma {:induction false} EncodeDecodeServerPing(s: seq<u8>, off: nat)
    requires off + 32 <= |s|
    ensures Encode(Decode(ServerPingKind, s, off)) == s[off..off + 32]
  {
    WriteReadLE(s, off, 8);
    SliceJoin(s, off, off + 8, off + 32);
  }

  /** Each decoded value is the only one with that wire image: decoding is determined by the bytes. */
  lemma {:induction false} EncodeInjective(v: Struct, w: Struct)
    requires KindOf(v) == KindOf(w) && Encode(v) == Encode(w)
    ensures v == w
  {
    DecodeEncode(v);
    DecodeEncode(w);
  }
}

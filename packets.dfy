/**
 * Bounds-checked decoding of the fixed layouts out of a captured buffer,
 * and the two header parsers built on it. Failures are the two
 * `PacketParseResult` kinds, returned instead of thrown.
 */
module Packets {
  import opened Bytes
  import opened Def
  import opened Util

  /** `PacketParseResult`: the buffer is too short, or its contents are invalid. */
  datatype ParseError = Incomplete | Malformed

  /** The numeric value of each error kind. */
  function ErrorCode(e: ParseError): (code: int)
    ensures code < 0
    ensures e == Incomplete <==> code == -1
  {
    match e
    case Incomplete => -1
    case Malformed => -2
  }

  datatype Result<T> = Ok(value: T) | Failure(error: ParseError)

  /** A decoded value and how many bytes it took. */
  datatype Parsed<T> = Parsed(consumed: nat, value: T)

  /** Segments larger than 256 KiB are rejected. */
  const MaxSegmentSize: nat := 256 * 1024

  /** `NaiveParsePacket<T>`: the struct of kind `kind` stored at `offset`. It
    * fails `Incomplete` exactly when fewer than `sizeof(T)` bytes follow
    * `offset`; otherwise it consumes exactly `sizeof(T)` bytes. */
  function NaiveParsePacket(kind: StructKind, buffer: seq<u8>, offset: nat): (r: Result<Parsed<Struct>>)
    ensures r.Failure? <==> |buffer| < offset + SizeOf(kind)
    ensures r.Failure? ==> r.error == Incomplete
    ensures r.Ok? ==> r.value.consumed == SizeOf(kind) && KindOf(r.value.value) == kind
  {
    if |buffer| < offset + SizeOf(kind) then Failure(Incomplete)
    else Ok(Parsed(SizeOf(kind), Decode(kind, buffer, offset)))
  }

  /** `ParseSegmentHeader`: the header at `offset`, rejected as `Malformed`
    * when its size field exceeds 256 KiB. The length check comes first. */
  function ParseSegmentHeader(buffer: seq<u8>, offset: nat): (r: Result<Parsed<SegmentHeader>>)
    ensures r == Failure(Incomplete) <==> |buffer| < offset + 16
    ensures r == Failure(Malformed) <==> |buffer| >= offset + 16 && ReadLE(buffer, offset, 4) > MaxSegmentSize
    ensures r.Ok? ==> r.value.consumed == 16 && r.value.value.size <= MaxSegmentSize
    ensures r.Ok? ==> r.value.value.segmentType == ReadLE(buffer, offset + 12, 2)
  {
    match NaiveParsePacket(SegmentHeaderKind, buffer, offset)
    case Failure(e) => Failure(e)
    case Ok(Parsed(n, v)) =>
      if v.segmentHeader.size > MaxSegmentSize then Failure(Malformed)
      else Ok(Parsed(n, v.segmentHeader))
  }

  /** `ParseIPCHeader`: the IPC header at `offset`; its reserved bytes are not checked. */
  function ParseIpcHeader(buffer: seq<u8>, offset: nat): (r: Result<Parsed<IpcHeader>>)
    ensures r.Failure? <==> |buffer| < offset + 16
    ensures r.Failure? ==> r.error == Incomplete
    ensures r.Ok? ==> r.value.consumed == 16 && r.value.value.ipcType == ReadLE(buffer, offset + 2, 2)
  {
    match NaiveParsePacket(IpcHeaderKind, buffer, offset)
    case Failure(e) => Failure(e)
    case Ok(Parsed(n, v)) => Ok(Parsed(n, v.ipcHeader))
  }

  /** `NaiveParsePacket<FFXIVKeepAliveData>` */
  function ParseKeepAlive(buffer: seq<u8>, offset: nat): (r: Result<KeepAliveData>)
    ensures r.Failure? <==> |buffer| < offset + 8
    ensures r.Failure? ==> r.error == Incomplete
    ensures r.Ok? ==> r.value.id == ReadLE(buffer, offset, 4)
  {
    match NaiveParsePacket(KeepAliveKind, buffer, offset)
    case Failure(e) => Failure(e)
    case Ok(Parsed(_, v)) => Ok(v.keepAlive)
  }

  /** `NaiveParsePacket<FFXIVClientIpcPingData>` */
  function ParseClientPing(buffer: seq<u8>, offset: nat): (r: Result<ClientIpcPingData>)
    ensures r.Failure? <==> |buffer| < offset + 24
    ensures r.Failure? ==> r.error == Incomplete
    ensures r.Ok? ==> r.value.timestamp == ReadLE(buffer, offset, 4) && r.value.unknown == buffer[offset + 4..offset + 24]
  {
    match NaiveParsePacket(ClientPingKind, buffer, offset)
    case Failure(e) => Failure(e)
    case Ok(Parsed(_, v)) => Ok(v.clientPing)
  }

  /** `NaiveParsePacket<FFXIVServerIpcPingData>` */
  function ParseServerPing(buffer: seq<u8>, offset: nat): (r: Result<ServerIpcPingData>)
    ensures r.Failure? <==> |buffer| < offset + 32
    ensures r.Failure? ==> r.error == Incomplete
    ensures r.Ok? ==> r.value.timestamp == ReadLE(buffer, offset, 8) && r.value.unknown == buffer[offset + 8..offset + 32]
  {
    match NaiveParsePacket(ServerPingKind, buffer, offset)
    case Failure(e) => Failure(e)
    case Ok(Parsed(_, v)) => Ok(v.serverPing)
  }

  // ---------------------------------------------------------------------
  // Round trips

  /** A successful parse gives the value whose wire image the consumed bytes are. */
  lemma {:induction false} NaiveParseWireImage(kind: StructKind, buffer: seq<u8>, offset: nat)
    requires NaiveParsePacket(kind, buffer, offset).Ok?
    ensures Encode(NaiveParsePacket(kind, buffer, offset).value.value) == buffer[offset..offset + SizeOf(kind)]
  {
    EncodeDecode(kind, buffer, offset);
  }

  /** Any value placed in a buffer parses back, consuming exactly its size. */
  lemma {:induction false} NaiveParseEncoded(v: Struct, prefix: seq<u8>, suffix: seq<u8>)
    ensures NaiveParsePacket(KindOf(v), prefix + Encode(v) + suffix, |prefix|)
         == Ok(Parsed(SizeOf(KindOf(v)), v))
  {
    var buffer := prefix + Encode(v) + suffix;
    var r := NaiveParsePacket(KindOf(v), buffer, |prefix|);
    assert buffer[|prefix|..|prefix| + SizeOf(KindOf(v))] == Encode(v);
    NaiveParseWireImage(KindOf(v), buffer, |prefix|);
    EncodeInjective(r.value.value, v);
  }

  /** A segment header within the size cap parses back; one above it is `Malformed`,
    * and the cap itself is accepted. */
  lemma {:induction false} ParseSegmentHeaderEncoded(h: SegmentHeader, suffix: seq<u8>)
    ensures h.size <= MaxSegmentSize ==>
              ParseSegmentHeader(Encode(SegmentHeaderValue(h)) + suffix, 0) == Ok(Parsed(16, h))
    ensures h.size > MaxSegmentSize ==>
              ParseSegmentHeader(Encode(SegmentHeaderValue(h)) + suffix, 0) == Failure(Malformed)
  {
    var v := SegmentHeaderValue(h);
    var buffer := Encode(v) + suffix;
    NaiveParseEncoded(v, [], suffix);
    assert [] + Encode(v) + suffix == buffer;
    assert NaiveParsePacket(SegmentHeaderKind, buffer, 0) == Ok(Parsed(16, v));
  }

  /** Every IPC header parses back, whatever its reserved bytes hold. */
  lemma {:induction false} ParseIpcHeaderEncoded(h: IpcHeader, suffix: seq<u8>)
    ensures ParseIpcHeader(Encode(IpcHeaderValue(h)) + suffix, 0) == Ok(Parsed(16, h))
  {
    var v := IpcHeaderValue(h);
    var buffer := Encode(v) + suffix;
    NaiveParseEncoded(v, [], suffix);
    assert [] + Encode(v) + suffix == buffer;
    assert NaiveParsePacket(IpcHeaderKind, buffer, 0) == Ok(Parsed(16, v));
  }

  /** The decoded value is what `ByteArrayToStructure` yields when little-endian
    * is requested, whatever the host's own byte order. */
  lemma {:induction false} NaiveParseIsMarshalled(kind: StructKind, buffer: seq<u8>, offset: nat)
    requires offset + SizeOf(kind) <= |buffer|
    ensures NaiveParsePacket(kind, buffer, offset).value.value == HostDecode(kind, buffer, offset, LittleEndian)
  {
    if kind == IpcHeaderKind {
      assert HostDecode(kind, buffer, offset, LittleEndian).ipcHeader == Decode(kind, buffer, offset).ipcHeader;
    }
  }
}

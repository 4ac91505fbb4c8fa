/**
 * Latency from the game's own ping IPC: the client's ping carries a 32-bit
 * timestamp, the server's reply carries that timestamp offset by a fixed
 * delta, and pending client pings are kept in a map sorted by timestamp.
 *
 * The opcode pair telling which IPC is a ping is passed in (from the
 * version table through `CurrentIpcType`, or from the opcode detector).
 */
module Ipc {
  import opened Bytes
  import opened Def
  import opened Packets
  import opened Wrappers
  import opened PingSamples

  /** The offset the server adds to the client's ping timestamp. */
  const TimestampDelta: nat := 0x14D00000000

  /** `(uint)(ts - TimestampDelta)` with 64-bit wrap-around. */
  function ServerIndex(ts: u64): (index: u32)
    ensures index == ts % 0x1_0000_0000
  {
    ((ts - TimestampDelta) % 0x1_0000_0000_0000_0000) % 0x1_0000_0000
  }

  /** The opcodes in force: those of the client version, Global when it is unknown. */
  function CurrentIpcType(version: ClientVersion): (z: ZoneIpcType)
    ensures version == CN ==> z == ZoneIpcType(0x0358, 0x0358)
    ensures version != CN ==> z == ZoneIpcType(0x0200, 0x0200)
  {
    OpCodeTable();
    var v := if version == Unknown then Global else version;
    assert v == Global || v == CN;
    ZoneIpcTypes[v]
  }

  /** Pending client pings: timestamp to send time. */
  type Records = map<u32, int>

  /** `HandleClientPing`: record the send time of the client ping at `offset`. */
  function HandleClientPing(records: Records, data: seq<u8>, offset: nat, now: int): (r: Result<Records>)
    ensures r.Failure? <==> |data| < offset + 24
    ensures r.Failure? ==> r.error == Incomplete
    ensures r.Ok? ==> r.value == records[ReadLE(data, offset, 4) := now]
  {
    match ParseClientPing(data, offset)
    case Failure(e) => Failure(e)
    case Ok(pkt) => Ok(records[pkt.timestamp := now])
  }

  /** Drop every record at or below `index`. */
  function Prune(records: Records, index: u32): (kept: Records)
    ensures forall k :: k in kept <==> k in records && k > index
    ensures forall k :: k in kept ==> kept[k] == records[k]
  {
    map k | k in records && k > index :: records[k]
  }

  /** `HandleServerPing`: the server ping at `offset` matches the record of its
    * index, giving a sample, and every record up to the index is dropped. */
  function HandleServerPing(records: Records, data: seq<u8>, offset: nat, now: int): (r: Result<(Records, Option<PingSample>)>)
    ensures r.Failure? <==> |data| < offset + 32
    ensures r.Failure? ==> r.error == Incomplete
    ensures r.Ok? ==>
      var index := ReadLE(data, offset, 4);
      && r.value.0 == Prune(records, index)
      && (r.value.1.Some? <==> index in records)
      && (index in records ==> r.value.1.value == PingSample(now - records[index], now))
  {
    match ParseServerPing(data, offset)
    case Failure(e) => Failure(e)
    case Ok(pkt) =>
      ServerIndexIsLowBytes(data, offset);
      var index := ServerIndex(pkt.timestamp);
      var sample := if index in records then Some(PingSample(now - records[index], now)) else None;
      Ok((Prune(records - {index}, index), sample))
  }

  /** The server index is the low four bytes of the server's timestamp. */
  lemma {:induction false} ServerIndexIsLowBytes(data: seq<u8>, offset: nat)
    requires offset + 32 <= |data|
    ensures ServerIndex(ParseServerPing(data, offset).value.timestamp) == ReadLE(data, offset, 4)
  {
    Pow256Values();
    ReadLESplit8(data, offset);
    LowWord(ReadLE(data, offset, 4), ReadLE(data, offset + 4, 4));
  }

  lemma {:induction false} LowWord(lo: nat, hi: nat)
    requires lo < 0x1_0000_0000
    ensures (lo + 0x1_0000_0000 * hi) % 0x1_0000_0000 == lo
  {
  }

  /** `ClientSent`: a client IPC with the client ping opcode is recorded; any other is ignored. */
  function Sent(records: Records, ipcType: ZoneIpcType, data: seq<u8>, offset: nat, now: int): (r: Result<Records>)
    ensures |data| < offset + 16 ==> r == Failure(Incomplete)
    ensures |data| >= offset + 16 && ReadLE(data, offset + 2, 2) != ipcType.clientPingHandler ==> r == Ok(records)
    ensures |data| >= offset + 16 && ReadLE(data, offset + 2, 2) == ipcType.clientPingHandler ==>
              r == HandleClientPing(records, data, offset + 16, now)
  {
    match ParseIpcHeader(data, offset)
    case Failure(e) => Failure(e)
    case Ok(Parsed(headerLen, pkt)) =>
      if pkt.ipcType == ipcType.clientPingHandler then HandleClientPing(records, data, offset + headerLen, now)
      else Ok(records)
  }

  /** `ClientRecv`: a server IPC with the server ping opcode is matched; any other is ignored. */
  function Recv(records: Records, ipcType: ZoneIpcType, data: seq<u8>, offset: nat, now: int): (r: Result<(Records, Option<PingSample>)>)
    ensures |data| < offset + 16 ==> r == Failure(Incomplete)
    ensures |data| >= offset + 16 && ReadLE(data, offset + 2, 2) != ipcType.serverPing ==> r == Ok((records, None))
    ensures |data| >= offset + 16 && ReadLE(data, offset + 2, 2) == ipcType.serverPing ==>
              r == HandleServerPing(records, data, offset + 16, now)
  {
    match ParseIpcHeader(data, offset)
    case Failure(e) => Failure(e)
    case Ok(Parsed(headerLen, pkt)) =>
      if pkt.ipcType == ipcType.serverPing then HandleServerPing(records, data, offset + headerLen, now)
      else Ok((records, None))
  }

  /** A matched reply is a sample of the time since its ping was recorded, and
    * no record at or below its index remains; the later ones are kept as they were. */
  lemma {:induction false} ReplyMatchesPing(records: Records, tsBytes: seq<u8>, data: seq<u8>, offset: nat, now: int)
    requires HandleServerPing(records, data, offset, now).Ok?
    ensures var (kept, sample) := HandleServerPing(records, data, offset, now).value;
            var index := ReadLE(data, offset, 4);
            && (forall k :: k in kept ==> k > index && k in records && kept[k] == records[k])
            && (forall k :: k in records && k > index ==> k in kept)
            && (sample.Some? ==> sample.value.millis == now - records[index])
  {
  }

  /** A client ping with the ping opcode is recorded under its timestamp. */
  lemma {:induction false} PingRecorded(records: Records, ipcType: ZoneIpcType, ping: seq<u8>, now: int)
    requires |ping| >= 40 && ReadLE(ping, 2, 2) == ipcType.clientPingHandler
    ensures Sent(records, ipcType, ping, 0, now) == Ok(records[ReadLE(ping, 16, 4) := now])
  {
  }

  /** A server ping whose index is recorded yields the sample for that record. */
  lemma {:induction false} ServerPingMatched(records: Records, data: seq<u8>, offset: nat, now: int)
    requires offset + 32 <= |data| && ReadLE(data, offset, 4) in records
    ensures var index := ReadLE(data, offset, 4);
            HandleServerPing(records, data, offset, now) == Ok((Prune(records, index), Some(PingSample(now - records[index], now))))
  {
    var r := HandleServerPing(records, data, offset, now);
    assert r.Ok? && r.value.1.Some?;
    assert r.value == (r.value.0, r.value.1);
  }

  /** A server ping with the ping opcode whose index is recorded is matched against that record. */
  lemma {:induction false} ReplyMatched(records: Records, ipcType: ZoneIpcType, reply: seq<u8>, now: int)
    requires |reply| >= 48 && ReadLE(reply, 2, 2) == ipcType.serverPing && ReadLE(reply, 16, 4) in records
    ensures var index := ReadLE(reply, 16, 4);
            Recv(records, ipcType, reply, 0, now) == Ok((Prune(records, index), Some(PingSample(now - records[index], now))))
  {
    assert Recv(records, ipcType, reply, 0, now) == HandleServerPing(records, reply, 16, now);
    ServerPingMatched(records, reply, 16, now);
  }

  /** A ping and its reply, seen in turn with nothing between, give the time
    * between, and the reply's record is gone afterwards. */
  lemma {:induction false} PingThenReply(records: Records, ipcType: ZoneIpcType, ping: seq<u8>, t0: int, reply: seq<u8>, t1: int)
    requires |ping| >= 40 && |reply| >= 48
    requires ReadLE(ping, 2, 2) == ipcType.clientPingHandler && ReadLE(reply, 2, 2) == ipcType.serverPing
    requires reply[16..20] == ping[16..20]
    ensures Sent(records, ipcType, ping, 0, t0).Ok?
    ensures var after := Sent(records, ipcType, ping, 0, t0).value;
            var r := Recv(after, ipcType, reply, 0, t1);
            r.Ok? && r.value.1 == Some(PingSample(t1 - t0, t1)) && ReadLE(reply, 16, 4) !in r.value.0
  {
    ReadLESlice(ping, 16, 4);
    ReadLESlice(reply, 16, 4);
    var index := ReadLE(ping, 16, 4);
    PingRecorded(records, ipcType, ping, t0);
    var after := records[index := t0];
    ReplyMatched(after, ipcType, reply, t1);
  }

  /** `IPCHandler`: the pending pings, updated in place. */
  class IpcHandler {
    var pingRecords: Records

    constructor()
      ensures pingRecords == map[]
    {
      pingRecords := map[];
    }

    method ClientSent(ipcType: ZoneIpcType, data: seq<u8>, offset: nat, now: int) returns (r: Result<()>)
      modifies this
      ensures match Sent(old(pingRecords), ipcType, data, offset, now)
              case Failure(e) => r == Failure(e) && pingRecords == old(pingRecords)
              case Ok(recs) => r == Ok(()) && pingRecords == recs
    {
      var header := ParseIpcHeader(data, offset);
      if header.Failure? {
        return Failure(header.error);
      }
      if header.value.value.ipcType == ipcType.clientPingHandler {
        r := HandleClientPingIn(data, offset + header.value.consumed, now);
      } else {
        r := Ok(());
      }
    }

    method ClientRecv(ipcType: ZoneIpcType, data: seq<u8>, offset: nat, now: int) returns (r: Result<Option<PingSample>>)
      modifies this
      ensures match Recv(old(pingRecords), ipcType, data, offset, now)
              case Failure(e) => r == Failure(e) && pingRecords == old(pingRecords)
              case Ok((recs, sample)) => r == Ok(sample) && pingRecords == recs
    {
      var header := ParseIpcHeader(data, offset);
      if header.Failure? {
        return Failure(header.error);
      }
      if header.value.value.ipcType == ipcType.serverPing {
        r := HandleServerPingIn(data, offset + header.value.consumed, now);
      } else {
        r := Ok(None);
      }
    }

    /** `HandleClientPing`, on the handler's own map. */
    method HandleClientPingIn(data: seq<u8>, offset: nat, now: int) returns (r: Result<()>)
      modifies this
      ensures match HandleClientPing(old(pingRecords), data, offset, now)
              case Failure(e) => r == Failure(e) && pingRecords == old(pingRecords)
              case Ok(recs) => r == Ok(()) && pingRecords == recs
    {
      var pkt := ParseClientPing(data, offset);
      if pkt.Failure? {
        return Failure(pkt.error);
      }
      pingRecords := pingRecords[pkt.value.timestamp := now];
      r := Ok(());
    }

    /** `HandleServerPing`, on the handler's own map. */
    method HandleServerPingIn(data: seq<u8>, offset: nat, now: int) returns (r: Result<Option<PingSample>>)
      modifies this
      ensures match HandleServerPing(old(pingRecords), data, offset, now)
              case Failure(e) => r == Failure(e) && pingRecords == old(pingRecords)
              case Ok((recs, sample)) => r == Ok(sample) && pingRecords == recs
    {
      var pkt := ParseServerPing(data, offset);
      if pkt.Failure? {
        return Failure(pkt.error);
      }
      var index := ServerIndex(pkt.value.timestamp);
      var sample := None;
      if index in pingRecords {
        sample := Some(PingSample(now - pingRecords[index], now));
        pingRecords := pingRecords - {index};
      }
      pingRecords := Prune(pingRecords, index);
      r := Ok(sample);
    }
  }
}

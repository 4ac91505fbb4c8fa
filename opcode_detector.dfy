/**
 * `IPCPingOpCodeDetector`: guesses which IPC opcodes carry the game's own
 * ping. Client and server IPCs that look like ping payloads are kept in a
 * 512-slot ring; after every admitted server IPC and every keep-alive the
 * ring is walked newest first within 20 s of the last keep-alive, sends and
 * receives are counted per ping index and opcode, every (send, receive)
 * opcode pair seen under one index is scored, and the best pair becomes the
 * current opcode when it differs from it.
 *
 * Time is the parameter `now` in milliseconds; the `OnPingOpCodeDetected`
 * event is the returned `Option`.
 */
module OpCodeDetector {
  import opened Bytes
  import opened Def
  import opened Packets
  import opened Dicts
  import opened OpCodeStats
  import opened Wrappers
  import Ipc

  /** `PktHolder`: one buffered candidate packet. */
  datatype PktHolder = PktHolder(timeStamp: int, clientSent: bool, opCode: u16, pingTimeStamp: u64)

  /** `BufferMask + 1` slots. */
  const BufferSize: nat := 512
  const TimeWindow: nat := 20000

  /** The reserved bytes of a client ping that must be zero: six bytes at
    * offset 4 of the payload (the `Unknown2` field the detector reads). */
  const ClientReservedOffset: nat := 4
  const ClientReservedLength: nat := 6

  predicate AllZeros(s: seq<u8>) {
    forall i :: 0 <= i < |s| ==> s[i] == 0
  }

  /** `IsAllZeros(ptr, size)` over the first `size` bytes of `s`. */
  method IsAllZeros(s: seq<u8>, size: nat) returns (b: bool)
    requires size <= |s|
    ensures b <==> AllZeros(s[..size])
  {
    var i := 0;
    while i < size
      invariant 0 <= i <= size
      invariant forall j :: 0 <= j < i ==> s[j] == 0
    {
      if s[i] != 0 {
        assert s[..size][i] != 0;
        return false;
      }
      i := i + 1;
    }
    return true;
  }

  // ---------------------------------------------------------------------
  // Admission

  /** A client IPC is buffered when its payload is 24 to 48 bytes long, its
    * reserved bytes are zero and its timestamp is not 0. */
  predicate ClientAdmits(data: seq<u8>, offset: nat) {
    && 24 <= |data| - offset <= 48
    && AllZeros(data[offset + ClientReservedOffset..offset + ClientReservedOffset + ClientReservedLength])
    && ReadLE(data, offset, 4) != 0
  }

  /** A server IPC is buffered when its payload is 32 to 64 bytes long, its
    * 24 reserved bytes are zero and its timestamp exceeds the delta. */
  predicate ServerAdmits(data: seq<u8>, offset: nat) {
    && 32 <= |data| - offset <= 64
    && AllZeros(data[offset + 8..offset + 32])
    && ReadLE(data, offset, 8) > Ipc.TimestampDelta
  }

  /** What the admission filters guarantee of every written slot. */
  predicate Admissible(b: PktHolder) {
    b.clientSent || b.pingTimeStamp > Ipc.TimestampDelta
  }

  predicate WrittenAdmissible(buf: seq<PktHolder>, ptr: nat) {
    forall k :: 0 <= k < |buf| && k < ptr ==> Admissible(buf[k])
  }

  // ---------------------------------------------------------------------
  // The detection walk

  /** The client timestamp, or the server timestamp less the delta (as `ulong`). */
  function PingIndexOf(b: PktHolder): u64 {
    if b.clientSent then b.pingTimeStamp
    else (b.pingTimeStamp - Ipc.TimestampDelta) % 0x1_0000_0000_0000_0000
  }

  /** An admitted server slot's index is its timestamp less the delta, without wrap-around. */
  lemma {:induction false} PingIndexNoWrap(b: PktHolder)
    requires Admissible(b) && !b.clientSent
    ensures PingIndexOf(b) == b.pingTimeStamp - Ipc.TimestampDelta
  {
  }

  function Abs(x: int): nat {
    if x < 0 then -x else x
  }

  predicate InWindow(b: PktHolder, lastKeepAlive: int) {
    Abs(b.timeStamp - lastKeepAlive) <= TimeWindow
  }

  /** The oldest position still in the ring. */
  function Head(ptr: nat): nat {
    if ptr <= BufferSize then 0 else ptr - BufferSize
  }

  /** The slots visited from position `i` down to `head`: newest first, up to
    * the first slot outside the window. */
  function Walk(buf: seq<PktHolder>, i: int, head: nat, lastKeepAlive: int): seq<PktHolder>
    requires |buf| == BufferSize
    decreases i - head + 1
  {
    if i < head then []
    else
      var b := buf[i % BufferSize];
      if !InWindow(b, lastKeepAlive) then [] else [b] + Walk(buf, i - 1, head, lastKeepAlive)
  }

  /** The walk visits at most the slots from `i` down to `head`, newest
    * first, each inside the time window, and stops at the first one outside. */
  lemma {:induction false} WalkShape(buf: seq<PktHolder>, i: int, head: nat, lastKeepAlive: int)
    requires |buf| == BufferSize
    ensures var w := Walk(buf, i, head, lastKeepAlive);
            && |w| <= (if i >= head then i - head + 1 else 0)
            && (forall k :: 0 <= k < |w| ==> w[k] == buf[(i - k) % BufferSize] && InWindow(w[k], lastKeepAlive))
            && (i - |w| >= head ==> !InWindow(buf[(i - |w|) % BufferSize], lastKeepAlive))
    decreases i - head + 1
  {
    if i >= head && InWindow(buf[i % BufferSize], lastKeepAlive) {
      WalkShape(buf, i - 1, head, lastKeepAlive);
      var w := Walk(buf, i, head, lastKeepAlive);
      var rest := Walk(buf, i - 1, head, lastKeepAlive);
      assert w == [buf[i % BufferSize]] + rest;
      forall k | 0 < k < |w|
        ensures w[k] == buf[(i - k) % BufferSize]
      {
        assert w[k] == rest[k - 1];
        assert i - 1 - (k - 1) == i - k;
      }
      assert i - |w| == i - 1 - |rest|;
    }
  }

  /** What one detection visits: at most `min(ptr, 512)` slots, from the newest. */
  function Visited(buf: seq<PktHolder>, ptr: nat, lastKeepAlive: int): seq<PktHolder>
    requires |buf| == BufferSize
  {
    Walk(buf, ptr - 1, Head(ptr), lastKeepAlive)
  }

  /** The walk never reaches an unwritten slot, so every visited server slot
    * has its index computed without wrap-around. */
  lemma {:induction false} VisitedAdmissible(buf: seq<PktHolder>, ptr: nat, lastKeepAlive: int)
    requires |buf| == BufferSize && WrittenAdmissible(buf, ptr)
    ensures |Visited(buf, ptr, lastKeepAlive)| <= if ptr <= BufferSize then ptr else BufferSize
    ensures forall k :: 0 <= k < |Visited(buf, ptr, lastKeepAlive)| ==> Admissible(Visited(buf, ptr, lastKeepAlive)[k])
  {
    var w := Visited(buf, ptr, lastKeepAlive);
    WalkShape(buf, ptr - 1, Head(ptr), lastKeepAlive);
    forall k | 0 <= k < |w|
      ensures Admissible(w[k])
    {
      var pos := ptr - 1 - k;
      assert w[k] == buf[pos % BufferSize];
      assert Head(ptr) <= pos < ptr;
      assert pos % BufferSize < ptr;
    }
  }

  /** The counts of the visited slots, in visiting order. */
  function Tally(slots: seq<PktHolder>): StatTable
    decreases |slots|
  {
    if |slots| == 0 then []
    else
      var b := slots[|slots| - 1];
      Record(Tally(slots[..|slots| - 1]), PingIndexOf(b), b.opCode, b.clientSent)
  }

  /** How many of `slots` went in direction `send` with opcode `op` under `index`. */
  function Occurrences(slots: seq<PktHolder>, index: u64, op: u16, send: bool): nat
    decreases |slots|
  {
    if |slots| == 0 then 0
    else
      (if PingIndexOf(slots[0]) == index && slots[0].opCode == op && slots[0].clientSent == send then 1 else 0)
      + Occurrences(slots[1..], index, op, send)
  }

  lemma {:induction false} OccurrencesAppend(slots: seq<PktHolder>, b: PktHolder, index: u64, op: u16, send: bool)
    ensures Occurrences(slots + [b], index, op, send)
         == Occurrences(slots, index, op, send) + (if PingIndexOf(b) == index && b.opCode == op && b.clientSent == send then 1 else 0)
    decreases |slots|
  {
    if |slots| > 0 {
      assert (slots + [b])[1..] == slots[1..] + [b];
      OccurrencesAppend(slots[1..], b, index, op, send);
    }
  }

  /** Each counter of the statistics is the number of visited packets it stands for. */
  lemma {:induction false} TallyCounts(slots: seq<PktHolder>, index: u64, op: u16, send: bool)
    ensures WellKeyed(Tally(slots))
    ensures Counted(Tally(slots), index, op, send) == Occurrences(slots, index, op, send)
    decreases |slots|
  {
    if |slots| > 0 {
      var front := slots[..|slots| - 1];
      var b := slots[|slots| - 1];
      TallyCounts(front, index, op, send);
      RecordKeyed(Tally(front), PingIndexOf(b), b.opCode, b.clientSent);
      RecordCounts(Tally(front), PingIndexOf(b), b.opCode, b.clientSent, index, op, send);
      assert front + [b] == slots;
      OccurrencesAppend(front, b, index, op, send);
    }
  }

  /** The statistics of one detection: counts per ping index and opcode. */
  function VisitedStats(buf: seq<PktHolder>, ptr: nat, lastKeepAlive: int): StatTable
    requires |buf| == BufferSize
  {
    Tally(Visited(buf, ptr, lastKeepAlive))
  }

  /** The pair a detection settles on, if any. */
  function Detect(buf: seq<PktHolder>, ptr: nat, lastKeepAlive: int): Option<PingOpCode>
    requires |buf| == BufferSize
  {
    var stats := VisitedStats(buf, ptr, lastKeepAlive);
    GroupPairsGood(stats);
    Winner(GroupPairs(stats))
  }

  /** A detection finds nothing exactly when no visited ping index has both a
    * send and a receive; otherwise it finds a grouped pair whose average
    * confidence no other pair exceeds. */
  lemma {:induction false} DetectFindsPair(buf: seq<PktHolder>, ptr: nat, lastKeepAlive: int)
    requires |buf| == BufferSize
    ensures Detect(buf, ptr, lastKeepAlive).None?
            <==> forall k :: 0 <= k < |VisitedStats(buf, ptr, lastKeepAlive)| ==> !Matched(VisitedStats(buf, ptr, lastKeepAlive)[k].value)
    ensures Detect(buf, ptr, lastKeepAlive).Some? ==>
              var t := GroupPairs(VisitedStats(buf, ptr, lastKeepAlive));
              && GoodPairs(t)
              && exists i :: 0 <= i < |t| && t[i].key == Detect(buf, ptr, lastKeepAlive).value
                   && forall k :: 0 <= k < |t| ==> Mean(Confidences(t[k].value)) <= Mean(Confidences(t[i].value))
    ensures Detect(buf, ptr, lastKeepAlive).Some? ==>
              var stats, q := VisitedStats(buf, ptr, lastKeepAlive), Detect(buf, ptr, lastKeepAlive).value;
              && GetOr(GroupPairs(stats), q, []) == Listed(stats, q)
              && exists k :: 0 <= k < |stats| && Hit(stats[k].value, stats[k].value, q) != []
  {
    var stats := VisitedStats(buf, ptr, lastKeepAlive);
    var t := GroupPairs(stats);
    GroupPairsGood(stats);
    assert Detect(buf, ptr, lastKeepAlive) == Winner(t);
    WinnerOfPairs(t);
    if Winner(t).Some? {
      var q := Winner(t).value;
      TallyCounts(Visited(buf, ptr, lastKeepAlive), 0, 0, true);
      GroupedLists(stats, q);
      var i :| 0 <= i < |t| && t[i].key == q;
      assert Find(t, q) >= 0;
    }
  }

  // ---------------------------------------------------------------------
  // The pair loops of `DetectPingPkt`

  method AddRecvPairs(t: PairTable, send: Entry<u16, Counts>, hs: Holders) returns (r: PairTable)
    ensures r == RecvPairs(t, send, hs)
  {
    r := t;
    var k := 0;
    while k < |hs|
      invariant 0 <= k <= |hs|
      invariant r == RecvPairs(t, send, hs[..k])
    {
      var recv := hs[k];
      assert hs[..k + 1][..k] == hs[..k];
      if recv.value.recvCount != 0 {
        r := AddIndex(r, PingOpCode(send.key, recv.key), PingIndex(send.value.sendCount, recv.value.recvCount));
      }
      k := k + 1;
    }
    assert hs[..|hs|] == hs;
  }

  method AddSendPairs(t: PairTable, hs: Holders) returns (r: PairTable)
    ensures r == SendPairs(t, hs, hs)
  {
    r := t;
    var k := 0;
    while k < |hs|
      invariant 0 <= k <= |hs|
      invariant r == SendPairs(t, hs[..k], hs)
    {
      var send := hs[k];
      assert hs[..k + 1][..k] == hs[..k];
      if send.value.sendCount != 0 {
        r := AddRecvPairs(r, send, hs);
      }
      k := k + 1;
    }
    assert hs[..|hs|] == hs;
  }

  method CollectPairs(stats: StatTable) returns (r: PairTable)
    ensures r == GroupPairs(stats)
  {
    r := [];
    var k := 0;
    while k < |stats|
      invariant 0 <= k <= |stats|
      invariant r == GroupPairs(stats[..k])
    {
      assert stats[..k + 1][..k] == stats[..k];
      r := AddSendPairs(r, stats[k].value);
      k := k + 1;
    }
    assert stats[..|stats|] == stats;
  }

  // ---------------------------------------------------------------------
  // The detector

  class IpcPingOpCodeDetector {
    var currentOpCode: PingOpCode
    const buffer: array<PktHolder>
    var bufferPointer: nat
    var lastKeepAlive: int

    predicate Valid()
      reads this, buffer
    {
      buffer.Length == BufferSize && WrittenAdmissible(buffer[..], bufferPointer)
    }

    constructor()
      ensures Valid() && fresh(buffer)
      ensures currentOpCode == PingOpCode(0, 0) && bufferPointer == 0 && lastKeepAlive == 0
      ensures buffer[..] == seq(BufferSize, _ => PktHolder(0, false, 0, 0))
    {
      currentOpCode := PingOpCode(0, 0);
      buffer := new PktHolder[BufferSize](_ => PktHolder(0, false, 0, 0));
      bufferPointer := 0;
      lastKeepAlive := 0;
    }

    /** Write the slot at the cursor and advance the cursor. */
    method Push(b: PktHolder)
      requires Valid() && Admissible(b)
      modifies this, buffer
      ensures Valid()
      ensures buffer[..] == old(buffer[..])[old(bufferPointer) % BufferSize := b]
      ensures bufferPointer == old(bufferPointer) + 1
      ensures currentOpCode == old(currentOpCode) && lastKeepAlive == old(lastKeepAlive)
    {
      buffer[bufferPointer % BufferSize] := b;
      bufferPointer := bufferPointer + 1;
    }

    /** `ClientSent(header, data, offset)`: buffer a client ping candidate; no detection. */
    method ClientSent(header: IpcHeader, data: seq<u8>, offset: nat, now: int)
      requires Valid()
      modifies this, buffer
      ensures Valid()
      ensures currentOpCode == old(currentOpCode) && lastKeepAlive == old(lastKeepAlive)
      ensures if ClientAdmits(data, offset) then
                && buffer[..] == old(buffer[..])[old(bufferPointer) % BufferSize := PktHolder(now, true, header.ipcType, ReadLE(data, offset, 4))]
                && bufferPointer == old(bufferPointer) + 1
              else buffer[..] == old(buffer[..]) && bufferPointer == old(bufferPointer)
    {
      var dataLen := |data| - offset;
      if dataLen < 24 || dataLen > 24 * 2 {
        return;
      }
      var pkt := ParseClientPing(data, offset).value;
      var zeros := IsAllZeros(pkt.unknown, ClientReservedLength);
      assert pkt.unknown[..ClientReservedLength] == data[offset + ClientReservedOffset..offset + ClientReservedOffset + ClientReservedLength];
      if !zeros {
        return;
      }
      if pkt.timestamp == 0 {
        return;
      }
      Push(PktHolder(now, true, header.ipcType, pkt.timestamp));
    }

    /** `ClientRecv(header, data, offset)`: buffer a server ping candidate, then detect. */
    method ClientRecv(header: IpcHeader, data: seq<u8>, offset: nat, now: int) returns (detected: Option<PingOpCode>)
      requires Valid()
      modifies this, buffer
      ensures Valid()
      ensures lastKeepAlive == old(lastKeepAlive)
      ensures ServerAdmits(data, offset) ==>
                && buffer[..] == old(buffer[..])[old(bufferPointer) % BufferSize := PktHolder(now, false, header.ipcType, ReadLE(data, offset, 8))]
                && bufferPointer == old(bufferPointer) + 1
                && Settled(old(currentOpCode), currentOpCode, Detect(buffer[..], bufferPointer, lastKeepAlive), detected)
      ensures !ServerAdmits(data, offset) ==>
                && buffer[..] == old(buffer[..]) && bufferPointer == old(bufferPointer)
                && currentOpCode == old(currentOpCode) && detected == None
    {
      detected := None;
      var dataLen := |data| - offset;
      if dataLen < 32 || dataLen > 32 * 2 {
        return;
      }
      var pkt := ParseServerPing(data, offset).value;
      var zeros := IsAllZeros(pkt.unknown, 24);
      assert pkt.unknown[..24] == data[offset + 8..offset + 32];
      if !zeros {
        return;
      }
      if pkt.timestamp <= Ipc.TimestampDelta {
        return;
      }
      Push(PktHolder(now, false, header.ipcType, pkt.timestamp));
      detected := DetectPingPkt();
    }

    /** `ClientSent(keepAlive)` and `ClientRecv(keepAlive)`: note the time of
      * the keep-alive, then detect. */
    method KeepAlive(now: int) returns (detected: Option<PingOpCode>)
      requires Valid()
      modifies this
      ensures Valid()
      ensures lastKeepAlive == now && bufferPointer == old(bufferPointer)
      ensures Settled(old(currentOpCode), currentOpCode, Detect(buffer[..], bufferPointer, now), detected)
    {
      lastKeepAlive := now;
      detected := DetectPingPkt();
    }

    /** `DetectPingPkt`: walk, count, group, score, and adopt the best pair
      * when it differs from the current one. */
    method DetectPingPkt() returns (detected: Option<PingOpCode>)
      requires Valid()
      modifies this`currentOpCode
      ensures Settled(old(currentOpCode), currentOpCode, Detect(buffer[..], bufferPointer, lastKeepAlive), detected)
    {
      var stats := TallyRing(buffer, bufferPointer, lastKeepAlive);
      var pairs := CollectPairs(stats);
      GroupPairsGood(stats);
      var scores := Scores(pairs);
      if |scores| > 0 {
        var opCode := scores[ArgMax(scores)].pair;
        if opCode != currentOpCode {
          currentOpCode := opCode;
          return Some(opCode);
        }
      }
      return None;
    }
  }

  /** The walk loop of `DetectPingPkt`: newest slot first, back to the head
    * of the ring, stopping at the first slot outside the time window. */
  method TallyRing(buffer: array<PktHolder>, bufferPointer: nat, lastKeepAlive: int) returns (stats: StatTable)
    requires buffer.Length == BufferSize
    ensures stats == VisitedStats(buffer[..], bufferPointer, lastKeepAlive)
  {
    ghost var buf := buffer[..];
    ghost var target := Visited(buf, bufferPointer, lastKeepAlive);
    var head := if bufferPointer <= buffer.Length then 0 else bufferPointer - buffer.Length;
    ghost var seen: seq<PktHolder> := [];
    stats := [];
    var i: int := bufferPointer - 1;
    while i >= head
      invariant head - 1 <= i < bufferPointer
      invariant seen + Walk(buf, i, head, lastKeepAlive) == target
      invariant stats == Tally(seen)
      decreases i - head + 1
    {
      var cur := buffer[i % BufferSize];
      assert cur == buf[i % BufferSize];
      if Abs(cur.timeStamp - lastKeepAlive) > TimeWindow {
        break;
      }
      WalkAdvance(buf, i, head, lastKeepAlive, seen, target);
      stats := Record(stats, PingIndexOf(cur), cur.opCode, cur.clientSent);
      seen := seen + [cur];
      i := i - 1;
    }
    WalkEnd(buf, i, head, lastKeepAlive, seen, target);
  }

  /** A step of the walk over a slot inside the time window counts it. */
  lemma {:induction false} WalkAdvance(buf: seq<PktHolder>, i: int, head: nat, lastKeepAlive: int, seen: seq<PktHolder>, target: seq<PktHolder>)
    requires |buf| == BufferSize && i >= head && InWindow(buf[i % BufferSize], lastKeepAlive)
    requires seen + Walk(buf, i, head, lastKeepAlive) == target
    ensures (seen + [buf[i % BufferSize]]) + Walk(buf, i - 1, head, lastKeepAlive) == target
    ensures Tally(seen + [buf[i % BufferSize]]) == Record(Tally(seen), PingIndexOf(buf[i % BufferSize]), buf[i % BufferSize].opCode, buf[i % BufferSize].clientSent)
  {
    var b := buf[i % BufferSize];
    assert Walk(buf, i, head, lastKeepAlive) == [b] + Walk(buf, i - 1, head, lastKeepAlive);
    assert seen + ([b] + Walk(buf, i - 1, head, lastKeepAlive)) == (seen + [b]) + Walk(buf, i - 1, head, lastKeepAlive);
    assert (seen + [b])[..|seen|] == seen;
  }

  /** The walk ends before the head of the ring or at a slot outside the window. */
  lemma {:induction false} WalkEnd(buf: seq<PktHolder>, i: int, head: nat, lastKeepAlive: int, seen: seq<PktHolder>, target: seq<PktHolder>)
    requires |buf| == BufferSize && (i < head || !InWindow(buf[i % BufferSize], lastKeepAlive))
    requires seen + Walk(buf, i, head, lastKeepAlive) == target
    ensures seen == target
  {
    assert Walk(buf, i, head, lastKeepAlive) == [];
    assert seen + [] == seen;
  }

  /** The current opcode is replaced by the detected pair exactly when one was
    * found and it differs; the event carries it then and only then. */
  predicate Settled(before: PingOpCode, after: PingOpCode, found: Option<PingOpCode>, detected: Option<PingOpCode>) {
    if found.Some? && found.value != before then after == found.value && detected == found
    else after == before && detected == None
  }
}

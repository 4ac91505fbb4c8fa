/**
 * The older segment-header parser of the console front end: it reports
 * failure through a negative return code and assigns its `ref` header
 * argument only on success.
 */
module LegacyPackets {
  import opened Bytes
  import opened Def
  import Packets

  /** `ParseSegmentHeader(buffer, offset, ref header)`: the return code and the
    * value `header` holds afterwards. */
  function ParseSegmentHeader(buffer: seq<u8>, offset: nat, header: SegmentHeader): (r: (int, SegmentHeader))
    ensures r.0 == 16 || r.0 == Packets.ErrorCode(Packets.Incomplete) || r.0 == Packets.ErrorCode(Packets.Malformed)
    ensures r.0 == -1 <==> |buffer| < offset + 16
    ensures r.0 == -2 <==> |buffer| >= offset + 16 && ReadLE(buffer, offset, 4) > Packets.MaxSegmentSize
    ensures r.0 < 0 ==> r.1 == header
    ensures r.0 == 16 ==> SegmentHeaderValue(r.1) == Decode(SegmentHeaderKind, buffer, offset) && r.1.size <= Packets.MaxSegmentSize
  {
    var headerSize := SizeOf(SegmentHeaderKind);
    if |buffer| < offset + headerSize then (Packets.ErrorCode(Packets.Incomplete), header)
    else
      var h := Decode(SegmentHeaderKind, buffer, offset).segmentHeader;
      if h.size > Packets.MaxSegmentSize then (Packets.ErrorCode(Packets.Malformed), header)
      else (headerSize, h)
  }

  /** The old and the new parser agree: the same header on success, and the
    * code of the same error kind on failure. */
  lemma {:induction false} AgreesWithExceptionParser(buffer: seq<u8>, offset: nat, header: SegmentHeader)
    ensures var (code, h) := ParseSegmentHeader(buffer, offset, header);
            match Packets.ParseSegmentHeader(buffer, offset)
            case Ok(p) => code == p.consumed && h == p.value
            case Failure(e) => code == Packets.ErrorCode(e) && h == header
  {
    if |buffer| >= offset + 16 {
      var d := Decode(SegmentHeaderKind, buffer, offset);
      assert Packets.NaiveParsePacket(SegmentHeaderKind, buffer, offset) == Packets.Ok(Packets.Parsed(16, d));
    }
  }
}

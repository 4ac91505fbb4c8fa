/**
 * The reflection-driven byte-order fix-up that runs before a struct is
 * marshalled out of a buffer, and the tick-to-milliseconds conversion.
 *
 * The fix-up walks the instance fields of a struct type in declaration
 * order; a field whose type has no instance fields of its own has its bytes
 * reversed in place, a field of struct type is handled recursively, and
 * static and string fields are skipped. This happens only when the host's
 * byte order differs from the one requested.
 */
module Util {
  import opened Bytes
  import opened Def

  // ---------------------------------------------------------------------
  // Byte ranges touched by the fix-up

  /** The `len` bytes starting at `start`. */
  datatype Range = Range(start: nat, len: nat)

  predicate InRange(r: Range, p: int) {
    r.start <= p < r.start + r.len
  }

  /** Position of `p`'s partner when range `r` is reversed. */
  function Mirror(r: Range, p: int): int {
    2 * r.start + r.len - 1 - p
  }

  predicate InBounds(rs: seq<Range>, size: nat) {
    forall j :: 0 <= j < |rs| ==> rs[j].start + rs[j].len <= size
  }

  /** The ranges follow each other without overlapping. */
  predicate Ascending(rs: seq<Range>) {
    forall i, j :: 0 <= i < j < |rs| ==> rs[i].start + rs[i].len <= rs[j].start
  }

  /** The ranges reversed, in order, when the fields of `t` are fixed up at `base`.
    * A type without instance fields (a scalar) contributes nothing. */
  function Ranges(t: FieldType, base: nat): seq<Range>
    decreases t, 1
  {
    if t.Struct? then FieldsRanges(t, |t.fields|, base) else []
  }

  /** The ranges of the first `n` fields of struct type `t`. */
  function FieldsRanges(t: FieldType, n: nat, base: nat): seq<Range>
    requires t.Struct? && n <= |t.fields|
    decreases t, 0, n
  {
    if n == 0 then []
    else
      var f := t.fields[n - 1];
      assert f in t.fields;
      FieldsRanges(t, n - 1, base) + FieldRanges(t, f, base)
  }

  /** The ranges one field contributes: its own bytes when its type is a scalar,
    * the ranges of its fields when it is a struct, none when it is skipped. */
  function FieldRanges(t: FieldType, f: Field, base: nat): seq<Range>
    requires t.Struct? && f in t.fields
    decreases t, 0, 0
  {
    match f.ftype
    case Scalar(n) => [Range(base + f.offset, n)]
    case Struct(_) => Ranges(f.ftype, base + f.offset)
    case Ignored => []
  }

  /** The field tables' ranges, written out. */
  function LayoutRanges(kind: StructKind, off: nat): seq<Range> {
    match kind
    case SegmentHeaderKind =>
      [Range(off, 4), Range(off + 4, 4), Range(off + 8, 4), Range(off + 12, 2), Range(off + 14, 2)]
    case KeepAliveKind => [Range(off, 4), Range(off + 4, 4)]
    case IpcHeaderKind =>
      [Range(off, 1), Range(off + 1, 1), Range(off + 2, 2), Range(off + 4, 2),
       Range(off + 6, 2), Range(off + 8, 4), Range(off + 12, 4)]
    case ClientPingKind => [Range(off, 4), Range(off + 4, 1)]
    case ServerPingKind => [Range(off, 8), Range(off + 8, 1)]
  }

  /** Each range ends before the next one starts. */
  predicate Chained(rs: seq<Range>) {
    forall i :: 0 < i < |rs| ==> rs[i - 1].start + rs[i - 1].len <= rs[i].start
  }

  lemma {:induction false} ChainedAscending(rs: seq<Range>)
    requires Chained(rs)
    ensures Ascending(rs)
  {
    forall i, j | 0 <= i < j < |rs|
      ensures rs[i].start + rs[i].len <= rs[j].start
    {
      ChainedPair(rs, i, j);
    }
  }

  lemma {:induction false} ChainedPair(rs: seq<Range>, i: nat, j: nat)
    requires Chained(rs) && i < j < |rs|
    ensures rs[i].start + rs[i].len <= rs[j].start
    decreases j - i
  {
    if i + 1 < j {
      ChainedPair(rs, i, j - 1);
      assert rs[j - 1].start + rs[j - 1].len <= rs[j].start;
    }
  }

  /** Every layout's fix-up reverses each scalar field, nested one-byte buffers
    * included, and stays inside the struct's own bytes, in ascending order. */
  lemma {:induction false} RangesOfLayout(kind: StructKind, off: nat)
    ensures Ranges(TypeOf(kind), off) == LayoutRanges(kind, off)
    ensures Ascending(LayoutRanges(kind, off))
    ensures InBounds(LayoutRanges(kind, off), off + SizeOf(kind))
    ensures forall j :: 0 <= j < |LayoutRanges(kind, off)| ==> off <= LayoutRanges(kind, off)[j].start
  {
    match kind {
      case SegmentHeaderKind => SegmentHeaderRanges(off);
      case KeepAliveKind => KeepAliveRanges(off);
      case IpcHeaderKind => IpcHeaderRanges(off);
      case ClientPingKind => ClientPingRanges(off);
      case ServerPingKind => ServerPingRanges(off);
    }
    var rs := LayoutRanges(kind, off);
    ChainedAscending(rs);
    ChainedWithin(rs, off, off + SizeOf(kind));
  }

  /** A chain lies between the start of its first range and the end of its last one. */
  lemma {:induction false} ChainedWithin(rs: seq<Range>, lo: nat, hi: nat)
    requires Chained(rs) && |rs| > 0
    requires lo <= rs[0].start && rs[|rs| - 1].start + rs[|rs| - 1].len <= hi
    ensures InBounds(rs, hi)
    ensures forall j :: 0 <= j < |rs| ==> lo <= rs[j].start
  {
    var last := |rs| - 1;
    forall j | 0 <= j < |rs|
      ensures lo <= rs[j].start && rs[j].start + rs[j].len <= hi
    {
      if 0 < j { ChainedPair(rs, 0, j); }
      if j < last { ChainedPair(rs, j, last); }
    }
  }

  lemma {:induction false} SegmentHeaderRanges(off: nat)
    ensures Ranges(SegmentHeaderType, off) == LayoutRanges(SegmentHeaderKind, off)
    ensures Chained(LayoutRanges(SegmentHeaderKind, off))
  {
    var t := SegmentHeaderType;
    assert FieldsRanges(t, 5, off) == FieldsRanges(t, 4, off) + [Range(off + 14, 2)];
    assert FieldsRanges(t, 4, off) == FieldsRanges(t, 3, off) + [Range(off + 12, 2)];
    assert FieldsRanges(t, 3, off) == FieldsRanges(t, 2, off) + [Range(off + 8, 4)];
    assert FieldsRanges(t, 2, off) == FieldsRanges(t, 1, off) + [Range(off + 4, 4)];
  }

  lemma {:induction false} KeepAliveRanges(off: nat)
    ensures Ranges(KeepAliveDataType, off) == LayoutRanges(KeepAliveKind, off)
    ensures Chained(LayoutRanges(KeepAliveKind, off))
  {
    var t := KeepAliveDataType;
    assert FieldsRanges(t, 2, off) == FieldsRanges(t, 1, off) + [Range(off + 4, 4)];
  }

  lemma {:induction false} IpcHeaderRanges(off: nat)
    ensures Ranges(IpcHeaderType, off) == LayoutRanges(IpcHeaderKind, off)
    ensures Chained(LayoutRanges(IpcHeaderKind, off))
  {
    var t := IpcHeaderType;
    assert FieldsRanges(t, 7, off) == FieldsRanges(t, 6, off) + [Range(off + 12, 4)];
    assert FieldsRanges(t, 6, off) == FieldsRanges(t, 5, off) + [Range(off + 8, 4)];
    assert FieldsRanges(t, 5, off) == FieldsRanges(t, 4, off) + [Range(off + 6, 2)];
    assert FieldsRanges(t, 4, off) == FieldsRanges(t, 3, off) + [Range(off + 4, 2)];
    assert FieldsRanges(t, 3, off) == FieldsRanges(t, 2, off) + [Range(off + 2, 2)];
    assert FieldsRanges(t, 2, off) == FieldsRanges(t, 1, off) + [Range(off + 1, 1)];
  }

  lemma {:induction false} ClientPingRanges(off: nat)
    ensures Ranges(ClientIpcPingDataType, off) == LayoutRanges(ClientPingKind, off)
    ensures Chained(LayoutRanges(ClientPingKind, off))
  {
    var t := ClientIpcPingDataType;
    assert Ranges(FixedByteBuffer, off + 4) == [Range(off + 4, 1)];
    assert FieldsRanges(t, 2, off) == FieldsRanges(t, 1, off) + [Range(off + 4, 1)];
  }

  lemma {:induction false} ServerPingRanges(off: nat)
    ensures Ranges(ServerIpcPingDataType, off) == LayoutRanges(ServerPingKind, off)
    ensures Chained(LayoutRanges(ServerPingKind, off))
  {
    var t := ServerIpcPingDataType;
    assert Ranges(FixedByteBuffer, off + 8) == [Range(off + 8, 1)];
    assert FieldsRanges(t, 2, off) == FieldsRanges(t, 1, off) + [Range(off + 8, 1)];
  }

  // ---------------------------------------------------------------------
  // The effect of the fix-up on the buffer's contents

  /** `Array.Reverse(data, r.start, r.len)` on the buffer's contents. */
  function ReverseRange(s: seq<u8>, r: Range): (t: seq<u8>)
    requires r.start + r.len <= |s|
    ensures |t| == |s|
    ensures forall p :: 0 <= p < |s| && InRange(r, p) ==> t[p] == s[Mirror(r, p)]
    ensures forall p :: 0 <= p < |s| && !InRange(r, p) ==> t[p] == s[p]
  {
    seq(|s|, p requires 0 <= p < |s| => if InRange(r, p) then s[Mirror(r, p)] else s[p])
  }

  /** The ranges reversed one after the other, first to last. */
  function Reversals(s: seq<u8>, rs: seq<Range>): (t: seq<u8>)
    requires InBounds(rs, |s|)
    ensures |t| == |s|
  {
    if |rs| == 0 then s
    else ReverseRange(Reversals(s, rs[..|rs| - 1]), rs[|rs| - 1])
  }

  lemma {:induction false} ReversalsAppend(s: seq<u8>, a: seq<Range>, b: seq<Range>)
    requires InBounds(a + b, |s|)
    ensures InBounds(a, |s|) && InBounds(b, |s|)
    ensures Reversals(s, a + b) == Reversals(Reversals(s, a), b)
    decreases |b|
  {
    assert forall j :: 0 <= j < |a| ==> a[j] == (a + b)[j];
    assert forall j :: 0 <= j < |b| ==> b[j] == (a + b)[|a| + j];
    if |b| == 0 {
      assert a + b == a;
    } else {
      var b' := b[..|b| - 1];
      assert (a + b)[..|a + b| - 1] == a + b';
      assert (a + b)[|a + b| - 1] == b[|b| - 1];
      ReversalsAppend(s, a, b');
    }
  }

  /** Inside range `j` of ascending ranges, a reversed byte comes from the mirror position. */
  lemma {:induction false} ReversalsInside(s: seq<u8>, rs: seq<Range>, j: nat, p: nat)
    requires InBounds(rs, |s|) && Ascending(rs) && p < |s|
    requires j < |rs| && InRange(rs[j], p)
    ensures Reversals(s, rs)[p] == s[Mirror(rs[j], p)]
    decreases |rs|
  {
    var n := |rs| - 1;
    var init := rs[..n];
    PrefixKeepsOrder(rs, |s|, n);
    if j == n {
      var q := Mirror(rs[j], p);
      ReversalsOutside(s, init, q);
    } else {
      assert !InRange(rs[n], p);
      ReversalsInside(s, init, j, p);
    }
  }

  /** Outside every range, a byte is left as it was. */
  lemma {:induction false} ReversalsOutside(s: seq<u8>, rs: seq<Range>, p: nat)
    requires InBounds(rs, |s|) && Ascending(rs) && p < |s|
    requires forall j :: 0 <= j < |rs| ==> !InRange(rs[j], p)
    ensures Reversals(s, rs)[p] == s[p]
    decreases |rs|
  {
    if |rs| > 0 {
      var n := |rs| - 1;
      var init := rs[..n];
      PrefixKeepsOrder(rs, |s|, n);
      assert !InRange(rs[n], p);
      assert forall i :: 0 <= i < n ==> init[i] == rs[i];
      ReversalsOutside(s, init, p);
    }
  }

  lemma {:induction false} PrefixKeepsOrder(rs: seq<Range>, size: nat, n: nat)
    requires InBounds(rs, size) && Ascending(rs) && n <= |rs|
    ensures InBounds(rs[..n], size) && Ascending(rs[..n])
  {
    assert forall i :: 0 <= i < n ==> rs[..n][i] == rs[i];
  }

  /** Fixing up twice gives the original bytes back. */
  lemma {:induction false} ReversalsInvolution(s: seq<u8>, rs: seq<Range>)
    requires InBounds(rs, |s|) && Ascending(rs)
    ensures Reversals(Reversals(s, rs), rs) == s
  {
    var t := Reversals(s, rs);
    var u := Reversals(t, rs);
    ReversalsMirror(s, rs);
    ReversalsMirror(t, rs);
    forall p | 0 <= p < |s|
      ensures u[p] == s[p]
    {
      if j :| 0 <= j < |rs| && InRange(rs[j], p) {
        var q := Mirror(rs[j], p);
        assert InRange(rs[j], q) && Mirror(rs[j], q) == p;
      } else {
        assert NoRangeHolds(rs, p);
      }
    }
  }

  /** A little-endian reading of a mirrored range equals the big-endian reading of the original. */
  lemma {:induction false} ReadLEOfMirror(t: seq<u8>, a: nat, s: seq<u8>, b: nat, n: nat)
    requires a + n <= |t| && b + n <= |s|
    requires forall i :: a <= i < a + n ==> t[i] == s[b + n - 1 - (i - a)]
    ensures ReadLE(t, a, n) == ReadBE(s, b, n)
    decreases n
  {
    if n > 0 {
      assert t[a] == s[b + n - 1];
      ReadLEOfMirror(t, a + 1, s, b, n - 1);
    }
  }

  /** `t` is `s` with every range of `rs` reversed: inside a range each byte
    * comes from its mirror position, outside all of them it is unchanged. */
  predicate MirrorOf(s: seq<u8>, t: seq<u8>, rs: seq<Range>) {
    && |t| == |s|
    && InBounds(rs, |s|)
    && (forall j, p {:trigger InRange(rs[j], p)} ::
          0 <= j < |rs| && 0 <= p < |s| && InRange(rs[j], p) ==> t[p] == s[Mirror(rs[j], p)])
    && (forall p :: 0 <= p < |s| && NoRangeHolds(rs, p) ==> t[p] == s[p])
  }

  predicate NoRangeHolds(rs: seq<Range>, p: int) {
    forall j :: 0 <= j < |rs| ==> !InRange(rs[j], p)
  }

  lemma {:induction false} ReversalsMirror(s: seq<u8>, rs: seq<Range>)
    requires InBounds(rs, |s|) && Ascending(rs)
    ensures MirrorOf(s, Reversals(s, rs), rs)
  {
    var t := Reversals(s, rs);
    forall j, p | 0 <= j < |rs| && 0 <= p < |s| && InRange(rs[j], p)
      ensures t[p] == s[Mirror(rs[j], p)]
    {
      ReversalsInside(s, rs, j, p);
    }
    forall p | 0 <= p < |s| && NoRangeHolds(rs, p)
      ensures t[p] == s[p]
    {
      ReversalsOutside(s, rs, p);
    }
  }

  /** Reading range `j` of the mirrored bytes in the opposite order gives what
    * reading the original bytes in the given order gives. */
  lemma {:induction false} FlippedRead(s: seq<u8>, t: seq<u8>, rs: seq<Range>, j: nat, start: nat, len: nat, order: Endianness)
    requires MirrorOf(s, t, rs) && j < |rs| && rs[j] == Range(start, len)
    ensures start + len <= |s|
    ensures Read(t, start, len, Flip(order)) == Read(s, start, len, order)
  {
    forall i | start <= i < start + len
      ensures t[i] == s[start + len - 1 - (i - start)]
    {
      assert InRange(rs[j], i) && Mirror(rs[j], i) == start + len - 1 - (i - start);
    }
    if order == LittleEndian {
      ReadBEOfMirror(t, start, s, start, len);
    } else {
      ReadLEOfMirror(t, start, s, start, len);
    }
  }

  /** Bytes lo..hi are left as they were when every range meeting them is a single byte. */
  lemma {:induction false} SameBytes(s: seq<u8>, t: seq<u8>, rs: seq<Range>, lo: nat, hi: nat)
    requires MirrorOf(s, t, rs) && lo <= hi <= |s|
    requires forall j, p :: 0 <= j < |rs| && lo <= p < hi && InRange(rs[j], p) ==> rs[j] == Range(p, 1)
    ensures t[lo..hi] == s[lo..hi]
  {
    forall p | lo <= p < hi
      ensures t[p] == s[p]
    {
      if !NoRangeHolds(rs, p) {
        var j :| 0 <= j < |rs| && InRange(rs[j], p);
        assert rs[j] == Range(p, 1);
        assert Mirror(rs[j], p) == p;
      }
    }
  }

  // ---------------------------------------------------------------------
  // What the marshaller reads

  function HostRead(s: seq<u8>, off: nat, n: nat, order: Endianness): (v: nat)
    requires off + n <= |s|
    ensures v < Pow256(n)
  {
    Read(s, off, n, order)
  }

  /** The struct `Marshal.PtrToStructure` builds from the bytes at `off` on a
    * host of byte order `order`: scalar fields in host order, byte buffers as they are. */
  function HostDecode(kind: StructKind, s: seq<u8>, off: nat, order: Endianness): (v: Struct)
    requires off + SizeOf(kind) <= |s|
    ensures KindOf(v) == kind
  {
    match kind
    case SegmentHeaderKind =>
      SegmentHeaderValue(SegmentHeader(Read(s, off, 4, order), Read(s, off + 4, 4, order),
                                       Read(s, off + 8, 4, order), Read(s, off + 12, 2, order),
                                       Read(s, off + 14, 2, order)))
    case KeepAliveKind => KeepAliveValue(KeepAliveData(Read(s, off, 4, order), Read(s, off + 4, 4, order)))
    case IpcHeaderKind =>
      IpcHeaderValue(IpcHeader(Read(s, off, 1, order), Read(s, off + 1, 1, order), Read(s, off + 2, 2, order),
                               Read(s, off + 4, 2, order), Read(s, off + 6, 2, order),
                               Read(s, off + 8, 4, order), Read(s, off + 12, 4, order)))
    case ClientPingKind => ClientPingValue(ClientIpcPingData(Read(s, off, 4, order), s[off + 4..off + 24]))
    case ServerPingKind => ServerPingValue(ServerIpcPingData(Read(s, off, 8, order), s[off + 8..off + 32]))
  }

  /** The fix-up followed by a read in the opposite byte order sees what a
    * read of the original bytes in the requested order sees. */
  lemma {:induction false} HostDecodeOfFixedUp(kind: StructKind, s: seq<u8>, off: nat, order: Endianness)
    requires off + SizeOf(kind) <= |s|
    ensures InBounds(Ranges(TypeOf(kind), off), |s|)
    ensures HostDecode(kind, Reversals(s, Ranges(TypeOf(kind), off)), off, Flip(order))
         == HostDecode(kind, s, off, order)
  {
    RangesOfLayout(kind, off);
    var rs := LayoutRanges(kind, off);
    ReversalsMirror(s, rs);
    var t := Reversals(s, rs);
    match kind
    case SegmentHeaderKind => FixedUpSegmentHeader(s, t, off, order);
    case KeepAliveKind => FixedUpKeepAlive(s, t, off, order);
    case IpcHeaderKind => FixedUpIpcHeader(s, t, off, order);
    case ClientPingKind => FixedUpClientPing(s, t, off, order);
    case ServerPingKind => FixedUpServerPing(s, t, off, order);
  }

  lemma {:induction false} FixedUpSegmentHeader(s: seq<u8>, t: seq<u8>, off: nat, order: Endianness)
    requires off + 16 <= |s| && MirrorOf(s, t, LayoutRanges(SegmentHeaderKind, off))
    ensures HostDecode(SegmentHeaderKind, t, off, Flip(order)) == HostDecode(SegmentHeaderKind, s, off, order)
  {
    var rs := LayoutRanges(SegmentHeaderKind, off);
    FlippedRead(s, t, rs, 0, off, 4, order);
    FlippedRead(s, t, rs, 1, off + 4, 4, order);
    FlippedRead(s, t, rs, 2, off + 8, 4, order);
    FlippedRead(s, t, rs, 3, off + 12, 2, order);
    FlippedRead(s, t, rs, 4, off + 14, 2, order);
  }

  lemma {:induction false} FixedUpKeepAlive(s: seq<u8>, t: seq<u8>, off: nat, order: Endianness)
    requires off + 8 <= |s| && MirrorOf(s, t, LayoutRanges(KeepAliveKind, off))
    ensures HostDecode(KeepAliveKind, t, off, Flip(order)) == HostDecode(KeepAliveKind, s, off, order)
  {
    var rs := LayoutRanges(KeepAliveKind, off);
    FlippedRead(s, t, rs, 0, off, 4, order);
    FlippedRead(s, t, rs, 1, off + 4, 4, order);
  }

  lemma {:induction false} FixedUpIpcHeader(s: seq<u8>, t: seq<u8>, off: nat, order: Endianness)
    requires off + 16 <= |s| && MirrorOf(s, t, LayoutRanges(IpcHeaderKind, off))
    ensures HostDecode(IpcHeaderKind, t, off, Flip(order)) == HostDecode(IpcHeaderKind, s, off, order)
  {
    var rs := LayoutRanges(IpcHeaderKind, off);
    FlippedRead(s, t, rs, 0, off, 1, order);
    FlippedRead(s, t, rs, 1, off + 1, 1, order);
    FlippedRead(s, t, rs, 2, off + 2, 2, order);
    FlippedRead(s, t, rs, 3, off + 4, 2, order);
    FlippedRead(s, t, rs, 4, off + 6, 2, order);
    FlippedRead(s, t, rs, 5, off + 8, 4, order);
    FlippedRead(s, t, rs, 6, off + 12, 4, order);
  }

  lemma {:induction false} FixedUpClientPing(s: seq<u8>, t: seq<u8>, off: nat, order: Endianness)
    requires off + 24 <= |s| && MirrorOf(s, t, LayoutRanges(ClientPingKind, off))
    ensures HostDecode(ClientPingKind, t, off, Flip(order)) == HostDecode(ClientPingKind, s, off, order)
  {
    var rs := LayoutRanges(ClientPingKind, off);
    FlippedRead(s, t, rs, 0, off, 4, order);
    SameBytes(s, t, rs, off + 4, off + 24);
  }

  lemma {:induction false} FixedUpServerPing(s: seq<u8>, t: seq<u8>, off: nat, order: Endianness)
    requires off + 32 <= |s| && MirrorOf(s, t, LayoutRanges(ServerPingKind, off))
    ensures HostDecode(ServerPingKind, t, off, Flip(order)) == HostDecode(ServerPingKind, s, off, order)
  {
    var rs := LayoutRanges(ServerPingKind, off);
    FlippedRead(s, t, rs, 0, off, 8, order);
    SameBytes(s, t, rs, off + 8, off + 32);
  }

  /** Fixing up a buffer on a host whose order differs from the requested one
    * rewrites its bytes: the buffer handed in is not left as it was. */
  lemma {:induction false} FixUpRewritesBuffer()
    ensures var rs := Ranges(KeepAliveDataType, 0);
            InBounds(rs, 8) && Reversals([1, 0, 0, 0, 0, 0, 0, 0], rs) == [0, 0, 0, 1, 0, 0, 0, 0]
  {
    RangesOfLayout(KeepAliveKind, 0);
    var s: seq<u8> := [1, 0, 0, 0, 0, 0, 0, 0];
    var rs := LayoutRanges(KeepAliveKind, 0);
    var t := Reversals(s, rs);
    forall p | 0 <= p < 8
      ensures t[p] == [0, 0, 0, 1, 0, 0, 0, 0][p]
    {
      if p < 4 {
        ReversalsInside(s, rs, 0, p);
      } else {
        ReversalsInside(s, rs, 1, p);
      }
    }
  }

  /** The fix-up is left in the caller's buffer, so marshalling the same range
    * again (with the same requested order) reverses it back and reads the
    * ORIGINAL bytes in the host's order instead of the requested one. */
  lemma {:induction false} SecondDecodeSeesHostOrder(kind: StructKind, s: seq<u8>, off: nat, order: Endianness)
    requires off + SizeOf(kind) <= |s|
    ensures InBounds(Ranges(TypeOf(kind), off), |s|)
    ensures var t := Reversals(s, Ranges(TypeOf(kind), off));
            && |t| == |s|
            && HostDecode(kind, t, off, order) == HostDecode(kind, s, off, Flip(order))
            && Reversals(t, Ranges(TypeOf(kind), off)) == s
  {
    RangesOfLayout(kind, off);
    HostDecodeOfFixedUp(kind, s, off, Flip(order));
    assert Flip(Flip(order)) == order;
    ReversalsInvolution(s, LayoutRanges(kind, off));
  }

  /** For keep-alive bytes `01 00 00 00 ...` requested big-endian on a
    * little-endian host, the first call sees id 0x01000000 and a second call
    * on the same buffer sees id 1. */
  lemma {:induction false} SecondDecodeDiffers()
    ensures var s: seq<u8> := [1, 0, 0, 0, 0, 0, 0, 0];
            var t := Reversals(s, LayoutRanges(KeepAliveKind, 0));
            && HostDecode(KeepAliveKind, s, 0, BigEndian).keepAlive.id == 0x0100_0000
            && HostDecode(KeepAliveKind, t, 0, BigEndian).keepAlive.id == 1
  {
    var s: seq<u8> := [1, 0, 0, 0, 0, 0, 0, 0];
    var u: seq<u8> := [0, 0, 0, 1, 0, 0, 0, 0];
    FixUpRewritesBuffer();
    RangesOfLayout(KeepAliveKind, 0);
    assert Reversals(s, LayoutRanges(KeepAliveKind, 0)) == u;
    KeepAliveIdBigEndian(s);
    KeepAliveIdBigEndian(u);
  }

  /** The keep-alive id a big-endian host reads from the first four bytes. */
  lemma {:induction false} KeepAliveIdBigEndian(s: seq<u8>)
    requires |s| >= 8
    ensures HostDecode(KeepAliveKind, s, 0, BigEndian).keepAlive.id
         == ((s[0] as int * 256 + s[1] as int) * 256 + s[2] as int) * 256 + s[3] as int
  {
    ReadBEFirstWord(s);
  }

  /** The big-endian reading of the first four bytes. */
  lemma {:induction false} ReadBEFirstWord(s: seq<u8>)
    requires |s| >= 4
    ensures ReadBE(s, 0, 4) == ((s[0] as int * 256 + s[1] as int) * 256 + s[2] as int) * 256 + s[3] as int
  {
    assert ReadBE(s, 0, 1) == s[0] as int;
    assert ReadBE(s, 0, 2) == s[0] as int * 256 + s[1] as int;
    assert ReadBE(s, 0, 3) == (s[0] as int * 256 + s[1] as int) * 256 + s[2] as int;
  }

  // ---------------------------------------------------------------------
  // The fix-up and the marshalling call, on the buffer in place

  /** `Array.Reverse(a, start, len)`. */
  method ReverseInPlace(a: array<u8>, start: nat, len: nat)
    requires start + len <= a.Length
    modifies a
    ensures a[..] == ReverseRange(old(a[..]), Range(start, len))
  {
    ghost var r := Range(start, len);
    var lo, hi := start, start + len;
    while lo + 1 < hi
      invariant start <= lo <= hi <= start + len
      invariant lo - start == start + len - hi
      invariant forall p :: 0 <= p < a.Length && (start <= p < lo || hi <= p < start + len) ==>
                  a[p] == old(a[..])[Mirror(r, p)]
      invariant forall p :: 0 <= p < a.Length && !(start <= p < lo || hi <= p < start + len) ==>
                  a[p] == old(a[p])
      decreases hi - lo
    {
      a[lo], a[hi - 1] := a[hi - 1], a[lo];
      lo, hi := lo + 1, hi - 1;
    }
    assert forall p :: lo <= p < hi ==> Mirror(r, p) == p;
  }

  /** Reverses, in place, the bytes of every scalar field of `t` placed at
    * `startOffset`, unless the host already has the requested byte order. */
  method MaybeAdjustEndianness(t: FieldType, data: array<u8>, endianness: Endianness, hostLittle: bool, startOffset: nat)
    requires InBounds(Ranges(t, startOffset), data.Length)
    modifies data
    ensures data[..] == if hostLittle == (endianness == LittleEndian) then old(data[..])
                        else Reversals(old(data[..]), Ranges(t, startOffset))
    decreases t, 1
  {
    if hostLittle == (endianness == LittleEndian) {
      return;
    }
    if !t.Struct? {
      // a scalar type has no instance fields to visit
      return;
    }
    var i := 0;
    while i < |t.fields|
      invariant 0 <= i <= |t.fields|
      invariant InBounds(FieldsRanges(t, i, startOffset), data.Length)
      invariant data[..] == Reversals(old(data[..]), FieldsRanges(t, i, startOffset))
    {
      var f := t.fields[i];
      assert f in t.fields;
      FieldsRangesInBounds(t, i + 1, |t.fields|, startOffset, data.Length);
      ReversalsAppend(old(data[..]), FieldsRanges(t, i, startOffset), FieldRanges(t, f, startOffset));
      AdjustField(t, f, data, endianness, hostLittle, startOffset);
      i := i + 1;
    }
  }

  /** One step of the walk over the fields: reverse a scalar field, recurse
    * into a struct field, skip a static or string field. */
  method AdjustField(t: FieldType, f: Field, data: array<u8>, endianness: Endianness, hostLittle: bool, startOffset: nat)
    requires t.Struct? && f in t.fields
    requires hostLittle != (endianness == LittleEndian)
    requires InBounds(FieldRanges(t, f, startOffset), data.Length)
    modifies data
    ensures data[..] == Reversals(old(data[..]), FieldRanges(t, f, startOffset))
    decreases t, 0
  {
    ghost var before := data[..];
    match f.ftype
    case Ignored =>
      assert FieldRanges(t, f, startOffset) == [];
    case Scalar(n) =>
      ghost var r := Range(startOffset + f.offset, n);
      assert FieldRanges(t, f, startOffset) == [r];
      assert [r][..0] == [] && [r][0] == r;
      assert Reversals(before, [r]) == ReverseRange(before, r);
      ReverseInPlace(data, startOffset + f.offset, n);
    case Struct(_) =>
      assert FieldRanges(t, f, startOffset) == Ranges(f.ftype, startOffset + f.offset);
      MaybeAdjustEndianness(f.ftype, data, endianness, hostLittle, startOffset + f.offset);
  }

  lemma {:induction false} FieldsRangesInBounds(t: FieldType, i: nat, n: nat, base: nat, size: nat)
    requires t.Struct? && i <= n <= |t.fields|
    requires InBounds(FieldsRanges(t, n, base), size)
    ensures InBounds(FieldsRanges(t, i, base), size)
    decreases n
  {
    if i < n {
      var a := FieldsRanges(t, n - 1, base);
      var b := FieldRanges(t, t.fields[n - 1], base);
      assert forall j :: 0 <= j < |a| ==> a[j] == (a + b)[j];
      FieldsRangesInBounds(t, i, n - 1, base, size);
    }
  }

  /** `ByteArrayToStructure<T>(bytes, offset, endianness)` on a host whose byte
    * order is little-endian exactly when `hostLittle`: the struct holds the
    * reading of the ORIGINAL bytes in the requested order, and the buffer is
    * left fixed up. */
  method ByteArrayToStructure(kind: StructKind, bytes: array<u8>, offset: nat, endianness: Endianness, hostLittle: bool)
    returns (v: Struct)
    requires offset + SizeOf(kind) <= bytes.Length
    modifies bytes
    ensures v == HostDecode(kind, old(bytes[..]), offset, endianness)
    ensures bytes[..] == if hostLittle == (endianness == LittleEndian) then old(bytes[..])
                         else Reversals(old(bytes[..]), LayoutRanges(kind, offset))
  {
    RangesOfLayout(kind, offset);
    HostDecodeOfFixedUp(kind, bytes[..], offset, endianness);
    MaybeAdjustEndianness(TypeOf(kind), bytes, endianness, hostLittle, offset);
    var host := if hostLittle then LittleEndian else BigEndian;
    v := HostDecode(kind, bytes[..], offset, host);
  }

  // ---------------------------------------------------------------------
  // Time

  /** Ticks (100 ns units) of 1970-01-01T00:00:00. */
  const Ticks1970: int := 621355968000000000
  const TicksPerMillisecond: nat := 10000

  /** Integer division rounding toward zero, as C#'s `/` on `long`. */
  function TruncDiv(a: int, b: nat): (q: int)
    requires b > 0
    ensures a >= 0 ==> q >= 0 && q * b <= a < q * b + b
    ensures a < 0 ==> q <= 0 && q * b - b < a <= q * b
  {
    if a >= 0 then a / b else -((-a) / b)
  }

  /** `DateTime.EpochMillis()`: whole milliseconds since 1970, rounded toward zero. */
  function EpochMillis(ticks: int): (ms: int)
    ensures ticks >= Ticks1970 ==> ms >= 0 && ms * TicksPerMillisecond <= ticks - Ticks1970 < (ms + 1) * TicksPerMillisecond
    ensures ticks < Ticks1970 ==> ms <= 0 && (ms - 1) * TicksPerMillisecond < ticks - Ticks1970 <= ms * TicksPerMillisecond
  {
    TruncDiv(ticks - Ticks1970, TicksPerMillisecond)
  }

  /** Whole milliseconds survive the conversion exactly. */
  lemma {:induction false} EpochMillisOfWholeMillis(ms: int)
    ensures EpochMillis(Ticks1970 + ms * TicksPerMillisecond) == ms
  {
    var d := ms * TicksPerMillisecond;
    if d >= 0 {
      assert ms >= 0;
    } else {
      assert ms < 0;
      assert -d == (-ms) * TicksPerMillisecond;
    }
  }
}

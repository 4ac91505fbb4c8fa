/**
 * Fixed-width unsigned integers and their little- and big-endian byte
 * encodings. These are the scalar readers that `Marshal.PtrToStructure`
 * performs on a host of either byte order.
 */
module Bytes {

  type u8 = x: int | 0 <= x < 0x100
  type u16 = x: int | 0 <= x < 0x1_0000
  type u32 = x: int | 0 <= x < 0x1_0000_0000
  type u64 = x: int | 0 <= x < 0x1_0000_0000_0000_0000

  datatype Endianness = BigEndian | LittleEndian

  function Flip(e: Endianness): Endianness {
    if e == BigEndian then LittleEndian else BigEndian
  }

  /** 256^n */
  function Pow256(n: nat): (p: nat)
    ensures p >= 1
  {
    if n == 0 then 1 else 256 * Pow256(n - 1)
  }

  lemma {:induction false} Pow256Values()
    ensures Pow256(1) == 0x100 && Pow256(2) == 0x1_0000
    ensures Pow256(4) == 0x1_0000_0000 && Pow256(8) == 0x1_0000_0000_0000_0000
  {
  }

  /** Value of the n bytes s[off..off+n] read least significant byte first. */
  function ReadLE(s: seq<u8>, off: nat, n: nat): (v: nat)
    requires off + n <= |s|
    ensures v < Pow256(n)
    decreases n
  {
    if n == 0 then 0
    else
      var rest := ReadLE(s, off + 1, n - 1);
      assert s[off] + 256 * rest <= 255 + 256 * (Pow256(n - 1) - 1);
      s[off] + 256 * rest
  }

  /** Value of the n bytes s[off..off+n] read most significant byte first. */
  function ReadBE(s: seq<u8>, off: nat, n: nat): (v: nat)
    requires off + n <= |s|
    ensures v < Pow256(n)
    decreases n
  {
    if n == 0 then 0
    else
      var rest := ReadBE(s, off, n - 1);
      assert s[off + n - 1] + 256 * rest <= 255 + 256 * (Pow256(n - 1) - 1);
      s[off + n - 1] + 256 * rest
  }

  function Read(s: seq<u8>, off: nat, n: nat, order: Endianness): (v: nat)
    requires off + n <= |s|
    ensures v < Pow256(n)
  {
    if order == LittleEndian then ReadLE(s, off, n) else ReadBE(s, off, n)
  }

  /** The n-byte little-endian encoding of v (v is taken modulo 256^n). */
  function WriteLE(v: nat, n: nat): (s: seq<u8>)
    ensures |s| == n
    decreases n
  {
    if n == 0 then [] else [v % 256] + WriteLE(v / 256, n - 1)
  }

  /** A big-endian reading of a byte range equals the little-endian reading of its mirror image. */
  lemma {:induction false} ReadBEOfMirror(t: seq<u8>, a: nat, s: seq<u8>, b: nat, n: nat)
    requires a + n <= |t| && b + n <= |s|
    requires forall i :: a <= i < a + n ==> t[i] == s[b + n - 1 - (i - a)]
    ensures ReadBE(t, a, n) == ReadLE(s, b, n)
    decreases n
  {
    if n > 0 {
      assert t[a + n - 1] == s[b];
      ReadBEOfMirror(t, a, s, b + 1, n - 1);
    }
  }

  /** The little-endian reading depends only on the bytes it covers. */
  lemma {:induction false} ReadLESlice(s: seq<u8>, off: nat, n: nat)
    requires off + n <= |s|
    ensures ReadLE(s, off, n) == ReadLE(s[off..off + n], 0, n)
    decreases n
  {
    if n > 0 {
      ReadLESlice(s, off + 1, n - 1);
      ReadLESlice(s[off..off + n], 1, n - 1);
      assert s[off..off + n][1..1 + (n - 1)] == s[off + 1..off + 1 + (n - 1)];
    }
  }

  /** Decoding an encoded value gives it back. */
  lemma {:induction false} ReadWriteLE(v: nat, n: nat)
    requires v < Pow256(n)
    ensures ReadLE(WriteLE(v, n), 0, n) == v
    decreases n
  {
    if n > 0 {
      var s := WriteLE(v, n);
      ReadWriteLE(v / 256, n - 1);
      ReadLESlice(s, 1, n - 1);
      assert s[1..1 + (n - 1)] == WriteLE(v / 256, n - 1);
    }
  }

  /** Encoding a decoded value gives back the bytes. */
  lemma {:induction false} WriteReadLE(s: seq<u8>, off: nat, n: nat)
    requires off + n <= |s|
    ensures WriteLE(ReadLE(s, off, n), n) == s[off..off + n]
    decreases n
  {
    if n > 0 {
      var rest := ReadLE(s, off + 1, n - 1);
      var v := s[off] + 256 * rest;
      assert v % 256 == s[off];
      assert v / 256 == rest;
      WriteReadLE(s, off + 1, n - 1);
      assert s[off..off + n] == [s[off]] + s[off + 1..off + 1 + (n - 1)];
    }
  }

  /** The little-endian reading of `n` bytes placed at `off` inside a longer sequence. */
  lemma {:induction false} ReadLEInside(prefix: seq<u8>, v: nat, n: nat, suffix: seq<u8>)
    requires v < Pow256(n)
    ensures ReadLE(prefix + WriteLE(v, n) + suffix, |prefix|, n) == v
  {
    var s := prefix + WriteLE(v, n) + suffix;
    ReadLESlice(s, |prefix|, n);
    assert s[|prefix|..|prefix| + n] == WriteLE(v, n);
    ReadWriteLE(v, n);
  }

  /** Appending bytes does not change a reading that lies in front of them. */
  lemma {:induction false} ReadLEPrefix(x: seq<u8>, y: seq<u8>, off: nat, n: nat)
    requires off + n <= |x|
    ensures ReadLE(x + y, off, n) == ReadLE(x, off, n)
  {
    ReadLESlice(x + y, off, n);
    ReadLESlice(x, off, n);
    assert (x + y)[off..off + n] == x[off..off + n];
  }

  /** The encoding of `v` appended last reads back as `v`. */
  lemma {:induction false} ReadLELast(x: seq<u8>, v: nat, n: nat)
    requires v < Pow256(n)
    ensures ReadLE(x + WriteLE(v, n), |x|, n) == v
  {
    ReadLEInside(x, v, n, []);
    assert x + WriteLE(v, n) + [] == x + WriteLE(v, n);
  }

  /** An eight-byte reading is its low four bytes plus 2^32 times its high four bytes. */
  lemma {:induction false} ReadLESplit8(s: seq<u8>, off: nat)
    requires off + 8 <= |s|
    ensures ReadLE(s, off, 8) == ReadLE(s, off, 4) + 0x1_0000_0000 * ReadLE(s, off + 4, 4)
  {
    var b0, b1, b2, b3: int := s[off], s[off + 1], s[off + 2], s[off + 3];
    var hi := ReadLE(s, off + 4, 4);
    assert ReadLE(s, off + 3, 5) == b3 + 256 * hi;
    assert ReadLE(s, off + 2, 6) == b2 + 256 * b3 + 0x1_0000 * hi;
    assert ReadLE(s, off + 1, 7) == b1 + 256 * b2 + 0x1_0000 * b3 + 0x100_0000 * hi;
    assert ReadLE(s, off, 8) == b0 + 256 * b1 + 0x1_0000 * b2 + 0x100_0000 * b3 + 0x1_0000_0000 * hi;
    assert ReadLE(s, off + 3, 1) == b3;
    assert ReadLE(s, off + 2, 2) == b2 + 256 * b3;
    assert ReadLE(s, off + 1, 3) == b1 + 256 * b2 + 0x1_0000 * b3;
  }
}

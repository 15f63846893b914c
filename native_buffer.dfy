/**
 * The direct byte buffers the binding shares with native code, and the two
 * helpers `JavaScriptCoreLibrary.putLong` / `getLong` that store a native
 * `long` in them: eight bytes through `ByteBuffer.putLong` when
 * `sizeof(long)` is 8, otherwise the value narrowed by `(int)` and stored
 * through `putInt`. Buffers use the native byte order, taken here to be
 * little-endian.
 */
module NativeBuffer {
  import opened Base

  /** A byte of a direct buffer. */
  type Byte = x: int | 0 <= x < 256

  // ---------------------------------------------------------------------
  // Two's complement and little-endian images
  // ---------------------------------------------------------------------

  function Pow256(n: nat): (r: nat)
    ensures r > 0
  {
    if n == 0 then 1 else 256 * Pow256(n - 1)
  }

  lemma Pow256Widths()
    ensures Pow256(4) == TWO_32 && Pow256(8) == TWO_64
  {
    assert Pow256(2) == 0x1_0000;
    assert Pow256(4) == 0x1_0000 * Pow256(2);
    assert Pow256(6) == 0x1_0000 * Pow256(4);
  }

  /** The `n` low bytes of `u`, least significant first. */
  function LittleEndian(u: nat, n: nat): (r: seq<Byte>)
    ensures |r| == n
  {
    if n == 0 then [] else [u % 256] + LittleEndian(u / 256, n - 1)
  }

  /** The unsigned number whose little-endian bytes are `s`. */
  function Unsigned(s: seq<Byte>): (r: nat)
    ensures r < Pow256(|s|)
    decreases |s|, 1
  {
    if s == [] then 0 else UnsignedFirst(s)
  }

  /** The first byte, then the rest, of a non-empty run. */
  function UnsignedFirst(s: seq<Byte>): (r: nat)
    requires s != []
    ensures r < Pow256(|s|)
    decreases |s|, 0
  {
    s[0] + 256 * Unsigned(s[1..])
  }

  lemma {:induction false} UnsignedOfLittleEndian(u: nat, n: nat)
    requires u < Pow256(n)
    ensures Unsigned(LittleEndian(u, n)) == u
  {
    if n > 0 {
      var s := LittleEndian(u, n);
      assert s[1..] == LittleEndian(u / 256, n - 1);
      UnsignedOfLittleEndian(u / 256, n - 1);
    }
  }

  lemma {:induction false} LittleEndianOfUnsigned(s: seq<Byte>)
    ensures LittleEndian(Unsigned(s), |s|) == s
  {
    if s != [] {
      var u := Unsigned(s);
      assert u == UnsignedFirst(s) == s[0] + 256 * Unsigned(s[1..]);
      assert u % 256 == s[0] && u / 256 == Unsigned(s[1..]);
      LittleEndianOfUnsigned(s[1..]);
      assert s == [s[0]] + s[1..];
    }
  }

  /** The bits of a Java `long`, as an unsigned number. */
  function Unsigned64(v: Long): nat
  {
    if v < 0 then v + TWO_64 else v
  }

  /** The bits of a Java `int`, as an unsigned number. */
  function Unsigned32(v: Int32): nat
  {
    if v < 0 then v + TWO_32 else v
  }

  function Signed64(u: nat): Long
    requires u < TWO_64
  {
    if u < 0x8000_0000_0000_0000 then u else u - TWO_64
  }

  function Signed32(u: nat): Int32
    requires u < TWO_32
  {
    if u < 0x8000_0000 then u else u - TWO_32
  }

  // ---------------------------------------------------------------------
  // A native `long` slot
  // ---------------------------------------------------------------------

  /** The four bytes `ByteBuffer.putInt` stores for `v`. */
  function EncodeInt(v: Int32): (r: seq<Byte>)
    ensures |r| == 4
  {
    LittleEndian(Unsigned32(v), 4)
  }

  /** The `int` that `ByteBuffer.getInt` reads from four bytes. */
  function DecodeInt(s: seq<Byte>): Int32
    requires |s| == 4
  {
    Pow256Widths();
    Signed32(Unsigned(s))
  }

  /** The bytes `putLong` stores for `v` in a slot of width `w`. */
  function EncodeLong(v: Long, w: Width): (r: seq<Byte>)
    ensures |r| == w
  {
    if w == 8 then LittleEndian(Unsigned64(v), 8) else EncodeInt(Wrap32(v))
  }

  /** The value `getLong` reads from the bytes of a slot of width `w`. */
  function DecodeLong(s: seq<Byte>, w: Width): Long
    requires |s| == w
  {
    Pow256Widths();
    if w == 8 then Signed64(Unsigned(s)) else DecodeInt(s)
  }

  /** What a slot of width `w` keeps of a stored `long`. */
  function Retained(v: Long, w: Width): Long
  {
    if w == 8 then v else Wrap32(v)
  }

  lemma {:induction false} DecodeEncodeInt(v: Int32)
    ensures DecodeInt(EncodeInt(v)) == v
  {
    Pow256Widths();
    UnsignedOfLittleEndian(Unsigned32(v), 4);
  }

  lemma {:induction false} DecodeEncodeLong(v: Long, w: Width)
    ensures DecodeLong(EncodeLong(v, w), w) == Retained(v, w)
  {
    Pow256Widths();
    if w == 8 {
      UnsignedOfLittleEndian(Unsigned64(v), 8);
    } else {
      DecodeEncodeInt(Wrap32(v));
    }
  }

  /** Every run of four bytes is the image of the `int` read from it. */
  lemma EncodeDecodeInt(s: seq<Byte>)
    requires |s| == 4
    ensures EncodeInt(DecodeInt(s)) == s
  {
    Pow256Widths();
    LittleEndianOfUnsigned(s);
  }

  /** Every slot's bytes are the image of the value read from them. */
  lemma EncodeDecodeLong(s: seq<Byte>, w: Width)
    requires |s| == w
    ensures EncodeLong(DecodeLong(s, w), w) == s
  {
    Pow256Widths();
    if w == 8 {
      LittleEndianOfUnsigned(s);
    } else {
      EncodeDecodeInt(s);
    }
  }

  /** A slot keeps the stored value exactly when it is wide enough for it. */
  lemma RetainedExactly(v: Long, w: Width)
    ensures Retained(v, w) == v <==> (w == 8 || InInt32Range(v))
  {
    if w == 4 && !InInt32Range(v) {
      assert InInt32Range(Wrap32(v));
    }
  }

  // ---------------------------------------------------------------------
  // Buffers
  // ---------------------------------------------------------------------

  /** `s` with the bytes at `at .. at + |b|` replaced by `b`. */
  function Splice(s: seq<Byte>, at: nat, b: seq<Byte>): (r: seq<Byte>)
    requires at + |b| <= |s|
    ensures |r| == |s|
  {
    s[..at] + b + s[at + |b|..]
  }

  /** Byte by byte: the window holds `b`, every other byte is as it was. */
  lemma SpliceAt(s: seq<Byte>, at: nat, b: seq<Byte>, i: nat)
    requires at + |b| <= |s| && i < |s|
    ensures Splice(s, at, b)[i] == if at <= i < at + |b| then b[i - at] else s[i]
  {
  }

  /** The window of `n` bytes at `j` and the window of `m` bytes at `at` do not overlap. */
  predicate Apart(at: int, m: int, j: int, n: int)
  {
    j + n <= at || at + m <= j
  }

  /** Writing a window leaves every window that does not overlap it as it was. */
  lemma {:induction false} SpliceKeepsWindow(s: seq<Byte>, at: nat, b: seq<Byte>, j: nat, n: nat)
    requires at + |b| <= |s| && j + n <= |s|
    requires Apart(at, |b|, j, n)
    ensures Splice(s, at, b)[j..j + n] == s[j..j + n]
  {
    var r := Splice(s, at, b);
    forall i | j <= i < j + n
      ensures r[i] == s[i]
    {
      SpliceAt(s, at, b, i);
    }
  }

  /** Reading back the window just written. */
  lemma {:induction false} SpliceWindow(s: seq<Byte>, at: nat, b: seq<Byte>)
    requires at + |b| <= |s|
    ensures Splice(s, at, b)[at..at + |b|] == b
  {
    var r := Splice(s, at, b);
    forall i | 0 <= i < |b|
      ensures r[at..at + |b|][i] == b[i]
    {
      SpliceAt(s, at, b, at + i);
    }
  }

  /** Two adjacent writes are one write of their concatenation. */
  lemma {:induction false} SpliceAdjacent(s: seq<Byte>, at: nat, a: seq<Byte>, b: seq<Byte>)
    requires at + |a| + |b| <= |s|
    ensures Splice(Splice(s, at, a), at + |a|, b) == Splice(s, at, a + b)
  {
    var t := Splice(s, at, a);
    var l := Splice(t, at + |a|, b);
    var r := Splice(s, at, a + b);
    forall i | 0 <= i < |s|
      ensures l[i] == r[i]
    {
      SpliceAt(t, at + |a|, b, i);
      SpliceAt(s, at, a, i);
      SpliceAt(s, at, a + b, i);
    }
  }

  predicate SlotFits(s: seq<Byte>, index: int, n: int)
  {
    0 <= index && 0 <= n && index + n <= |s|
  }

  /** The buffer contents after `putLong(buffer, index, v)`. */
  function PutLongImage(s: seq<Byte>, index: int, v: Long, w: Width): seq<Byte>
    requires SlotFits(s, index, w)
  {
    Splice(s, index, EncodeLong(v, w))
  }

  /** `getLong(buffer, index)` on buffer contents `s`. */
  function GetLong(s: seq<Byte>, index: int, w: Width): (r: Long)
    requires SlotFits(s, index, w)
    ensures w == 4 ==> InInt32Range(r)
    ensures EncodeLong(r, w) == s[index..index + w]
  {
    EncodeDecodeLong(s[index..index + w], w);
    DecodeLong(s[index..index + w], w)
  }

  /** The buffer contents after `buffer.putInt(index, v)`. */
  function PutIntImage(s: seq<Byte>, index: int, v: Int32): seq<Byte>
    requires SlotFits(s, index, 4)
  {
    Splice(s, index, EncodeInt(v))
  }

  /** `buffer.getInt(index)` on buffer contents `s`. */
  function GetInt(s: seq<Byte>, index: int): (r: Int32)
    requires SlotFits(s, index, 4)
    ensures EncodeInt(r) == s[index..index + 4]
  {
    EncodeDecodeInt(s[index..index + 4]);
    DecodeInt(s[index..index + 4])
  }

  /** `getLong` depends on the bytes of its slot only. */
  lemma GetLongSameBytes(s1: seq<Byte>, i1: int, s2: seq<Byte>, i2: int, w: Width)
    requires SlotFits(s1, i1, w) && SlotFits(s2, i2, w)
    requires s1[i1..i1 + w] == s2[i2..i2 + w]
    ensures GetLong(s1, i1, w) == GetLong(s2, i2, w)
  {
  }

  /** `getInt` depends on the bytes of its slot only. */
  lemma GetIntSameBytes(s1: seq<Byte>, i1: int, s2: seq<Byte>, i2: int)
    requires SlotFits(s1, i1, 4) && SlotFits(s2, i2, 4)
    requires s1[i1..i1 + 4] == s2[i2..i2 + 4]
    ensures GetInt(s1, i1) == GetInt(s2, i2)
  {
  }

  lemma {:induction false} SlotInWindow(s: seq<Byte>, a: nat, n: nat, x: nat, len: nat)
    requires a + n <= |s| && x + len <= n
    ensures s[a + x..a + x + len] == s[a..a + n][x..x + len]
  {
    var l := s[a + x..a + x + len];
    var r := s[a..a + n][x..x + len];
    assert |l| == |r|;
    forall i | 0 <= i < len
      ensures l[i] == r[i]
    {
      assert l[i] == s[a + x + i];
    }
  }

  /** Reading a slot of a buffer inside a window reads the window's own bytes. */
  lemma GetLongInWindow(s: seq<Byte>, a: nat, window: seq<Byte>, x: nat, w: Width)
    requires a + |window| <= |s| && s[a..a + |window|] == window
    requires x + w <= |window|
    ensures SlotFits(s, a + x, w) && SlotFits(window, x, w)
    ensures GetLong(s, a + x, w) == GetLong(window, x, w)
  {
    SlotInWindow(s, a, |window|, x, w);
  }

  /** The same for an `int` slot. */
  lemma GetIntInWindow(s: seq<Byte>, a: nat, window: seq<Byte>, x: nat)
    requires a + |window| <= |s| && s[a..a + |window|] == window
    requires x + 4 <= |window|
    ensures SlotFits(s, a + x, 4) && SlotFits(window, x, 4)
    ensures GetInt(s, a + x) == GetInt(window, x)
  {
    SlotInWindow(s, a, |window|, x, 4);
  }

  /** A value read from a slot is kept exactly when written back to a slot of the same width. */
  lemma RetainedRead(s: seq<Byte>, index: int, w: Width)
    requires SlotFits(s, index, w)
    ensures Retained(GetLong(s, index, w), w) == GetLong(s, index, w)
  {
    if w == 4 {
      assert InInt32Range(GetLong(s, index, w));
    }
  }

  /** `putLong` followed by `getLong` at the same index gives back what the slot retains. */
  lemma {:induction false} GetAfterPutLong(s: seq<Byte>, index: int, v: Long, w: Width)
    requires SlotFits(s, index, w)
    ensures GetLong(PutLongImage(s, index, v, w), index, w) == Retained(v, w)
  {
    SpliceWindow(s, index, EncodeLong(v, w));
    DecodeEncodeLong(v, w);
  }

  /** `putInt` followed by `getInt` at the same index gives back the value. */
  lemma {:induction false} GetAfterPutInt(s: seq<Byte>, index: int, v: Int32)
    requires SlotFits(s, index, 4)
    ensures GetInt(PutIntImage(s, index, v), index) == v
  {
    SpliceWindow(s, index, EncodeInt(v));
    DecodeEncodeInt(v);
  }

  /** `putLong` does not disturb a slot that does not overlap the one it writes. */
  lemma {:induction false} PutLongKeepsOtherSlot(s: seq<Byte>, index: int, v: Long, w: Width, j: int, n: nat)
    requires SlotFits(s, index, w) && SlotFits(s, j, n)
    requires j + n <= index || index + w <= j
    ensures |PutLongImage(s, index, v, w)| == |s|
    ensures PutLongImage(s, index, v, w)[j..j + n] == s[j..j + n]
  {
    SpliceKeepsWindow(s, index, EncodeLong(v, w), j, n);
  }

  /** `putInt` does not disturb a slot that does not overlap the one it writes. */
  lemma {:induction false} PutIntKeepsOtherSlot(s: seq<Byte>, index: int, v: Int32, j: int, n: nat)
    requires SlotFits(s, index, 4) && SlotFits(s, j, n)
    requires j + n <= index || index + 4 <= j
    ensures |PutIntImage(s, index, v)| == |s|
    ensures PutIntImage(s, index, v)[j..j + n] == s[j..j + n]
  {
    SpliceKeepsWindow(s, index, EncodeInt(v), j, n);
  }

  /** A slot of zero bytes reads as 0, whatever its width. */
  lemma ZeroSlotReadsZero(s: seq<Byte>, index: int, w: Width)
    requires SlotFits(s, index, w)
    requires forall i :: index <= i < index + w ==> s[i] == 0
    ensures GetLong(s, index, w) == 0
  {
    Pow256Widths();
    UnsignedOfZeros(s[index..index + w]);
  }

  lemma {:induction false} UnsignedOfZeros(s: seq<Byte>)
    requires forall i :: 0 <= i < |s| ==> s[i] == 0
    ensures Unsigned(s) == 0
  {
    if s != [] {
      UnsignedOfZeros(s[1..]);
    }
  }

  /** `JavaScriptCoreLibrary.putLong`: stores `value` in the native `long` slot at `index`. */
  method PutLong(buffer: array<Byte>, index: int, value: Long, w: Width)
    requires SlotFits(buffer[..], index, w)
    modifies buffer
    ensures buffer[..] == PutLongImage(old(buffer[..]), index, value, w)
  {
    var bytes := EncodeLong(value, w);
    forall k | 0 <= k < w {
      buffer[index + k] := bytes[k];
    }
    assert buffer[..] == old(buffer[..])[..index] + bytes + old(buffer[..])[index + w..];
  }

  /** `ByteBuffer.putInt`: stores a Java `int` at `index`. */
  method PutInt(buffer: array<Byte>, index: int, value: Int32)
    requires SlotFits(buffer[..], index, 4)
    modifies buffer
    ensures buffer[..] == PutIntImage(old(buffer[..]), index, value)
  {
    var bytes := EncodeInt(value);
    forall k | 0 <= k < 4 {
      buffer[index + k] := bytes[k];
    }
    assert buffer[..] == old(buffer[..])[..index] + bytes + old(buffer[..])[index + 4..];
  }
}

/**
 * `JSValueArrayRef`: the argument vector of a JavaScript call, a direct
 * buffer of native `long` slots (`sizeOfPointer` bytes each) and a length.
 */
module ValueArrays {
  import opened Base
  import opened NativeBuffer
  import Pointers
  import opened RecordTables

  /**
   * `getByteIndex(index)`: `index * sizeOfPointer` in `int` arithmetic,
   * which wraps on overflow.
   */
  function ByteIndex(index: Int32, w: Width): (r: Int32)
  {
    Wrap32(index * w)
  }

  /** `get(index)` on a non-null buffer holding `s`. */
  function ReadSlot(s: seq<Byte>, length: Int32, index: Int32, w: Width): Result<Long>
  {
    if index >= length then Failure(IndexOutOfBounds)
    else
      var b := ByteIndex(index, w);
      if SlotFits(s, b, w) then Success(GetLong(s, b, w)) else Failure(IndexOutOfBounds)
  }

  /** `set(index, v)` on a non-null buffer holding `s`: the new contents. */
  function WriteSlot(s: seq<Byte>, length: Int32, index: Int32, v: Long, w: Width): Result<seq<Byte>>
  {
    if index >= length then Failure(IndexOutOfBounds)
    else
      var b := ByteIndex(index, w);
      if SlotFits(s, b, w) then Success(PutLongImage(s, b, v, w)) else Failure(IndexOutOfBounds)
  }

  /** While `length * sizeOfPointer` fits in an `int`, consecutive elements have consecutive, disjoint slots. */
  lemma SlotOffsets(length: Int32, i: Int32, w: Width)
    requires 0 <= i < length && length * w <= 0x7FFF_FFFF
    ensures ByteIndex(i, w) == i * w
    ensures ByteIndex(i, w) + w <= ByteIndex(length, w)
  {
  }

  /**
   * In a buffer allocated for `length` elements whose byte size fits in an
   * `int`, every index below `length` can be written and read, reading an
   * element gives back the value last written to it (as the slot retains
   * it), and writing one element leaves every other element as it was.
   */
  lemma {:induction false} WriteThenRead(s: seq<Byte>, length: Int32, i: Int32, j: Int32, v: Long, w: Width)
    requires 0 < length && length * w <= 0x7FFF_FFFF && |s| == ByteIndex(length, w)
    requires 0 <= i < length && 0 <= j < length
    ensures WriteSlot(s, length, i, v, w).Success?
    ensures ReadSlot(s, length, j, w).Success?
    ensures ReadSlot(WriteSlot(s, length, i, v, w).value, length, j, w)
         == if i == j then Success(Retained(v, w)) else ReadSlot(s, length, j, w)
  {
    SlotOffsets(length, i, w);
    SlotOffsets(length, j, w);
    var bi, bj := ByteIndex(i, w), ByteIndex(j, w);
    if i == j {
      GetAfterPutLong(s, bi, v, w);
    } else {
      if i < j {
        assert bi + w <= bj by { assert bj - bi == (j - i) * w; }
      } else {
        assert bj + w <= bi by { assert bi - bj == (i - j) * w; }
      }
      PutLongKeepsOtherSlot(s, bi, v, w, bj, w);
    }
  }

  /**
   * When `length * sizeOfPointer` overflows, distinct elements share a
   * slot: an array of 2^29 + 2 elements of 8 bytes is given a 16-byte
   * buffer, and element 2^29 + 1 is stored over element 1.
   */
  lemma {:induction false} WrappedIndexAliases(s: seq<Byte>, v: Long)
    requires |s| == ByteIndex(0x2000_0002, 8)
    ensures |s| == 16
    ensures ByteIndex(0x2000_0001, 8) == ByteIndex(1, 8) == 8
    ensures WriteSlot(s, 0x2000_0002, 0x2000_0001, v, 8).Success?
    ensures ReadSlot(WriteSlot(s, 0x2000_0002, 0x2000_0001, v, 8).value, 0x2000_0002, 1, 8) == Success(v)
  {
    assert ByteIndex(0x2000_0002, 8) == 16;
    assert ByteIndex(0x2000_0001, 8) == 8;
    GetAfterPutLong(s, 8, v, 8);
  }

  class ValueArray {
    /** `sizeOfPointer`, the native `sizeof(long)`. */
    const width: Width
    /** Whether this object is the shared `JSValueArrayRef.EMPTY`. */
    const isEmpty: bool
    var length: Int32
    var buffer: array?<Byte>

    /** The shared empty array is never given a buffer or a length. */
    ghost predicate Valid()
      reads this
    {
      isEmpty ==> length == 0 && buffer == null
    }

    /** `JSValueArrayRef(length, buffer)`: wraps a buffer received from native code. */
    constructor Wrap(length: Int32, buffer: array?<Byte>, w: Width)
      ensures Valid() && !isEmpty && width == w
      ensures this.length == length && this.buffer == buffer
    {
      this.width := w;
      this.isEmpty := false;
      this.length := length;
      this.buffer := buffer;
    }

    /** `JSValueArrayRef.EMPTY`. */
    constructor Empty(w: Width)
      ensures Valid() && isEmpty && width == w && length == 0 && buffer == null
    {
      this.width := w;
      this.isEmpty := true;
      this.length := 0;
      this.buffer := null;
    }

    /**
     * `JSValueArrayRef(length)`: no buffer for a length of zero or less,
     * otherwise a zero-filled buffer of `getByteIndex(length)` bytes;
     * `allocateDirect` refuses a negative size with an
     * `IllegalArgumentException`.
     */
    static method Allocate(length: Int32, w: Width) returns (r: Result<ValueArray>)
      ensures r.Failure? <==> 0 < length && ByteIndex(length, w) < 0
      ensures r.Failure? ==> r.error == IllegalArgument
      ensures r.Success? ==> fresh(r.value) && r.value.Valid() && !r.value.isEmpty
      ensures r.Success? ==> r.value.width == w && r.value.length == length
      ensures r.Success? && length <= 0 ==> r.value.buffer == null
      ensures r.Success? && 0 < length ==>
                (r.value.buffer != null && fresh(r.value.buffer) && r.value.buffer[..] == Zeros(ByteIndex(length, w)))
    {
      if length <= 0 {
        var a := new ValueArray.Wrap(length, null, w);
        return Success(a);
      }
      var size := ByteIndex(length, w);
      if size < 0 {
        return Failure(IllegalArgument);
      }
      var b := new Byte[size](_ => 0);
      var a := new ValueArray.Wrap(length, b, w);
      return Success(a);
    }

    /** `noArg()`: a new array of no elements. */
    static method NoArg(w: Width) returns (r: ValueArray)
      ensures fresh(r) && r.Valid() && !r.isEmpty && r.width == w
      ensures r.length == 0 && r.buffer == null
    {
      r := new ValueArray.Wrap(0, null, w);
    }

    /**
     * `get(index)`: an index at or past the length is refused before the
     * buffer is touched; a missing buffer is a `NullPointerException`; a
     * byte index outside the buffer is refused by the buffer.
     */
    function Get(index: Int32): (r: Result<Long>)
      reads this, buffer
      ensures index >= length ==> r == Failure(IndexOutOfBounds)
      ensures index < length && buffer == null ==> r == Failure(NullPointer)
      ensures r.Success? ==>
                (buffer != null && index < length && SlotFits(buffer[..], ByteIndex(index, width), width)
                 && r.value == GetLong(buffer[..], ByteIndex(index, width), width))
    {
      if index >= length then Failure(IndexOutOfBounds)
      else if buffer == null then Failure(NullPointer)
      else ReadSlot(buffer[..], length, index, width)
    }

    /** `set(index, value)`: stores `value.p()` in the element's slot, with `get`'s error cases. */
    method Set(index: Int32, value: Pointers.PointerType) returns (r: Result<()>)
      modifies buffer
      ensures r.Success? <==> Get(index).Success?
      ensures r.Failure? ==> r.error == old(Get(index)).error
      ensures buffer != null && r.Success? ==>
                buffer[..] == PutLongImage(old(buffer[..]), ByteIndex(index, width), value.Address(), width)
      ensures buffer != null && r.Failure? ==> buffer[..] == old(buffer[..])
    {
      if index >= length {
        return Failure(IndexOutOfBounds);
      }
      if buffer == null {
        return Failure(NullPointer);
      }
      var b := ByteIndex(index, width);
      if !SlotFits(buffer[..], b, width) {
        return Failure(IndexOutOfBounds);
      }
      PutLong(buffer, b, value.Address(), width);
      return Success(());
    }

    /** `length()`: 0 for the shared empty array; no index from it on can be read. */
    function Length(): (r: Int32)
      reads this, buffer
      ensures Valid() && isEmpty ==> r == 0
      ensures forall i: Int32 :: r <= i ==> Get(i) == Failure(IndexOutOfBounds)
    {
      length
    }

    /** `getByteBuffer()`: `null` for the shared empty array; without a buffer no element can be read. */
    function ByteBuffer(): (r: array?<Byte>)
      reads this, buffer
      ensures Valid() && isEmpty ==> r == null
      ensures r == null ==> forall i: Int32 :: Get(i).Failure?
    {
      buffer
    }

    /** `dispose()`: the shared empty array is left alone; any other drops its buffer and length. */
    method Dispose()
      requires Valid()
      modifies this
      ensures Valid()
      ensures isEmpty ==> length == old(length) && buffer == old(buffer)
      ensures !isEmpty ==> length == 0 && buffer == null
    {
      if isEmpty {
        return;
      }
      buffer := null;
      length := 0;
    }
  }
}

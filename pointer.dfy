/**
 * `Pointer` (a native address held by value) and `PointerType` (the
 * mutable wrapper every opaque JavaScriptCore reference extends).
 */
module Pointers {
  import opened Base
  import NativeBuffer

  /** Java's `long` addition, which wraps modulo 2^64. */
  function WrapLong(x: int): (r: Long)
    ensures (r - x) % TWO_64 == 0
  {
    var m := x % TWO_64;
    if m < 0x8000_0000_0000_0000 then m else m - TWO_64
  }

  /** Two `int`s whose difference is a multiple of 2^32 narrow to the same `int`. */
  lemma {:induction false} Wrap32Congruent(a: int, b: int)
    requires (a - b) % TWO_32 == 0
    ensures Wrap32(a) == Wrap32(b)
  {
    var ra, rb := Wrap32(a), Wrap32(b);
    assert (ra - rb) % TWO_32 == 0 by {
      assert ra - rb == (ra - a) + (a - b) + (b - rb);
    }
  }

  /** A native address. `Pointer.NULL` is the Java `null` reference, `None` here. */
  datatype Pointer = Pointer(peer: Long)
  {
    /** `Pointer.value()`: the address, from which `new Pointer(value)` rebuilds an equal pointer. */
    function Value(): (r: Long)
      ensures Pointer(r) == this
    {
      peer
    }

    /** `Pointer.equals`: the other object is a pointer with the same address. */
    predicate Equals(o: Option<Pointer>)
      ensures Equals(o) <==> o == Some(this)
    {
      o.Some? && o.value.peer == peer
    }

    /** The upper 32 bits of the address, `peer >>> 32`. */
    function High(): nat { NativeBuffer.Unsigned64(peer) / TWO_32 }

    /** The lower 32 bits of the address. */
    function Low(): nat { NativeBuffer.Unsigned64(peer) % TWO_32 }

    /**
     * `Pointer.hashCode` as written: the literal `0xFFFFFFFF` is the `int`
     * -1, which widens to the `long` -1, so `peer & 0xFFFFFFFF` is `peer`
     * itself; the `long` sum is then narrowed by `(int)`.
     */
    function HashCode(): (r: Int32)
      ensures r == Wrap32(High() + Low())
    {
      HashCodeSumsHalves(this);
      Wrap32(WrapLong(High() + peer))
    }
  }

  /**
   * The mask has no effect on the result: narrowing to `int` keeps only the
   * low 32 bits of the sum, and those do not depend on the upper half of the
   * masked operand. The hash is the 32-bit sum of the two halves of the
   * address, as the mask was evidently meant to compute.
   */
  lemma {:induction false} HashCodeSumsHalves(p: Pointer)
    ensures Wrap32(WrapLong(p.High() + p.peer)) == Wrap32(p.High() + p.Low())
  {
    var u := NativeBuffer.Unsigned64(p.peer);
    var s := p.High() + p.peer;
    Wrap32Congruent(WrapLong(s), s);
    var k := if p.peer < 0 then p.High() - TWO_32 else p.High();
    assert p.peer - p.Low() == TWO_32 * k;
    MultipleIsCongruent(k);
    Wrap32Congruent(s, p.High() + p.Low());
  }

  lemma MultipleIsCongruent(k: int)
    ensures (TWO_32 * k) % TWO_32 == 0
  {
  }

  /** Equal pointers have equal hash codes (the `equals`/`hashCode` contract). */
  lemma EqualPointersHashAlike(p: Pointer, q: Pointer)
    requires p.Equals(Some(q))
    ensures p.HashCode() == q.HashCode()
  {
  }

  /** Two addresses whose halves are swapped have the same hash code. */
  lemma HashIgnoresSwappedHalves(p: Pointer, q: Pointer)
    requires p.High() == q.Low() && p.Low() == q.High()
    ensures p.HashCode() == q.HashCode()
  {
  }

  /** `PointerType`: a mutable holder of a possibly-`null` `Pointer`. */
  class PointerType {
    var pointer: Option<Pointer>

    /** The default constructor wraps `Pointer.NULL`. */
    constructor Null()
      ensures pointer == None
    {
      pointer := None;
    }

    constructor FromAddress(l: Long)
      ensures pointer == Some(Pointer(l))
    {
      pointer := Some(Pointer(l));
    }

    constructor FromPointer(p: Option<Pointer>)
      ensures pointer == p
    {
      pointer := p;
    }

    method SetPointer(p: Option<Pointer>)
      modifies this
      ensures pointer == p
    {
      pointer := p;
    }

    /**
     * `pointer()` (and its alias `p()`): the address, 0 for a `null`
     * pointer. A `null` pointer and a pointer to address 0 give the same
     * address.
     */
    function Address(): (r: Long)
      reads this
      ensures r == 0 <==> (pointer == None || pointer == Some(Pointer(0)))
      ensures pointer.Some? ==> r == pointer.value.peer
    {
      if pointer.None? then 0 else pointer.value.Value()
    }

    /** `isNullPointer()`. */
    predicate IsNullPointer()
      reads this
      ensures IsNullPointer() <==> pointer.None? || pointer == Some(Pointer(0))
    {
      Address() == 0
    }

    /** `hashCode()`: the pointer's hash, 0 for `null`. */
    function HashCode(): (r: Int32)
      reads this
      ensures IsNullPointer() ==> r == 0
      ensures pointer.Some? ==> r == Wrap32(pointer.value.High() + pointer.value.Low())
    {
      if pointer.Some? then pointer.value.HashCode() else 0
    }

    /**
     * `equals(o)`: the same object, or a wrapper holding an equal pointer
     * (both `null`, or the same address).
     */
    predicate Equals(o: PointerType?)
      reads this, o
      ensures Equals(o) <==> o != null && o.pointer == pointer
    {
      o == this
      || (o != null && (if pointer.None? then o.pointer.None? else pointer.value.Equals(o.pointer)))
    }
  }

  /** Wrappers that compare equal hash alike. */
  lemma EqualWrappersHashAlike(a: PointerType, b: PointerType)
    requires a.Equals(b)
    ensures a.HashCode() == b.HashCode()
  {
  }

  /**
   * A wrapper of `null` and a wrapper of address 0 both report the null
   * address, yet they are not equal.
   */
  lemma NullIsNotAddressZero(a: PointerType, b: PointerType)
    requires a.pointer == None && b.pointer == Some(Pointer(0))
    ensures a.IsNullPointer() && b.IsNullPointer()
    ensures !a.Equals(b) && !b.Equals(a)
  {
  }
}

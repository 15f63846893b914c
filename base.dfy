/**
 * Java value domains and outcomes shared by every module of the model:
 * `null`-able references, the exceptions the binding raises, Java's
 * `long` and `int`, and the native sizes the binding reads once at start-up.
 */
module Base {

  datatype Option<T> = None | Some(value: T)

  /** The Java exceptions raised by the modelled code. */
  datatype Error =
    | JavaScriptException(message: string)
    | IndexOutOfBounds
    | NullPointer
    | IllegalArgument

  /** A call that returns a value or throws. */
  datatype Result<T> = Success(value: T) | Failure(error: Error)

  const TWO_32: int := 0x1_0000_0000
  const TWO_64: int := 0x1_0000_0000_0000_0000

  /** Java `long`. */
  type Long = x: int | -0x8000_0000_0000_0000 <= x < 0x8000_0000_0000_0000

  /** Java `int`. */
  type Int32 = x: int | -0x8000_0000 <= x < 0x8000_0000

  predicate InInt32Range(x: int) { -0x8000_0000 <= x < 0x8000_0000 }

  /**
   * Java's narrowing cast `(int)` of a `long`, which is also the result of
   * `int` arithmetic that overflows: the low 32 bits, read as signed.
   */
  function Wrap32(x: int): (r: Int32)
    ensures (r - x) % TWO_32 == 0
    ensures InInt32Range(x) ==> r == x
  {
    var m := x % TWO_32;
    if m < 0x8000_0000 then m else m - TWO_32
  }

  /** Thirty-two bits read as unsigned narrow to their signed reading. */
  lemma Wrap32OfUnsigned(u: int)
    requires 0 <= u < TWO_32
    ensures Wrap32(u) == if u < 0x8000_0000 then u else u - TWO_32
  {
    assert u % TWO_32 == u;
  }

  /** `sizeof(long)` on the native side: the width of every pointer slot the binding writes. */
  type Width = w: int | w == 4 || w == 8 witness 8

  /**
   * The native sizes read once through JNI when the library is loaded
   * (`SizeOfLong`, `SizeOfInt`, `SizeOfUnsigned`, and the sizes of the
   * three C structures the binding fills in).
   */
  datatype Platform = Platform(
    long: Width,
    intSize: int,
    unsignedSize: int,
    classDefinitionSize: int,
    staticValueSize: int,
    staticFunctionSize: int)
  {
    /**
     * The C layout the binding relies on: `int` and `unsigned` are four
     * bytes (`putInt` writes four), a `JSStaticValue` holds three pointers
     * and an `unsigned`, a `JSStaticFunction` two pointers and an
     * `unsigned`, and a `JSClassDefinition` two four-byte fields followed by
     * fifteen pointers.
     */
    predicate Valid()
    {
      intSize == 4 && unsignedSize == 4
      && staticValueSize >= 3 * long + 4
      && staticFunctionSize >= 2 * long + 4
      && classDefinitionSize >= intSize + unsignedSize + 15 * long
    }
  }

  /** The decimal digits of `n`, as `String.format("%d", n)` writes a non-negative number. */
  function Digits(n: nat): (r: string)
  {
    if n < 10 then [DigitChar(n)] else Digits(n / 10) + [DigitChar(n % 10)]
  }

  function DigitChar(d: nat): (r: char)
    requires d < 10
  {
    "0123456789"[d]
  }

  /** `String.format("%d", n)`. */
  function Decimal(n: int): (r: string)
  {
    if n < 0 then "-" + Digits(-n) else Digits(n)
  }
}

/** `JSPropertyAttribute`: a set of property flags, combined by bitwise OR. */
module PropertyAttributes {
  import opened Base

  datatype PropertyAttribute = PropertyAttribute(bits: bv32)
  {
    /** `getValue()`: the flags as the Java `int` handed to native code. */
    function GetValue(): (r: Int32)
      ensures r == Wrap32(bits as int)
    {
      var u := bits as int;
      Wrap32OfUnsigned(u);
      if u < 0x8000_0000 then u else u - TWO_32
    }

    /** `add(attr)`: a new attribute holding the flags of both. */
    function Add(attr: PropertyAttribute): (r: PropertyAttribute)
      ensures r.Has(this) && r.Has(attr)
    {
      PropertyAttribute(bits | attr.bits)
    }

    /** Whether every flag of `flag` is set. */
    predicate Has(flag: PropertyAttribute)
    {
      bits & flag.bits == flag.bits
    }
  }

  predicate SingleBit(f: bv32)
  {
    f != 0 && f & (f - 1) == 0
  }

  /** A combination holds no flag that is in neither part: it is the least attribute holding both. */
  lemma AddIsLeast(a: PropertyAttribute, b: PropertyAttribute, c: PropertyAttribute)
    requires c.Has(a) && c.Has(b)
    ensures c.Has(a.Add(b))
  {
  }

  /** A named flag is in a combination exactly when it is in one of the parts. */
  lemma AddHasFlag(a: PropertyAttribute, b: PropertyAttribute, f: PropertyAttribute)
    requires f == ReadOnly || f == DontEnum || f == DontDelete
    ensures a.Add(b).Has(f) <==> a.Has(f) || b.Has(f)
  {
  }

  lemma AddCommutes(a: PropertyAttribute, b: PropertyAttribute)
    ensures a.Add(b) == b.Add(a)
  {
  }

  lemma AddAssociates(a: PropertyAttribute, b: PropertyAttribute, c: PropertyAttribute)
    ensures a.Add(b).Add(c) == a.Add(b.Add(c))
  {
  }

  lemma AddIdempotent(a: PropertyAttribute)
    ensures a.Add(a) == a
  {
  }

  lemma NoneIsNeutral(a: PropertyAttribute)
    ensures None.Add(a) == a && a.Add(None) == a
  {
  }

  /** The named flags are distinct single bits, with the `int` values native code expects. */
  lemma FlagValues()
    ensures None.GetValue() == 0 && ReadOnly.GetValue() == 2
    ensures DontEnum.GetValue() == 4 && DontDelete.GetValue() == 8
    ensures SingleBit(ReadOnly.bits) && SingleBit(DontEnum.bits) && SingleBit(DontDelete.bits)
    ensures ReadOnly.bits & DontEnum.bits == 0 && ReadOnly.bits & DontDelete.bits == 0
    ensures DontEnum.bits & DontDelete.bits == 0
    ensures None.Add(DontDelete).GetValue() == 8
    ensures ReadOnly.Add(DontEnum).Add(DontDelete).GetValue() == 14
  {
  }

  const None := PropertyAttribute(0)
  const ReadOnly := PropertyAttribute(1 << 1)
  const DontEnum := PropertyAttribute(1 << 2)
  const DontDelete := PropertyAttribute(1 << 3)
}

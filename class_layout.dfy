/**
 * The native `JSClassDefinition` structure as the binding lays it out:
 * the field offsets `constructBufferTemplate` derives once from the native
 * sizes, and the slot-by-slot filling of a zeroed structure that `commit`
 * performs.
 */
module ClassLayouts {
  import opened Base
  import opened NativeBuffer
  import opened RecordTables

  /** The fields of the C structure, in declaration order. */
  datatype Field =
    | Version | Attributes | ClassName | ParentClass | StaticValues | StaticFunctions
    | Initialize | Finalize | HasProperty | GetProperty | SetProperty | DeleteProperty
    | GetPropertyNames | CallAsFunction | CallAsConstructor | HasInstance | ConvertToType

  /** The field at place `i` of the declaration order. */
  function FieldAt(i: nat): Field
    requires i < 17
  {
    if i == 0 then Version else if i == 1 then Attributes else if i == 2 then ClassName
    else if i == 3 then ParentClass else if i == 4 then StaticValues else if i == 5 then StaticFunctions
    else if i == 6 then Initialize else if i == 7 then Finalize else if i == 8 then HasProperty
    else if i == 9 then GetProperty else if i == 10 then SetProperty else if i == 11 then DeleteProperty
    else if i == 12 then GetPropertyNames else if i == 13 then CallAsFunction
    else if i == 14 then CallAsConstructor else if i == 15 then HasInstance else ConvertToType
  }

  /** The place of a field in the declaration order. */
  function Position(f: Field): (r: nat)
    ensures r < 17
    ensures (r == 0 <==> f == Version) && (r == 1 <==> f == Attributes)
  {
    match f
    case Version => 0
    case Attributes => 1
    case ClassName => 2
    case ParentClass => 3
    case StaticValues => 4
    case StaticFunctions => 5
    case Initialize => 6
    case Finalize => 7
    case HasProperty => 8
    case GetProperty => 9
    case SetProperty => 10
    case DeleteProperty => 11
    case GetPropertyNames => 12
    case CallAsFunction => 13
    case CallAsConstructor => 14
    case HasInstance => 15
    case ConvertToType => 16
  }

  /** `FieldAt` inverts `Position`: every field sits at exactly one place. */
  lemma PositionInverse(f: Field)
    ensures FieldAt(Position(f)) == f
  {
  }

  predicate IsHook(f: Field)
  {
    Position(f) >= 6
  }

  /** `version` (a C `int`) and `attributes` (a C `unsigned`) are written with `putInt`; every other field is a pointer. */
  predicate IsIntField(f: Field)
  {
    Position(f) < 2
  }

  /** The bytes the slot at place `i` occupies. */
  function SlotWidth(i: nat, w: Width): nat
  {
    if i < 2 then 4 else w
  }

  /** Where the slot at place `i` begins: the two four-byte fields first, then the pointers one after another. */
  function SlotOffset(i: nat, w: Width): nat
  {
    if i == 0 then 0 else if i == 1 then 4 else 8 + Stride(i - 2, w)
  }

  /** The bytes a field's slot occupies. */
  function FieldWidth(f: Field, w: Width): nat
  {
    SlotWidth(Position(f), w)
  }

  /** Where a field's slot begins. */
  function FieldOffset(f: Field, w: Width): (r: nat)
    ensures r + FieldWidth(f, w) <= 8 + 15 * w
  {
    SlotInside(Position(f), w);
    SlotOffset(Position(f), w)
  }

  /** Each of the seventeen slots lies inside the packed structure of `8 + 15 * w` bytes. */
  lemma SlotInside(i: nat, w: Width)
    requires i < 17
    ensures SlotOffset(i, w) + SlotWidth(i, w) <= 8 + 15 * w
  {
    if i >= 2 {
      StrideStep(i - 2, 15, w);
      StrideIsProduct(15, w);
    }
  }

  /** The static `...Index` offsets; `versionIndex` is the constant 0. */
  datatype Layout = Layout(
    attributes: int, className: int, parentClass: int, staticValues: int, staticFunctions: int,
    initialize: int, finalize: int, hasProperty: int, getProperty: int, setProperty: int,
    deleteProperty: int, getPropertyNames: int, callAsFunction: int, callAsConstructor: int,
    hasInstance: int, convertToType: int)
  {
    function Offset(f: Field): int
    {
      match f
      case Version => 0
      case Attributes => attributes
      case ClassName => className
      case ParentClass => parentClass
      case StaticValues => staticValues
      case StaticFunctions => staticFunctions
      case Initialize => initialize
      case Finalize => finalize
      case HasProperty => hasProperty
      case GetProperty => getProperty
      case SetProperty => setProperty
      case DeleteProperty => deleteProperty
      case GetPropertyNames => getPropertyNames
      case CallAsFunction => callAsFunction
      case CallAsConstructor => callAsConstructor
      case HasInstance => hasInstance
      case ConvertToType => convertToType
    }
  }

  /**
   * `constructBufferTemplate`: `attributes` follows the `int` version,
   * `className` follows the `unsigned` attributes, and every later field
   * follows the previous one by one pointer width.
   */
  function ComputeLayout(p: Platform): (r: Layout)
    ensures p.Valid() ==> r == PackedLayout(p.long)
  {
    StridesAreProducts(p.long);
    var long := p.long;
    var attributes := p.intSize;
    var className := attributes + p.unsignedSize;
    var parentClass := className + long;
    var staticValues := parentClass + long;
    var staticFunctions := staticValues + long;
    var initialize := staticFunctions + long;
    var finalize := initialize + long;
    var hasProperty := finalize + long;
    var getProperty := hasProperty + long;
    var setProperty := getProperty + long;
    var deleteProperty := setProperty + long;
    var getPropertyNames := deleteProperty + long;
    var callAsFunction := getPropertyNames + long;
    var callAsConstructor := callAsFunction + long;
    var hasInstance := callAsConstructor + long;
    var convertToType := hasInstance + long;
    Layout(attributes, className, parentClass, staticValues, staticFunctions, initialize, finalize,
           hasProperty, getProperty, setProperty, deleteProperty, getPropertyNames, callAsFunction,
           callAsConstructor, hasInstance, convertToType)
  }

  /** The offsets of a packed structure with pointers of `w` bytes, slot by slot. */
  function PackedLayout(w: Width): Layout
  {
    Layout(SlotOffset(1, w), SlotOffset(2, w), SlotOffset(3, w), SlotOffset(4, w), SlotOffset(5, w),
           SlotOffset(6, w), SlotOffset(7, w), SlotOffset(8, w), SlotOffset(9, w), SlotOffset(10, w),
           SlotOffset(11, w), SlotOffset(12, w), SlotOffset(13, w), SlotOffset(14, w), SlotOffset(15, w),
           SlotOffset(16, w))
  }

  /** The first fifteen strides of width `w`, in closed form. */
  lemma StridesAreProducts(w: Width)
    ensures forall k :: 0 <= k < 15 ==> Stride(k, w) == k * w
  {
    forall k | 0 <= k < 15
      ensures Stride(k, w) == k * w
    {
      StrideIsProduct(k, w);
    }
  }

  lemma PackedOffset(f: Field, w: Width)
    ensures PackedLayout(w).Offset(f) == SlotOffset(Position(f), w)
  {
    match f
    case Version =>
    case Attributes =>
    case ClassName =>
    case ParentClass =>
    case StaticValues =>
    case StaticFunctions =>
    case Initialize =>
    case Finalize =>
    case HasProperty =>
    case GetProperty =>
    case SetProperty =>
    case DeleteProperty =>
    case GetPropertyNames =>
    case CallAsFunction =>
    case CallAsConstructor =>
    case HasInstance =>
    case ConvertToType =>
  }

  /** The offsets computed step by step are the closed-form ones, so every slot lies inside the structure. */
  lemma LayoutClosedForm(p: Platform, f: Field)
    requires p.Valid()
    ensures ComputeLayout(p).Offset(f) == FieldOffset(f, p.long)
    ensures FieldOffset(f, p.long) + FieldWidth(f, p.long) <= p.classDefinitionSize
  {
    PackedOffset(f, p.long);
  }

  /** A slot placed before another ends where, or before, the other begins. */
  lemma SlotsOrdered(i: nat, j: nat, w: Width)
    requires i < j
    ensures SlotOffset(i, w) + SlotWidth(i, w) <= SlotOffset(j, w)
  {
    if i >= 2 {
      StrideApart(i - 2, j - 2, w);
    }
  }

  /** Two different places hold disjoint slots. */
  lemma SlotsDisjoint(i: nat, j: nat, w: Width)
    requires i != j
    ensures SlotOffset(i, w) + SlotWidth(i, w) <= SlotOffset(j, w)
         || SlotOffset(j, w) + SlotWidth(j, w) <= SlotOffset(i, w)
  {
    if i < j {
      SlotsOrdered(i, j, w);
    } else {
      SlotsOrdered(j, i, w);
    }
  }

  /** Two different fields occupy disjoint slots. */
  lemma FieldsDisjoint(f: Field, g: Field, w: Width)
    requires f != g
    ensures Apart(FieldOffset(f, w), FieldWidth(f, w), FieldOffset(g, w), FieldWidth(g, w))
  {
    PositionInverse(f);
    PositionInverse(g);
    SlotsDisjoint(Position(f), Position(g), w);
  }

  /** The slots of `f` and `g` both lie inside a structure of `size` bytes, apart from each other. */
  predicate SlotsApart(f: Field, g: Field, w: Width, size: int)
  {
    && FieldOffset(f, w) + FieldWidth(f, w) <= size && FieldOffset(g, w) + FieldWidth(g, w) <= size
    && Apart(FieldOffset(f, w), FieldWidth(f, w), FieldOffset(g, w), FieldWidth(g, w))
  }

  /** Two different fields of a structure of at least `8 + 15 * w` bytes. */
  lemma SlotsInside(f: Field, g: Field, w: Width, size: int)
    requires size >= 8 + 15 * w && f != g
    ensures SlotsApart(f, g, w, size)
  {
    FieldsDisjoint(f, g, w);
  }

  /** What a slot holds once `value` is put into it: an `int` as written, a pointer as its width retains it. */
  function Stored(f: Field, value: Long, w: Width): Long
  {
    if IsIntField(f) then value else Retained(value, w)
  }

  /** Reading field `f` of a structure image, with `getInt` or `getLong` as the slot's width demands. */
  function ReadField(s: seq<Byte>, p: Platform, f: Field): Long
    requires p.Valid() && |s| == p.classDefinitionSize
  {
    var at := FieldOffset(f, p.long);
    if IsIntField(f) then GetInt(s, at) else GetLong(s, at, p.long)
  }

  /**
   * A fill plan: the value `commit` puts in each slot it writes. The two
   * `int` fields hold values of Java `int`.
   */
  predicate PlanFits(plan: map<Field, Long>)
  {
    forall f :: f in plan && IsIntField(f) ==> InInt32Range(plan[f])
  }

  /** What field `f` reads once the plan is carried out: its planned value, or zero for a slot left alone. */
  function Planned(plan: map<Field, Long>, f: Field, w: Width): Long
  {
    if f in plan then Stored(f, plan[f], w) else 0
  }

  /** The slots of `done` hold what the plan puts in them; every other slot is still zero. */
  ghost predicate Filled(s: seq<Byte>, p: Platform, plan: map<Field, Long>, done: set<Field>)
    requires p.Valid() && |s| == p.classDefinitionSize
  {
    forall f :: ReadField(s, p, f) == if f in done then Planned(plan, f, p.long) else 0
  }

  /** A zero-filled structure: no slot written yet. */
  lemma ZerosFilled(s: seq<Byte>, p: Platform, plan: map<Field, Long>)
    requires p.Valid() && |s| == p.classDefinitionSize
    requires forall i :: 0 <= i < |s| ==> s[i] == 0
    ensures Filled(s, p, plan, {})
  {
    forall f
      ensures ReadField(s, p, f) == 0
    {
      var at := FieldOffset(f, p.long);
      if IsIntField(f) {
        ZeroSlotReadsZero(s, at, 4);
        assert GetInt(s, at) == GetLong(s, at, 4);
      } else {
        ZeroSlotReadsZero(s, at, p.long);
      }
    }
  }

  /** A field the plan leaves alone counts as done without a write. */
  lemma SkipField(s: seq<Byte>, p: Platform, plan: map<Field, Long>, done: set<Field>, f: Field)
    requires p.Valid() && |s| == p.classDefinitionSize
    requires Filled(s, p, plan, done) && f !in plan
    ensures Filled(s, p, plan, done + {f})
  {
  }

  /** The bytes `putInt` or `putLong` writes for `value` into the slot of `f`. */
  function FieldBytes(f: Field, value: Long, w: Width): (r: seq<Byte>)
    requires IsIntField(f) ==> InInt32Range(value)
    ensures |r| == FieldWidth(f, w)
  {
    if IsIntField(f) then EncodeInt(value) else EncodeLong(value, w)
  }

  /** The image after `putInt` or `putLong` of `value` into the slot of `f`. */
  function PutFieldImage(s: seq<Byte>, p: Platform, f: Field, value: Long): (t: seq<Byte>)
    requires p.Valid() && |s| == p.classDefinitionSize
    requires IsIntField(f) ==> InInt32Range(value)
    ensures |t| == |s|
  {
    Splice(s, FieldOffset(f, p.long), FieldBytes(f, value, p.long))
  }

  /** Writing one slot: the field written reads what its slot retains. */
  lemma {:induction false} PutFieldReads(s: seq<Byte>, p: Platform, f: Field, value: Long)
    requires p.Valid() && |s| == p.classDefinitionSize
    requires IsIntField(f) ==> InInt32Range(value)
    ensures ReadField(PutFieldImage(s, p, f, value), p, f) == Stored(f, value, p.long)
  {
    var at := FieldOffset(f, p.long);
    if IsIntField(f) {
      GetAfterPutInt(s, at, value);
    } else {
      GetAfterPutLong(s, at, value, p.long);
    }
  }

  /** What a field reads depends on the bytes of its slot only. */
  lemma ReadFieldSameBytes(s: seq<Byte>, t: seq<Byte>, p: Platform, g: Field)
    requires p.Valid() && |s| == |t| == p.classDefinitionSize
    requires var at := FieldOffset(g, p.long); s[at..at + FieldWidth(g, p.long)] == t[at..at + FieldWidth(g, p.long)]
    ensures ReadField(s, p, g) == ReadField(t, p, g)
  {
  }

  /** Writing one slot leaves the bytes of every other slot alone. */
  lemma PutFieldKeepsSlot(s: seq<Byte>, p: Platform, f: Field, value: Long, g: Field)
    requires p.Valid() && |s| == p.classDefinitionSize
    requires IsIntField(f) ==> InInt32Range(value)
    requires g != f
    ensures var t, at := PutFieldImage(s, p, f, value), FieldOffset(g, p.long);
      t[at..at + FieldWidth(g, p.long)] == s[at..at + FieldWidth(g, p.long)]
  {
    SpliceKeepsSlot(s, p.long, f, FieldBytes(f, value, p.long), g);
  }

  /** The same for any bytes `b` that fill the slot of `f`, in a structure of at least `8 + 15 * w` bytes. */
  lemma SpliceKeepsSlot(s: seq<Byte>, w: Width, f: Field, b: seq<Byte>, g: Field)
    requires |s| >= 8 + 15 * w && |b| == FieldWidth(f, w)
    requires g != f
    ensures var t, at := Splice(s, FieldOffset(f, w), b), FieldOffset(g, w);
      t[at..at + FieldWidth(g, w)] == s[at..at + FieldWidth(g, w)]
  {
    SlotsInside(f, g, w, |s|);
    SpliceKeepsApart(s, w, f, b, g);
  }

  /** The same, once the two slots are known to lie apart inside `s`. */
  lemma SpliceKeepsApart(s: seq<Byte>, w: Width, f: Field, b: seq<Byte>, g: Field)
    requires SlotsApart(f, g, w, |s|) && |b| == FieldWidth(f, w)
    ensures Splice(s, FieldOffset(f, w), b)[FieldOffset(g, w)..FieldOffset(g, w) + FieldWidth(g, w)]
         == s[FieldOffset(g, w)..FieldOffset(g, w) + FieldWidth(g, w)]
  {
    SpliceKeepsWindow(s, FieldOffset(f, w), b, FieldOffset(g, w), FieldWidth(g, w));
  }

  /** Writing one slot: every other field reads as before. */
  lemma PutFieldKeeps(s: seq<Byte>, p: Platform, f: Field, value: Long, g: Field)
    requires p.Valid() && |s| == p.classDefinitionSize
    requires IsIntField(f) ==> InInt32Range(value)
    requires g != f
    ensures ReadField(PutFieldImage(s, p, f, value), p, g) == ReadField(s, p, g)
  {
    PutFieldKeepsSlot(s, p, f, value, g);
    ReadFieldSameBytes(PutFieldImage(s, p, f, value), s, p, g);
  }

  lemma DoneOther(v: Long, plan: map<Field, Long>, done: set<Field>, f: Field, g: Field, w: Width)
    requires g != f && v == if g in done then Planned(plan, g, w) else 0
    ensures v == if g in done + {f} then Planned(plan, g, w) else 0
  {
  }

  /** Writing the planned value of `f` into its slot adds `f` to the slots done. */
  lemma PutFieldFilled(s: seq<Byte>, p: Platform, plan: map<Field, Long>, done: set<Field>, f: Field)
    requires p.Valid() && |s| == p.classDefinitionSize
    requires PlanFits(plan) && f in plan
    requires Filled(s, p, plan, done)
    ensures Filled(PutFieldImage(s, p, f, plan[f]), p, plan, done + {f})
  {
    var t := PutFieldImage(s, p, f, plan[f]);
    forall g
      ensures ReadField(t, p, g) == if g in done + {f} then Planned(plan, g, p.long) else 0
    {
      if g == f {
        PutFieldReads(s, p, f, plan[f]);
        assert ReadField(t, p, g) == Planned(plan, g, p.long);
      } else {
        PutFieldKeeps(s, p, f, plan[f], g);
        DoneOther(ReadField(t, p, g), plan, done, f, g, p.long);
      }
    }
  }

  /** The image after the plan's write to `f`, if it has one. */
  function PutPlanned(s: seq<Byte>, p: Platform, plan: map<Field, Long>, f: Field): (t: seq<Byte>)
    requires p.Valid() && |s| == p.classDefinitionSize && PlanFits(plan)
    ensures |t| == |s|
  {
    if f in plan then PutFieldImage(s, p, f, plan[f]) else s
  }

  /** The image after the plan's writes to the first `k` fields of `order`, in that order. */
  function ApplyFirst(s: seq<Byte>, p: Platform, plan: map<Field, Long>, order: seq<Field>, k: nat): (t: seq<Byte>)
    requires p.Valid() && |s| == p.classDefinitionSize && PlanFits(plan) && k <= |order|
    ensures |t| == |s|
  {
    if k == 0 then s else PutPlanned(ApplyFirst(s, p, plan, order, k - 1), p, plan, order[k - 1])
  }

  /** Carrying out the plan field by field, in any order, leaves every field written so far done. */
  lemma {:induction false} ApplyFirstFilled(s: seq<Byte>, p: Platform, plan: map<Field, Long>, done: set<Field>,
                                            order: seq<Field>, k: nat)
    requires p.Valid() && |s| == p.classDefinitionSize && PlanFits(plan) && k <= |order|
    requires Filled(s, p, plan, done)
    ensures Filled(ApplyFirst(s, p, plan, order, k), p, plan, done + FieldsOf(order[..k]))
  {
    if k > 0 {
      ApplyFirstFilled(s, p, plan, done, order, k - 1);
      var t := ApplyFirst(s, p, plan, order, k - 1);
      var before := done + FieldsOf(order[..k - 1]);
      PutPlannedFilled(t, p, plan, before, order[k - 1]);
      PrefixGrows(done, order, k);
    }
  }

  /** Writing one more field as planned fills it. */
  lemma PutPlannedFilled(s: seq<Byte>, p: Platform, plan: map<Field, Long>, done: set<Field>, f: Field)
    requires p.Valid() && |s| == p.classDefinitionSize && PlanFits(plan)
    requires Filled(s, p, plan, done)
    ensures Filled(PutPlanned(s, p, plan, f), p, plan, done + {f})
  {
    if f in plan {
      PutFieldFilled(s, p, plan, done, f);
    } else {
      SkipField(s, p, plan, done, f);
    }
  }

  /** The fields an order lists. */
  function FieldsOf(order: seq<Field>): (r: set<Field>)
    ensures forall f :: f in r <==> f in order
  {
    set f | f in order
  }

  /** The fields of a prefix one longer. */
  lemma PrefixGrows(done: set<Field>, order: seq<Field>, k: nat)
    requires 0 < k <= |order|
    ensures done + FieldsOf(order[..k - 1]) + {order[k - 1]} == done + FieldsOf(order[..k])
  {
    var prefix := order[..k - 1];
    assert order[..k] == prefix + [order[k - 1]];
  }

  /** `putInt` or `putLong` of `value` into the slot of `f`. */
  method PutField(b: array<Byte>, p: Platform, f: Field, value: Long)
    requires p.Valid() && b.Length == p.classDefinitionSize
    requires IsIntField(f) ==> InInt32Range(value)
    modifies b
    ensures b[..] == PutFieldImage(old(b[..]), p, f, value)
  {
    var at := ComputeLayout(p).Offset(f);
    LayoutClosedForm(p, f);
    ghost var s := b[..];
    if IsIntField(f) {
      PutInt(b, at, value);
    } else {
      PutLong(b, at, value, p.long);
    }
    assert b[..] == PutFieldImage(s, p, f, value);
  }
}

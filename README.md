# JavaScriptCore Java binding: class definitions and callback dispatch

This project models, in Dafny, the Java half of the JNI binding of the
JavaScriptCore C API (package `com.appcelerator.javascriptcore`): the part
that describes JavaScript classes to the engine and routes the engine's
callbacks back to host code.

- `JSClassDefinition` (`class_definition.dfy`, module `ClassDefinitions`) is
  a class whose fields the methods update: `commit` fills a zero-filled
  native `JSClassDefinition` structure slot by slot (version, attributes,
  parent class handle, and the trampoline address of every callback that is
  set), and the chained callbacks (`JSObjectSetPropertyCallback` and its
  seven siblings) walk the `parentClass` chain, steered by the process-wide
  memo maps. The static fields of the Java class (memo maps, the two
  callback registries, the native template) form the `Runtime` class.
- The memo-led dispatch is specified by one ghost function,
  `ClassDefinitions.Outcome`, and related to what the native engine does
  over a whole lookup (`chain_engine.dfy`): the first class whose callback
  throws or accepts answers, the names of `getPropertyNames` accumulate, and
  the memo entry is left as the lemmas state. The walks that do not use the
  memo (`callAsFunction`, static values, static functions, `initialize`,
  `finalize`) are specified as pure functions of the chain (`chain_walks.dfy`).
- `JSStaticValues` and `JSStaticFunctions` (`static_values.dfy`,
  `static_functions.dfy`) are classes that collect entries until the first
  `commit`, which writes a native array of C records closed by an all-zero
  record; the lemmas read every field of the committed array back.
- `JSValueArrayRef`, `PointerType`/`Pointer`, `JSPropertyAttribute` and
  `JSType` are modelled with their arithmetic: the 32-bit wrap of the byte
  index, the hash code, the bit flags, and the type-code decoding.
- `JavaScriptCoreLibrary` (`library.dfy`, plus `putLong`/`getLong` in
  `native_buffer.dfy`): `JSClassCreate`, `JSGlobalClassCreate`,
  `JSObjectMake`, `JSObjectMakeConstructor` and
  `JSObjectMakeFunctionWithCallback`.

Java `long` and `int` are the subset types `Long` and `Int32`; every `int`
overflow the code can reach is written out with `Wrap32`. A direct byte
buffer is an `array<Byte>`, written in place; its contents are read by
functions over `buffer[..]`. A Java `null` is `None` (or a `null`
reference), and a thrown exception is a `Failure` of the `Result` type.
Host callbacks are pure Dafny functions of the arguments the binding passes
them; the `initialize` and `finalize` callbacks are recorded in a log.

## Model

| member | source | states |
|---|---|---|
| Base.Wrap32 | Source/JavaScriptCore/API/java/src/main/java/com/appcelerator/javascriptcore/JavaScriptCoreLibrary.java:69 | The `(int)` narrowing of a `long`: congruent to the input modulo 2^32 and the identity on values already in `int` range. |
| JSTypes.Request | Source/JavaScriptCore/API/java/src/main/java/com/appcelerator/javascriptcore/enums/JSType.java:48-58 | Decoding succeeds exactly for the codes 0 to 5; any other code fails with the JavaScriptException "Unsupported JSType: <code>". |
| JSTypes.RequestCode | Source/JavaScriptCore/API/java/src/main/java/com/appcelerator/javascriptcore/enums/JSType.java:15-58 | Decoding the native code of any type gives back that type. |
| JSTypes.CodeRequest | Source/JavaScriptCore/API/java/src/main/java/com/appcelerator/javascriptcore/enums/JSType.java:15-58 | A code that decodes is the native code of the type it decodes to. |
| JSTypes.CodeInjective | Source/JavaScriptCore/API/java/src/main/java/com/appcelerator/javascriptcore/enums/JSType.java:15-40 | Distinct types carry distinct native codes. |
| Pointers.WrapLong | Source/JavaScriptCore/API/java/src/main/java/com/appcelerator/javascriptcore/opaquetypes/Pointer.java:29-31 | Java `long` addition: the result is congruent to the exact sum modulo 2^64. |
| Pointers.Wrap32Congruent | Source/JavaScriptCore/API/java/src/main/java/com/appcelerator/javascriptcore/opaquetypes/Pointer.java:29-31 | Values congruent modulo 2^32 narrow to the same `int`. |
| Pointers.Pointer.Value | Source/JavaScriptCore/API/java/src/main/java/com/appcelerator/javascriptcore/opaquetypes/Pointer.java:15-17 | `value()` is the address: a pointer rebuilt from it equals the original. |
| Pointers.Pointer.Equals | Source/JavaScriptCore/API/java/src/main/java/com/appcelerator/javascriptcore/opaquetypes/Pointer.java:23-27 | `equals` holds exactly for a pointer equal to this one, that is with the same address; never for `null`. |
| Pointers.Pointer.HashCode | Source/JavaScriptCore/API/java/src/main/java/com/appcelerator/javascriptcore/opaquetypes/Pointer.java:29-31 | `hashCode` is the `int` narrowing of the sum of the two 32-bit halves of the address. |
| Pointers.HashCodeSumsHalves | Source/JavaScriptCore/API/java/src/main/java/com/appcelerator/javascriptcore/opaquetypes/Pointer.java:29-31 | The expression `hashCode` evaluates is the 32-bit sum of the upper and lower halves of the address; the `0xFFFFFFFF` mask, widened to -1L, has no effect on the result. |
| Pointers.EqualPointersHashAlike | Source/JavaScriptCore/API/java/src/main/java/com/appcelerator/javascriptcore/opaquetypes/Pointer.java:23-31 | Pointers that are `equals` have the same `hashCode`. |
| Pointers.HashIgnoresSwappedHalves | Source/JavaScriptCore/API/java/src/main/java/com/appcelerator/javascriptcore/opaquetypes/Pointer.java:29-31 | Two addresses with their 32-bit halves swapped have the same `hashCode`. |
| Pointers.PointerType.Null | Source/JavaScriptCore/API/java/src/main/java/com/appcelerator/javascriptcore/opaquetypes/PointerType.java:8-10 | The default constructor holds a `null` pointer. |
| Pointers.PointerType.FromAddress | Source/JavaScriptCore/API/java/src/main/java/com/appcelerator/javascriptcore/opaquetypes/PointerType.java:12-14 | Constructing from an address holds a pointer to that address. |
| Pointers.PointerType.FromPointer | Source/JavaScriptCore/API/java/src/main/java/com/appcelerator/javascriptcore/opaquetypes/PointerType.java:16-18 | Constructing from a pointer holds that pointer, `null` included. |
| Pointers.PointerType.SetPointer | Source/JavaScriptCore/API/java/src/main/java/com/appcelerator/javascriptcore/opaquetypes/PointerType.java:25-27 | `setPointer` replaces the held pointer. |
| Pointers.PointerType.Address | Source/JavaScriptCore/API/java/src/main/java/com/appcelerator/javascriptcore/opaquetypes/PointerType.java:29-36 | `pointer()` is 0 exactly for a `null` pointer or a pointer to address 0, and otherwise the held address. |
| Pointers.PointerType.IsNullPointer | Source/JavaScriptCore/API/java/src/main/java/com/appcelerator/javascriptcore/opaquetypes/PointerType.java:38-40 | `isNullPointer` holds exactly for a `null` pointer or a pointer to address 0. |
| Pointers.PointerType.HashCode | Source/JavaScriptCore/API/java/src/main/java/com/appcelerator/javascriptcore/opaquetypes/PointerType.java:45-47 | 0 for a wrapper that `isNullPointer` (`null`, or address 0); otherwise the sum-of-halves hash of the held pointer. |
| Pointers.PointerType.Equals | Source/JavaScriptCore/API/java/src/main/java/com/appcelerator/javascriptcore/opaquetypes/PointerType.java:52-61 | `equals` holds exactly for a non-null wrapper whose pointer is equal: both `null`, or the same address. |
| Pointers.EqualWrappersHashAlike | Source/JavaScriptCore/API/java/src/main/java/com/appcelerator/javascriptcore/opaquetypes/PointerType.java:45-61 | Wrappers that are `equals` have the same `hashCode`. |
| Pointers.NullIsNotAddressZero | Source/JavaScriptCore/API/java/src/main/java/com/appcelerator/javascriptcore/opaquetypes/PointerType.java:38-61 | A wrapper of `null` and a wrapper of address 0 are both `isNullPointer`, yet neither `equals` the other. |
| PropertyAttributes.PropertyAttribute.Add | Source/JavaScriptCore/API/java/src/main/java/com/appcelerator/javascriptcore/enums/JSPropertyAttribute.java:39-41 | `add` yields an attribute that has every flag of both operands. |
| PropertyAttributes.AddIsLeast | Source/JavaScriptCore/API/java/src/main/java/com/appcelerator/javascriptcore/enums/JSPropertyAttribute.java:39-41 | Any attribute holding both operands holds their combination, so `add` sets no other bit. |
| PropertyAttributes.AddHasFlag | Source/JavaScriptCore/API/java/src/main/java/com/appcelerator/javascriptcore/enums/JSPropertyAttribute.java:16-41 | A named flag is in a combination exactly when it is in one of the operands. |
| PropertyAttributes.AddCommutes | Source/JavaScriptCore/API/java/src/main/java/com/appcelerator/javascriptcore/enums/JSPropertyAttribute.java:39-41 | `a.add(b)` equals `b.add(a)`. |
| PropertyAttributes.AddAssociates | Source/JavaScriptCore/API/java/src/main/java/com/appcelerator/javascriptcore/enums/JSPropertyAttribute.java:39-41 | Combining is associative. |
| PropertyAttributes.AddIdempotent | Source/JavaScriptCore/API/java/src/main/java/com/appcelerator/javascriptcore/enums/JSPropertyAttribute.java:39-41 | Adding an attribute to itself changes nothing. |
| PropertyAttributes.NoneIsNeutral | Source/JavaScriptCore/API/java/src/main/java/com/appcelerator/javascriptcore/enums/JSPropertyAttribute.java:11-41 | `None` is the identity of `add` on both sides. |
| PropertyAttributes.FlagValues | Source/JavaScriptCore/API/java/src/main/java/com/appcelerator/javascriptcore/enums/JSPropertyAttribute.java:11-37 | `getValue` is 0, 2, 4 and 8 for None, ReadOnly, DontEnum and DontDelete; the three flags are distinct single bits and all three together give 14. |
| PropertyAttributes.PropertyAttribute.GetValue | Source/JavaScriptCore/API/java/src/main/java/com/appcelerator/javascriptcore/enums/JSPropertyAttribute.java:35-37 | `getValue` is the flag bits read as a Java `int`: their low 32 bits, signed. |
| NativeBuffer.EncodeInt | Source/JavaScriptCore/API/java/src/main/java/com/appcelerator/javascriptcore/JavaScriptCoreLibrary.java:69 | `putInt` stores exactly four bytes. |
| NativeBuffer.EncodeLong | Source/JavaScriptCore/API/java/src/main/java/com/appcelerator/javascriptcore/JavaScriptCoreLibrary.java:63-71 | `putLong` stores as many bytes as the native `long` is wide. |
| NativeBuffer.DecodeEncodeInt | Source/JavaScriptCore/API/java/src/main/java/com/appcelerator/javascriptcore/JavaScriptCoreLibrary.java:69 | Reading back the four bytes of an `int` gives the `int`. |
| NativeBuffer.DecodeEncodeLong | Source/JavaScriptCore/API/java/src/main/java/com/appcelerator/javascriptcore/JavaScriptCoreLibrary.java:63-80 | `getLong` of what `putLong` stored gives the value, narrowed by `(int)` when the native `long` has four bytes. |
| NativeBuffer.EncodeDecodeInt | Source/JavaScriptCore/API/java/src/main/java/com/appcelerator/javascriptcore/JavaScriptCoreLibrary.java:78 | Any four bytes are the image of the `int` `getInt` reads from them. |
| NativeBuffer.EncodeDecodeLong | Source/JavaScriptCore/API/java/src/main/java/com/appcelerator/javascriptcore/JavaScriptCoreLibrary.java:72-80 | Any slot's bytes are the image of the value `getLong` reads from them. |
| NativeBuffer.GetLong | Source/JavaScriptCore/API/java/src/main/java/com/appcelerator/javascriptcore/JavaScriptCoreLibrary.java:72-80 | `getLong` reads a value whose stored image is exactly the slot's bytes; with a four-byte native `long` the value is in `int` range. |
| NativeBuffer.GetInt | Source/JavaScriptCore/API/java/src/main/java/com/appcelerator/javascriptcore/JavaScriptCoreLibrary.java:78 | `getInt` reads the `int` whose four-byte image is exactly the bytes at the index. |
| NativeBuffer.RetainedExactly | Source/JavaScriptCore/API/java/src/main/java/com/appcelerator/javascriptcore/JavaScriptCoreLibrary.java:63-80 | A stored `long` reads back unchanged exactly when the native `long` has eight bytes or the value fits in an `int`. |
| NativeBuffer.GetAfterPutLong | Source/JavaScriptCore/API/java/src/main/java/com/appcelerator/javascriptcore/JavaScriptCoreLibrary.java:63-80 | `getLong` at the index `putLong` wrote returns what the slot retains of the value. |
| NativeBuffer.GetAfterPutInt | Source/JavaScriptCore/API/java/src/main/java/com/appcelerator/javascriptcore/JavaScriptCoreLibrary.java:69 | `getInt` at the index `putInt` wrote returns the value. |
| NativeBuffer.PutLongKeepsOtherSlot | Source/JavaScriptCore/API/java/src/main/java/com/appcelerator/javascriptcore/JavaScriptCoreLibrary.java:63-71 | `putLong` leaves every byte outside its slot unchanged. |
| NativeBuffer.PutIntKeepsOtherSlot | Source/JavaScriptCore/API/java/src/main/java/com/appcelerator/javascriptcore/JavaScriptCoreLibrary.java:69 | `putInt` leaves every byte outside its four bytes unchanged. |
| NativeBuffer.ZeroSlotReadsZero | Source/JavaScriptCore/API/java/src/main/java/com/appcelerator/javascriptcore/JavaScriptCoreLibrary.java:72-80 | A slot of zero bytes reads as 0 at either width. |
| NativeBuffer.PutLong | Source/JavaScriptCore/API/java/src/main/java/com/appcelerator/javascriptcore/JavaScriptCoreLibrary.java:63-71 | The buffer becomes the old buffer with the value's little-endian bytes, 8 or 4 of them by the native `long` width, at the index. |
| NativeBuffer.PutInt | Source/JavaScriptCore/API/java/src/main/java/com/appcelerator/javascriptcore/JavaScriptCoreLibrary.java:69 | The buffer becomes the old buffer with the `int`'s four little-endian bytes at the index. |
| RecordTables.WriteTwoWordRecord | Source/JavaScriptCore/API/java/src/main/java/com/appcelerator/javascriptcore/opaquetypes/JSStaticFunctions.java:58-74 | Two `putLong` calls and a `putInt` store exactly the record's bytes at the index and change nothing else. |
| RecordTables.WriteThreeWordRecord | Source/JavaScriptCore/API/java/src/main/java/com/appcelerator/javascriptcore/opaquetypes/JSStaticValues.java:75-96 | Three `putLong` calls and a `putInt` store exactly the record's bytes at the index and change nothing else. |
| RecordTables.PutRecordIsSplice | Source/JavaScriptCore/API/java/src/main/java/com/appcelerator/javascriptcore/opaquetypes/JSStaticValues.java:75-96 | Writing a record field by field is the same as storing its bytes at the record's base. |
| RecordTables.RecordFields | Source/JavaScriptCore/API/java/src/main/java/com/appcelerator/javascriptcore/opaquetypes/JSStaticValues.java:75-88 | Every pointer word of a record reads back from the record's bytes, as the slot retains it. |
| RecordTables.RecordAttributes | Source/JavaScriptCore/API/java/src/main/java/com/appcelerator/javascriptcore/opaquetypes/JSStaticValues.java:87 | The attributes field reads back from the four bytes after the record's words. |
| RecordTables.Allocate | Source/JavaScriptCore/API/java/src/main/java/com/appcelerator/javascriptcore/opaquetypes/JSStaticValues.java:49 | `allocateDirect(CHUNK * (n + 1))` yields a fresh buffer of that many zero bytes. |
| RecordTables.ImageRecord | Source/JavaScriptCore/API/java/src/main/java/com/appcelerator/javascriptcore/opaquetypes/JSStaticValues.java:46-59 | In a committed table, each record and the closing record lie whole in their own chunk. |
| RecordTables.ImageWord | Source/JavaScriptCore/API/java/src/main/java/com/appcelerator/javascriptcore/opaquetypes/JSStaticValues.java:46-96 | Word `k` of record `j` of a committed table reads as the record's word, and as 0 in the closing record. |
| RecordTables.ImageAttributes | Source/JavaScriptCore/API/java/src/main/java/com/appcelerator/javascriptcore/opaquetypes/JSStaticValues.java:46-96 | The attributes of record `j` of a committed table read as the record's attributes, and as 0 in the closing record. |
| ClassLayouts.Position | Source/JavaScriptCore/API/java/src/main/java/com/appcelerator/javascriptcore/opaquetypes/JSClassDefinition.java:146-162 | The index of a field in the structure, below 17; only `Version` sits at 0 and only `Attributes` at 1. |
| ClassLayouts.PositionInverse | Source/JavaScriptCore/API/java/src/main/java/com/appcelerator/javascriptcore/opaquetypes/JSClassDefinition.java:146-162 | `FieldAt` inverts `Position`, so distinct fields have distinct places. |
| ClassLayouts.FieldOffset | Source/JavaScriptCore/API/java/src/main/java/com/appcelerator/javascriptcore/opaquetypes/JSClassDefinition.java:623-638 | Every field's slot ends inside the packed structure of `8 + 15 * sizeof(long)` bytes. |
| ClassLayouts.ComputeLayout | Source/JavaScriptCore/API/java/src/main/java/com/appcelerator/javascriptcore/opaquetypes/JSClassDefinition.java:623-638 | On a valid platform, the offsets `constructBufferTemplate` computes step by step are those of the packed layout: two 4-byte fields, then fifteen pointer slots. |
| ClassLayouts.LayoutClosedForm | Source/JavaScriptCore/API/java/src/main/java/com/appcelerator/javascriptcore/opaquetypes/JSClassDefinition.java:623-638 | Each computed offset equals the closed-form one, and each slot lies inside the native structure's size. |
| ClassLayouts.SlotsOrdered | Source/JavaScriptCore/API/java/src/main/java/com/appcelerator/javascriptcore/opaquetypes/JSClassDefinition.java:623-638 | A field's slot ends at or before the start of every later field's slot. |
| ClassLayouts.SlotsDisjoint | Source/JavaScriptCore/API/java/src/main/java/com/appcelerator/javascriptcore/opaquetypes/JSClassDefinition.java:623-638 | Slots at different indices do not overlap. |
| ClassLayouts.FieldsDisjoint | Source/JavaScriptCore/API/java/src/main/java/com/appcelerator/javascriptcore/opaquetypes/JSClassDefinition.java:623-638 | Distinct fields occupy disjoint slots. |
| ClassLayouts.PutFieldReads | Source/JavaScriptCore/API/java/src/main/java/com/appcelerator/javascriptcore/opaquetypes/JSClassDefinition.java:204-217 | After writing a field, the field reads back what its slot retains of the value. |
| ClassLayouts.PutFieldKeeps | Source/JavaScriptCore/API/java/src/main/java/com/appcelerator/javascriptcore/opaquetypes/JSClassDefinition.java:204-217 | Writing a field leaves every other field's value unchanged. |
| ClassLayouts.PutFieldFilled | Source/JavaScriptCore/API/java/src/main/java/com/appcelerator/javascriptcore/opaquetypes/JSClassDefinition.java:204-217 | Writing a field's planned value adds that field to the set of fields that read as planned. |
| ClassLayouts.ApplyFirstFilled | Source/JavaScriptCore/API/java/src/main/java/com/appcelerator/javascriptcore/opaquetypes/JSClassDefinition.java:204-224 | Carrying out the first `k` writes of a plan, in any order, leaves every field written so far reading as planned. |
| ClassLayouts.ZerosFilled | Source/JavaScriptCore/API/java/src/main/java/com/appcelerator/javascriptcore/opaquetypes/JSClassDefinition.java:202-203 | In a zero-filled structure every field reads 0, which is what the plan gives a field it does not write. |
| ClassLayouts.PutField | Source/JavaScriptCore/API/java/src/main/java/com/appcelerator/javascriptcore/opaquetypes/JSClassDefinition.java:204-217 | `putInt` or `putLong` at the field's computed offset changes the buffer exactly as writing that field's slot does. |
| StaticValueTables.StaticValueTable.constructor | Source/JavaScriptCore/API/java/src/main/java/com/appcelerator/javascriptcore/opaquetypes/JSStaticValues.java:34-40 | The getter and setter trampolines are read from the native template at one and at two pointer widths; the table starts empty and not frozen. |
| StaticValueTables.StaticValueTable.Add | Source/JavaScriptCore/API/java/src/main/java/com/appcelerator/javascriptcore/opaquetypes/JSStaticValues.java:106-112 | Once frozen, `add` throws "No changes can be done after commit()" and changes nothing; after `dispose` it throws a NullPointerException; otherwise the name's entry is replaced and the name is appended to the list. |
| StaticValueTables.StaticValueTable.ContainsGetter | Source/JavaScriptCore/API/java/src/main/java/com/appcelerator/javascriptcore/opaquetypes/JSStaticValues.java:98-100 | True exactly when the name was ever added, whatever its getter; NullPointerException once disposed. |
| StaticValueTables.StaticValueTable.ContainsSetter | Source/JavaScriptCore/API/java/src/main/java/com/appcelerator/javascriptcore/opaquetypes/JSStaticValues.java:102-104 | The same answer as `containsGetter`, setter or not. |
| StaticValueTables.StaticValueTable.GetGetPropertyCallback | Source/JavaScriptCore/API/java/src/main/java/com/appcelerator/javascriptcore/opaquetypes/JSStaticValues.java:114-117 | Succeeds exactly for an added name, giving the getter of the latest entry for it, `null` included. |
| StaticValueTables.StaticValueTable.GetSetPropertyCallback | Source/JavaScriptCore/API/java/src/main/java/com/appcelerator/javascriptcore/opaquetypes/JSStaticValues.java:119-121 | Succeeds exactly for an added name, giving the setter of the latest entry for it, `null` included. |
| StaticValueTables.StaticValueTable.Commit | Source/JavaScriptCore/API/java/src/main/java/com/appcelerator/javascriptcore/opaquetypes/JSStaticValues.java:46-59 | The first `commit` returns a fresh buffer holding one record per added name, then the closing record; it freezes the table and empties the name list. A frozen table returns the same buffer unchanged. A disposed, unfrozen table throws a NullPointerException. |
| StaticValueTables.StaticValueTable.Serialize | Source/JavaScriptCore/API/java/src/main/java/com/appcelerator/javascriptcore/opaquetypes/JSStaticValues.java:48-54 | Allocation and the record writes produce the committed table image. |
| StaticValueTables.StaticValueTable.UpdateAll | Source/JavaScriptCore/API/java/src/main/java/com/appcelerator/javascriptcore/opaquetypes/JSStaticValues.java:51-53 | The loop writes the records of all names in order, advancing the partial image one chunk per name. |
| StaticValueTables.StaticValueTable.Update | Source/JavaScriptCore/API/java/src/main/java/com/appcelerator/javascriptcore/opaquetypes/JSStaticValues.java:75-88 | `update` writes the name's record at its chunk: name address, getter and setter trampolines (0 when `null`), attributes. |
| StaticValueTables.StaticValueTable.UpdateLast | Source/JavaScriptCore/API/java/src/main/java/com/appcelerator/javascriptcore/opaquetypes/JSStaticValues.java:90-96 | `updateLast` writes the all-zero closing record, completing the committed image. |
| StaticValueTables.StaticValueTable.Dispose | Source/JavaScriptCore/API/java/src/main/java/com/appcelerator/javascriptcore/opaquetypes/JSStaticValues.java:61-73 | Drops the buffer, the map and the name list; frozen stays as it was. |
| StaticValueTables.Committed | Source/JavaScriptCore/API/java/src/main/java/com/appcelerator/javascriptcore/opaquetypes/JSStaticValues.java:46-59 | The committed table is `CHUNK * (n + 1)` bytes long. |
| StaticValueTables.CommittedName | Source/JavaScriptCore/API/java/src/main/java/com/appcelerator/javascriptcore/opaquetypes/JSStaticValues.java:52-54 | Record `i` holds the address of the `i`-th name added; the closing record holds 0. |
| StaticValueTables.CommittedGetter | Source/JavaScriptCore/API/java/src/main/java/com/appcelerator/javascriptcore/opaquetypes/JSStaticValues.java:77-81 | Record `i` holds the getter trampoline when the latest entry for its name has a getter, and 0 otherwise; 0 in the closing record. |
| StaticValueTables.CommittedSetter | Source/JavaScriptCore/API/java/src/main/java/com/appcelerator/javascriptcore/opaquetypes/JSStaticValues.java:82-86 | Record `i` holds the setter trampoline when the latest entry for its name has a setter, and 0 otherwise; 0 in the closing record. |
| StaticValueTables.CommittedAttributes | Source/JavaScriptCore/API/java/src/main/java/com/appcelerator/javascriptcore/opaquetypes/JSStaticValues.java:87 | Record `i` holds the attributes of the latest entry for its name; the closing record holds 0. |
| StaticValueTables.RepeatedNameSameEntry | Source/JavaScriptCore/API/java/src/main/java/com/appcelerator/javascriptcore/opaquetypes/JSStaticValues.java:110-111 | A name added twice gets two records that agree on everything but the name's address, both describing the latest entry. |
| StaticFunctionTables.BindingIsLastIndex | Source/JavaScriptCore/API/java/src/main/java/com/appcelerator/javascriptcore/opaquetypes/JSStaticFunctions.java:104-112 | After `registerFunctions`, a pointer is bound exactly when it is listed, to the last index that lists it. |
| StaticFunctionTables.StaticFunctionTable.constructor | Source/JavaScriptCore/API/java/src/main/java/com/appcelerator/javascriptcore/opaquetypes/JSStaticFunctions.java:34-39 | The call trampoline is read from the native template at one pointer width; the table starts empty. |
| StaticFunctionTables.StaticFunctionTable.Add | Source/JavaScriptCore/API/java/src/main/java/com/appcelerator/javascriptcore/opaquetypes/JSStaticFunctions.java:98-102 | Once committed, `add` throws "No changes can be done after commit()" and changes nothing; after `dispose` it throws a NullPointerException; otherwise it appends the entry and its name. |
| StaticFunctionTables.StaticFunctionTable.Size | Source/JavaScriptCore/API/java/src/main/java/com/appcelerator/javascriptcore/opaquetypes/JSStaticFunctions.java:94-96 | The number of entries added, which equals the number of names; NullPointerException once disposed. |
| StaticFunctionTables.StaticFunctionTable.Commit | Source/JavaScriptCore/API/java/src/main/java/com/appcelerator/javascriptcore/opaquetypes/JSStaticFunctions.java:45-56 | The first `commit` returns a fresh buffer holding one record per entry, then the closing record. Once committed, it returns the same buffer unchanged. A disposed table throws a NullPointerException. The lists are kept. |
| StaticFunctionTables.StaticFunctionTable.Serialize | Source/JavaScriptCore/API/java/src/main/java/com/appcelerator/javascriptcore/opaquetypes/JSStaticFunctions.java:47-53 | Allocation and the record writes produce the committed table image. |
| StaticFunctionTables.StaticFunctionTable.UpdateAll | Source/JavaScriptCore/API/java/src/main/java/com/appcelerator/javascriptcore/opaquetypes/JSStaticFunctions.java:50-52 | The loop writes the records of all entries in order, one chunk each. |
| StaticFunctionTables.StaticFunctionTable.Update | Source/JavaScriptCore/API/java/src/main/java/com/appcelerator/javascriptcore/opaquetypes/JSStaticFunctions.java:58-67 | `update` writes an entry's record at its chunk: name address, call trampoline (0 for a `null` callback), attributes. |
| StaticFunctionTables.StaticFunctionTable.UpdateLast | Source/JavaScriptCore/API/java/src/main/java/com/appcelerator/javascriptcore/opaquetypes/JSStaticFunctions.java:69-74 | `updateLast` writes the all-zero closing record, completing the committed image. |
| StaticFunctionTables.StaticFunctionTable.RegisterFunctions | Source/JavaScriptCore/API/java/src/main/java/com/appcelerator/javascriptcore/opaquetypes/JSStaticFunctions.java:104-112 | The object's bindings are replaced by the index each listed pointer last has; nothing else changes; NullPointerException once disposed. |
| StaticFunctionTables.StaticFunctionTable.RemoveObject | Source/JavaScriptCore/API/java/src/main/java/com/appcelerator/javascriptcore/opaquetypes/JSStaticFunctions.java:114-116 | Forgets the object's bindings; NullPointerException once disposed. |
| StaticFunctionTables.StaticFunctionTable.RequestFunctions | Source/JavaScriptCore/API/java/src/main/java/com/appcelerator/javascriptcore/opaquetypes/JSStaticFunctions.java:118-120 | True exactly when nothing is registered for the object; NullPointerException once disposed. |
| StaticFunctionTables.StaticFunctionTable.GetFunction | Source/JavaScriptCore/API/java/src/main/java/com/appcelerator/javascriptcore/opaquetypes/JSStaticFunctions.java:122-126 | `null` when the object or the pointer is not registered; otherwise the callback of the bound entry, or an IndexOutOfBoundsException when the index is past the entries; NullPointerException once disposed. |
| StaticFunctionTables.StaticFunctionTable.Dispose | Source/JavaScriptCore/API/java/src/main/java/com/appcelerator/javascriptcore/opaquetypes/JSStaticFunctions.java:76-92 | Drops the bindings, the buffer and both lists. |
| StaticFunctionTables.RegisteredLookup | Source/JavaScriptCore/API/java/src/main/java/com/appcelerator/javascriptcore/opaquetypes/JSStaticFunctions.java:104-126 | After registering `pointers` for an object, a pointer is bound exactly when listed, to its last listed index. |
| StaticFunctionTables.Committed | Source/JavaScriptCore/API/java/src/main/java/com/appcelerator/javascriptcore/opaquetypes/JSStaticFunctions.java:45-56 | The committed table is `CHUNK * (n + 1)` bytes long. |
| StaticFunctionTables.CommittedName | Source/JavaScriptCore/API/java/src/main/java/com/appcelerator/javascriptcore/opaquetypes/JSStaticFunctions.java:50-53 | Record `i` holds the address of the `i`-th name added; the closing record holds 0. |
| StaticFunctionTables.CommittedCallback | Source/JavaScriptCore/API/java/src/main/java/com/appcelerator/javascriptcore/opaquetypes/JSStaticFunctions.java:61-65 | Record `i` holds the call trampoline when entry `i` has a callback, and 0 otherwise; 0 in the closing record. |
| StaticFunctionTables.CommittedAttributes | Source/JavaScriptCore/API/java/src/main/java/com/appcelerator/javascriptcore/opaquetypes/JSStaticFunctions.java:66 | Record `i` holds entry `i`'s attributes; the closing record holds 0. |
| ValueArrays.SlotOffsets | Source/JavaScriptCore/API/java/src/main/java/com/appcelerator/javascriptcore/opaquetypes/JSValueArrayRef.java:34-36 | While `length * sizeOfPointer` fits in an `int`, element `i` sits at `i * sizeOfPointer` and inside the buffer. |
| ValueArrays.WriteThenRead | Source/JavaScriptCore/API/java/src/main/java/com/appcelerator/javascriptcore/opaquetypes/JSValueArrayRef.java:38-46 | Within such an array, `get` after `set` returns what the slot retains of the value at the element written, and the old value at every other element. |
| ValueArrays.WrappedIndexAliases | Source/JavaScriptCore/API/java/src/main/java/com/appcelerator/javascriptcore/opaquetypes/JSValueArrayRef.java:24-46 | With 2^29 + 2 elements of 8 bytes, the `int` byte index wraps: the buffer is 16 bytes and element 2^29 + 1 shares its slot with element 1. |
| ValueArrays.ValueArray.Wrap | Source/JavaScriptCore/API/java/src/main/java/com/appcelerator/javascriptcore/opaquetypes/JSValueArrayRef.java:17-22 | Wraps the given length and buffer, `null` included. |
| ValueArrays.ValueArray.Empty | Source/JavaScriptCore/API/java/src/main/java/com/appcelerator/javascriptcore/opaquetypes/JSValueArrayRef.java:12 | The shared empty array: length 0, no buffer. |
| ValueArrays.ValueArray.Allocate | Source/JavaScriptCore/API/java/src/main/java/com/appcelerator/javascriptcore/opaquetypes/JSValueArrayRef.java:24-32 | Fails with IllegalArgumentException exactly when the length is positive and the wrapped byte size is negative. Otherwise the length is kept, and the buffer is `null` for a length of at most 0, else zero-filled. |
| ValueArrays.ValueArray.NoArg | Source/JavaScriptCore/API/java/src/main/java/com/appcelerator/javascriptcore/opaquetypes/JSValueArrayRef.java:67-69 | A new array of no elements and no buffer. |
| ValueArrays.ValueArray.Get | Source/JavaScriptCore/API/java/src/main/java/com/appcelerator/javascriptcore/opaquetypes/JSValueArrayRef.java:38-41 | IndexOutOfBoundsException when `index >= length`, else a NullPointerException with no buffer, else the element read at the wrapped byte index, which succeeds only when that slot lies inside the buffer. |
| ValueArrays.ValueArray.Set | Source/JavaScriptCore/API/java/src/main/java/com/appcelerator/javascriptcore/opaquetypes/JSValueArrayRef.java:43-46 | Succeeds exactly when `get` would, with the same exception; stores the value's address in the element's slot, and leaves the buffer unchanged on failure. |
| ValueArrays.ValueArray.Dispose | Source/JavaScriptCore/API/java/src/main/java/com/appcelerator/javascriptcore/opaquetypes/JSValueArrayRef.java:56-65 | The shared empty array is untouched; any other loses its buffer and its length becomes 0. |
| ValueArrays.ValueArray.Length | Source/JavaScriptCore/API/java/src/main/java/com/appcelerator/javascriptcore/opaquetypes/JSValueArrayRef.java:48-50 | `length()` is 0 for the shared empty array, and `get` refuses every index from it on. |
| ValueArrays.ValueArray.ByteBuffer | Source/JavaScriptCore/API/java/src/main/java/com/appcelerator/javascriptcore/opaquetypes/JSValueArrayRef.java:52-54 | `getByteBuffer()` is `null` for the shared empty array, and without a buffer `get` fails for every index. |
| Dispatch.LocalShape | Source/JavaScriptCore/API/java/src/main/java/com/appcelerator/javascriptcore/opaquetypes/JSClassDefinition.java:266-512 | One class's callback answers in the form its Java signature allows; it throws only for a type code `JSType.request` does not know. |
| Dispatch.Declined | Source/JavaScriptCore/API/java/src/main/java/com/appcelerator/javascriptcore/opaquetypes/JSClassDefinition.java:281-284 | When no callback accepts, the root answers `false`, 0 or the names its own callback added; `callAsConstructor` alone throws. |
| Dispatch.NextHooked | Source/JavaScriptCore/API/java/src/main/java/com/appcelerator/javascriptcore/opaquetypes/JSClassDefinition.java:276-280 | The next class up the chain whose callback is set; every class before it has none. |
| Dispatch.Step | Source/JavaScriptCore/API/java/src/main/java/com/appcelerator/javascriptcore/opaquetypes/JSClassDefinition.java:266-285 | One call: an exception leaves the memo pinned to the class that threw; accepting removes the entry; declining pins it to the next class, or removes it at the root. No other entry changes. |
| Dispatch.FirstDecisive | Source/JavaScriptCore/API/java/src/main/java/com/appcelerator/javascriptcore/opaquetypes/JSClassDefinition.java:271-275 | The first class whose callback throws or accepts; no class before it does. |
| Dispatch.LastHooked | Source/JavaScriptCore/API/java/src/main/java/com/appcelerator/javascriptcore/opaquetypes/JSClassDefinition.java:276-283 | The last class of the chain with the callback; none after it has it. |
| Dispatch.ReachedStep | Source/JavaScriptCore/API/java/src/main/java/com/appcelerator/javascriptcore/opaquetypes/JSClassDefinition.java:266-285 | The answer of the calls from a class on is that of the first call when it settles, and otherwise that call's names joined with the answer of the calls after it. |
| Dispatch.ReachedDecisive | Source/JavaScriptCore/API/java/src/main/java/com/appcelerator/javascriptcore/opaquetypes/JSClassDefinition.java:266-285 | Without names on the way, the walk answers what the first throwing or accepting callback answered. |
| Dispatch.ReachedNames | Source/JavaScriptCore/API/java/src/main/java/com/appcelerator/javascriptcore/opaquetypes/JSClassDefinition.java:448-469 | When every callback declines, the answer accepts nothing and carries every callback's names in chain order. |
| Dispatch.MemoKeepsOthers | Source/JavaScriptCore/API/java/src/main/java/com/appcelerator/javascriptcore/opaquetypes/JSClassDefinition.java:266-285 | The walk changes only the memo entry it is keyed by. |
| Dispatch.MemoDecided | Source/JavaScriptCore/API/java/src/main/java/com/appcelerator/javascriptcore/opaquetypes/JSClassDefinition.java:271-275 | After an accepting callback the entry is gone; after an exception the entry names the class that threw, or is as it was when that class was asked first. |
| Dispatch.MemoDeclined | Source/JavaScriptCore/API/java/src/main/java/com/appcelerator/javascriptcore/opaquetypes/JSClassDefinition.java:276-283 | When every callback declines, the memo is as the last class with the callback left it: naming the class after it, removed at the root, untouched when no class has the callback. |
| Dispatch.PinAgain | Source/JavaScriptCore/API/java/src/main/java/com/appcelerator/javascriptcore/opaquetypes/JSClassDefinition.java:276-283 | Pinning the entry twice is pinning it once, to the later class. |
| ChainWalks.SetStaticOutcome | Source/JavaScriptCore/API/java/src/main/java/com/appcelerator/javascriptcore/opaquetypes/JSClassDefinition.java:514-528 | The first class whose table holds the name settles the call: `false` for a `null` setter, otherwise the setter's answer; a table error ends the walk; `false` when no class holds the name. |
| ChainWalks.GetStaticOutcome | Source/JavaScriptCore/API/java/src/main/java/com/appcelerator/javascriptcore/opaquetypes/JSClassDefinition.java:530-544 | As the setter walk, except that a `null` getter gives 0 and a name no class holds throws "Static value '<name>' callback is not found for <object>". |
| ChainWalks.CallAsFunctionOutcome | Source/JavaScriptCore/API/java/src/main/java/com/appcelerator/javascriptcore/opaquetypes/JSClassDefinition.java:311-322 | The `callAsFunction` of the nearest class that has one runs; without one the call throws "CallAsFunction callback is not found for <thisObject>". |
| ChainWalks.StaticFunctionOutcome | Source/JavaScriptCore/API/java/src/main/java/com/appcelerator/javascriptcore/opaquetypes/JSClassDefinition.java:324-339 | The first class whose table binds the function to a non-null callback runs it; a table error ends the walk; otherwise the call throws "Static function callback is not found for <thisObject>". |
| ChainWalks.InitializeRootFirst | Source/JavaScriptCore/API/java/src/main/java/com/appcelerator/javascriptcore/opaquetypes/JSClassDefinition.java:244-252 | Every `initialize` on the chain runs once, the root's first: the events are the leaf-first list of callbacks, reversed. |
| ChainWalks.FinalizeEvents | Source/JavaScriptCore/API/java/src/main/java/com/appcelerator/javascriptcore/opaquetypes/JSClassDefinition.java:254-263 | The leading classes with `finalize`, from the leaf on, each run theirs in order; the first class without one stops the walk. |
| ChainEngine.ChainFrom | Source/JavaScriptCore/API/java/src/main/java/com/appcelerator/javascriptcore/opaquetypes/JSClassDefinition.java:36-128 | From any definition, following the parents gives a finite chain, leaf first, ending at a class without a parent. |
| ChainEngine.ChainAcyclic | Source/JavaScriptCore/API/java/src/main/java/com/appcelerator/javascriptcore/opaquetypes/JSClassDefinition.java:36-128 | A class chain never returns to its leaf. |
| ChainEngine.CallAt | Source/JavaScriptCore/API/java/src/main/java/com/appcelerator/javascriptcore/opaquetypes/JSClassDefinition.java:266-285 | A call reaching a class with no memo leading elsewhere passes over classes without the callback and is answered as `Step` says; past the root it is declined and the entry removed. |
| ChainEngine.EngineWalk | Source/JavaScriptCore/API/java/src/main/java/com/appcelerator/javascriptcore/opaquetypes/JSClassDefinition.java:266-285 | The engine's calls, one per class with the callback, give the answer and the memo that the chain-order walk gives. |
| ChainEngine.LookupDecided | Source/JavaScriptCore/API/java/src/main/java/com/appcelerator/javascriptcore/opaquetypes/JSClassDefinition.java:266-309 | A lookup from the leaf is answered by the first class whose callback throws or accepts; after acceptance the memo holds no entry, after an exception it names the class that threw, or is as it was when that was the leaf. |
| ChainEngine.LookupDeclined | Source/JavaScriptCore/API/java/src/main/java/com/appcelerator/javascriptcore/opaquetypes/JSClassDefinition.java:448-469 | A lookup in which every callback declines is declined with every callback's names in chain order; the memo is left pinned after the last class with the callback, or without the entry. |
| ChainEngine.PinnedCallMisses | Source/JavaScriptCore/API/java/src/main/java/com/appcelerator/javascriptcore/opaquetypes/JSClassDefinition.java:266-285 | While the memo names a class above which no class has the callback, a call on the leaf is declined and the entry removed, whatever the leaf's own callback would answer. |
| ClassDefinitions.Runtime.Record | Source/JavaScriptCore/API/java/src/main/java/com/appcelerator/javascriptcore/opaquetypes/JSClassDefinition.java:244-263 | A host `initialize` or `finalize` run is appended to the log. |
| ClassDefinitions.Runtime.ClearAll | Source/JavaScriptCore/API/java/src/main/java/com/appcelerator/javascriptcore/opaquetypes/JSClassDefinition.java:590-600 | Every memo map and both registries are emptied. |
| ClassDefinitions.Runtime.ConstructBufferTemplate | Source/JavaScriptCore/API/java/src/main/java/com/appcelerator/javascriptcore/opaquetypes/JSClassDefinition.java:620-622 | The native template is kept from the first definition only. |
| ClassDefinitions.Runtime.ClearPrototypeChain | Source/JavaScriptCore/API/java/src/main/java/com/appcelerator/javascriptcore/opaquetypes/JSClassDefinition.java:662-673 | The object's entries in all eight memo maps and in both registries are removed, and nothing else. |
| ClassDefinitions.Runtime.RegisterMakeFunctionCallback | Source/JavaScriptCore/API/java/src/main/java/com/appcelerator/javascriptcore/opaquetypes/JSClassDefinition.java:370-372 | The registration for the function is replaced, `null` included. |
| ClassDefinitions.Runtime.MakeFunctionCallback | Source/JavaScriptCore/API/java/src/main/java/com/appcelerator/javascriptcore/opaquetypes/JSClassDefinition.java:373-383 | Succeeds exactly when a non-null callback is registered for the function, with that callback's answer; otherwise throws "JSObjectMakeFunctionWithCallback callback is not found for <thisObject>". |
| ClassDefinitions.Runtime.RegisterMakeConstructorCallback | Source/JavaScriptCore/API/java/src/main/java/com/appcelerator/javascriptcore/opaquetypes/JSClassDefinition.java:389-391 | The registration for the constructor is replaced, `null` included. |
| ClassDefinitions.Runtime.MakeConstructorCallback | Source/JavaScriptCore/API/java/src/main/java/com/appcelerator/javascriptcore/opaquetypes/JSClassDefinition.java:392-401 | Succeeds exactly when a non-null callback is registered for the constructor, with that callback's answer; otherwise throws "JSObjectMakeConstructor callback is not found for <constructor>". |
| ClassDefinitions.ClassDefinition.constructor | Source/JavaScriptCore/API/java/src/main/java/com/appcelerator/javascriptcore/opaquetypes/JSClassDefinition.java:172-174 | A new definition with the given public fields, no committed structure, no parent link, `callAsConstructor` not forced and finalization on; the template is fetched if none was yet. |
| ClassDefinitions.ClassDefinition.Resolve | Source/JavaScriptCore/API/java/src/main/java/com/appcelerator/javascriptcore/opaquetypes/JSClassDefinition.java:265-285 | The answer and the new memo are those `Outcome` gives: follow a memo naming another class, else run the own callback and pin, remove or forward. |
| ClassDefinitions.ClassDefinition.ResolveHere | Source/JavaScriptCore/API/java/src/main/java/com/appcelerator/javascriptcore/opaquetypes/JSClassDefinition.java:270-284 | The same, once the memo leads nowhere else. |
| ClassDefinitions.ClassDefinition.SetPropertyCallback | Source/JavaScriptCore/API/java/src/main/java/com/appcelerator/javascriptcore/opaquetypes/JSClassDefinition.java:265-285 | The answer and memo of `Outcome` for a `setProperty` request. |
| ClassDefinitions.ClassDefinition.GetPropertyCallback | Source/JavaScriptCore/API/java/src/main/java/com/appcelerator/javascriptcore/opaquetypes/JSClassDefinition.java:287-309 | The answer and memo of `Outcome` for a `getProperty` request; the result is non-zero exactly when accepted. |
| ClassDefinitions.ClassDefinition.ConvertToTypeCallback | Source/JavaScriptCore/API/java/src/main/java/com/appcelerator/javascriptcore/opaquetypes/JSClassDefinition.java:403-425 | The answer and memo of `Outcome` for a `convertToType` request, with `JSType.request`'s exception. |
| ClassDefinitions.ClassDefinition.DeletePropertyCallback | Source/JavaScriptCore/API/java/src/main/java/com/appcelerator/javascriptcore/opaquetypes/JSClassDefinition.java:427-446 | The answer and memo of `Outcome` for a `deleteProperty` request. |
| ClassDefinitions.ClassDefinition.GetPropertyNamesCallback | Source/JavaScriptCore/API/java/src/main/java/com/appcelerator/javascriptcore/opaquetypes/JSClassDefinition.java:448-469 | The names and memo of `Outcome` for a `getPropertyNames` request. |
| ClassDefinitions.ClassDefinition.HasInstanceCallback | Source/JavaScriptCore/API/java/src/main/java/com/appcelerator/javascriptcore/opaquetypes/JSClassDefinition.java:471-491 | The answer and memo of `Outcome` for a `hasInstance` request, keyed by the constructor. |
| ClassDefinitions.ClassDefinition.HasPropertyCallback | Source/JavaScriptCore/API/java/src/main/java/com/appcelerator/javascriptcore/opaquetypes/JSClassDefinition.java:493-512 | The answer and memo of `Outcome` for a `hasProperty` request. |
| ClassDefinitions.ClassDefinition.CallAsConstructorCallback | Source/JavaScriptCore/API/java/src/main/java/com/appcelerator/javascriptcore/opaquetypes/JSClassDefinition.java:341-364 | The answer and memo of `Outcome` for a `callAsConstructor` request; throws when no class up the chain has the callback. |
| ClassDefinitions.ClassDefinition.Commit | Source/JavaScriptCore/API/java/src/main/java/com/appcelerator/javascriptcore/opaquetypes/JSClassDefinition.java:200-231 | The first call returns a fresh structure of the native size in which every field reads as the plan says, and sets `hasParent` exactly when a parent definition exists. Later calls return the same structure untouched. |
| ClassDefinitions.ClassDefinition.LinkParent | Source/JavaScriptCore/API/java/src/main/java/com/appcelerator/javascriptcore/opaquetypes/JSClassDefinition.java:226 | `hasParent` is set exactly when the parent class has a definition. |
| ClassDefinitions.ClassDefinition.GetStaticValues | Source/JavaScriptCore/API/java/src/main/java/com/appcelerator/javascriptcore/opaquetypes/JSClassDefinition.java:176-182 | `null` without a table. Otherwise, as the table's `commit`: a frozen table returns its buffer unchanged; a disposed, unfrozen one throws a NullPointerException unchanged; any other returns a fresh buffer with the image of its records and is frozen, its name list emptied and its values kept. |
| ClassDefinitions.ClassDefinition.GetStaticFunctions | Source/JavaScriptCore/API/java/src/main/java/com/appcelerator/javascriptcore/opaquetypes/JSClassDefinition.java:184-190 | `null` without a table. Otherwise, as the table's `commit`: a committed table returns its buffer unchanged; a disposed one throws a NullPointerException unchanged; any other returns a fresh buffer with the image of its records and keeps its names, functions and bindings. |
| ClassDefinitions.ClassDefinition.GetStaticFunctionCount | Source/JavaScriptCore/API/java/src/main/java/com/appcelerator/javascriptcore/opaquetypes/JSClassDefinition.java:192-198 | 0 without a table, otherwise the number of functions added; NullPointerException for a disposed table. |
| ClassDefinitions.ClassDefinition.RegisterStaticFunctionCallback | Source/JavaScriptCore/API/java/src/main/java/com/appcelerator/javascriptcore/opaquetypes/JSClassDefinition.java:233-237 | The table binds the native pointers for the object and the lists are unchanged. An already committed table keeps its buffer; an uncommitted one now holds the image of its records. A disposed table throws a NullPointerException and is unchanged. |
| ClassDefinitions.ClassDefinition.CallAsFunctionCallback | Source/JavaScriptCore/API/java/src/main/java/com/appcelerator/javascriptcore/opaquetypes/JSClassDefinition.java:311-322 | The result is `CallAsFunctionOutcome` over the chain's callbacks. |
| ClassDefinitions.ClassDefinition.SetStaticValueCallback | Source/JavaScriptCore/API/java/src/main/java/com/appcelerator/javascriptcore/opaquetypes/JSClassDefinition.java:514-528 | The result is `SetStaticOutcome` over the chain's static value tables. |
| ClassDefinitions.ClassDefinition.GetStaticValueCallback | Source/JavaScriptCore/API/java/src/main/java/com/appcelerator/javascriptcore/opaquetypes/JSClassDefinition.java:530-544 | The result is `GetStaticOutcome` over the chain's static value tables. |
| ClassDefinitions.ClassDefinition.StaticFunctionCallback | Source/JavaScriptCore/API/java/src/main/java/com/appcelerator/javascriptcore/opaquetypes/JSClassDefinition.java:324-339 | The result is `StaticFunctionOutcome` over the chain's tables once the object's pointers are registered. The tables change only by that registration, and their lists are kept. |
| ClassDefinitions.ClassDefinition.ConsultFunctions | Source/JavaScriptCore/API/java/src/main/java/com/appcelerator/javascriptcore/opaquetypes/JSClassDefinition.java:325-333 | Registers the object's pointers in the own table if it has none, then returns that table's answer for the function. |
| ClassDefinitions.ClassDefinition.InitializeCallback | Source/JavaScriptCore/API/java/src/main/java/com/appcelerator/javascriptcore/opaquetypes/JSClassDefinition.java:244-252 | The log grows by the chain's `initialize` events, root first. |
| ClassDefinitions.ClassDefinition.FinalizeCallback | Source/JavaScriptCore/API/java/src/main/java/com/appcelerator/javascriptcore/opaquetypes/JSClassDefinition.java:254-263 | The log grows by the `finalize` events of the walk, leaf first; the walk stops after the first class without `finalize`. The object is unbound from exactly the tables of the classes the walk visits (`FinalizedTables`); every other table keeps its bindings and every function list is kept. The call succeeds exactly when none of those tables is disposed, and the object is then also gone from the memo maps and both registries; otherwise it throws a NullPointerException. |
| ClassDefinitions.ClassDefinition.FinalizeOwn | Source/JavaScriptCore/API/java/src/main/java/com/appcelerator/javascriptcore/opaquetypes/JSClassDefinition.java:255-262 | A class with `finalize` logs its own event first, then the events of its parent's walk; the tables released and the result are those of the whole walk. |
| ClassDefinitions.ClassDefinition.FinalizeParent | Source/JavaScriptCore/API/java/src/main/java/com/appcelerator/javascriptcore/opaquetypes/JSClassDefinition.java:257-262 | After the own `finalize`: with a parent, the parent's walk and then the clearing; without one, the clearing alone. |
| ClassDefinitions.ClassDefinition.FinalizeChain | Source/JavaScriptCore/API/java/src/main/java/com/appcelerator/javascriptcore/opaquetypes/JSClassDefinition.java:257-262 | The parent's walk followed by the own clearing releases the object from the parent walk's tables and the own table together. |
| ClassDefinitions.ClassDefinition.ReleaseAfterParent | Source/JavaScriptCore/API/java/src/main/java/com/appcelerator/javascriptcore/opaquetypes/JSClassDefinition.java:257-262 | A parent walk that threw skips the clearing and its exception is the result; otherwise the clearing follows, and the two make one release over both sets of tables. |
| ClassDefinitions.ClassDefinition.ReleaseObject | Source/JavaScriptCore/API/java/src/main/java/com/appcelerator/javascriptcore/opaquetypes/JSClassDefinition.java:261-262 | `clearPrototypeChain` then `clearStaticFunctions`: of all the tables only the class's own can change, and the function lists are kept. It succeeds exactly when that table is not disposed (or there is none), and the object is then gone from the memo maps and both registries. |
| ClassDefinitions.ClassDefinition.ClearOwnTable | Source/JavaScriptCore/API/java/src/main/java/com/appcelerator/javascriptcore/opaquetypes/JSClassDefinition.java:238-242 | `clearStaticFunctions` seen across all the tables: only the own table loses the object, and it throws a NullPointerException exactly when that table is disposed. |
| ClassDefinitions.ClassDefinition.ClearStaticFunctions | Source/JavaScriptCore/API/java/src/main/java/com/appcelerator/javascriptcore/opaquetypes/JSClassDefinition.java:238-242 | Unbinds the object from the class's table; NullPointerException for a disposed table; nothing without a table. |
| ClassDefinitions.ClassDefinition.Copy | Source/JavaScriptCore/API/java/src/main/java/com/appcelerator/javascriptcore/opaquetypes/JSClassDefinition.java:546-566 | A fresh definition with every public field copied; the committed structure, the parent flag and both switches start afresh. |
| ClassDefinitions.ClassDefinition.EnableConstructor | Source/JavaScriptCore/API/java/src/main/java/com/appcelerator/javascriptcore/opaquetypes/JSClassDefinition.java:568-570 | Sets whether `commit` writes the `callAsConstructor` slot without a callback. |
| ClassDefinitions.ClassDefinition.SetCallAsConstructor | Source/JavaScriptCore/API/java/src/main/java/com/appcelerator/javascriptcore/JavaScriptCoreLibrary.java:468 | Assigns the `callAsConstructor` field and nothing else. |
| ClassDefinitions.ClassDefinition.EnableFinalize | Source/JavaScriptCore/API/java/src/main/java/com/appcelerator/javascriptcore/opaquetypes/JSClassDefinition.java:572-574 | Sets whether `commit` writes the `finalize` slot. |
| ClassDefinitions.ClassDefinition.Dispose | Source/JavaScriptCore/API/java/src/main/java/com/appcelerator/javascriptcore/opaquetypes/JSClassDefinition.java:576-618 | Drops the structure, and disposes and drops both tables: each is left valid with no buffer and no lists, the value table frozen as before. Empties every memo map and both registries, clears the parent class and every callback, and resets the switches. |
| ClassDefinitions.ClassDefinition.DisposeTables | Source/JavaScriptCore/API/java/src/main/java/com/appcelerator/javascriptcore/opaquetypes/JSClassDefinition.java:577-588 | The structure and both tables are dropped. Each table is disposed: left valid with no buffer, map, bindings or lists, the value table frozen as before. |
| ClassDefinitions.ClassDefinition.Detach | Source/JavaScriptCore/API/java/src/main/java/com/appcelerator/javascriptcore/opaquetypes/JSClassDefinition.java:602-615 | The parent class is cleared and `hasParent` reset. |
| ClassDefinitions.ClassDefinition.ResetCallbacks | Source/JavaScriptCore/API/java/src/main/java/com/appcelerator/javascriptcore/opaquetypes/JSClassDefinition.java:603-617 | Every callback field is cleared and both switches are reset. |
| ClassDefinitions.OutcomeForwards | Source/JavaScriptCore/API/java/src/main/java/com/appcelerator/javascriptcore/opaquetypes/JSClassDefinition.java:276-280 | A class that does not settle a request and has a parent pins the memo to the parent; an unanswered request then starts again, a declined one is declined. |
| ClassDefinitions.DisposedDeclines | Source/JavaScriptCore/API/java/src/main/java/com/appcelerator/javascriptcore/opaquetypes/JSClassDefinition.java:576-618 | A disposed definition reached with no memo entry declines every request and adds no entry. |
| ClassDefinitions.OutcomeShape | Source/JavaScriptCore/API/java/src/main/java/com/appcelerator/javascriptcore/opaquetypes/JSClassDefinition.java:265-512 | A chained callback's answer has the form its Java signature allows. |
| ClassDefinitions.OutcomeKeepsOthers | Source/JavaScriptCore/API/java/src/main/java/com/appcelerator/javascriptcore/opaquetypes/JSClassDefinition.java:265-512 | A chained callback changes only its own memo entry for its own object. |
| ClassDefinitions.CommitPlan | Source/JavaScriptCore/API/java/src/main/java/com/appcelerator/javascriptcore/opaquetypes/JSClassDefinition.java:204-205 | Whatever the plan writes into the two `int` fields (version and attributes) fits in an `int`, as `putInt` requires. |
| ClassDefinitions.WriteDefinition | Source/JavaScriptCore/API/java/src/main/java/com/appcelerator/javascriptcore/opaquetypes/JSClassDefinition.java:200-224 | On a fresh zero-filled structure, the writes of `commit` in source order leave every field reading as planned. |
| ClassDefinitions.WriteSlot | Source/JavaScriptCore/API/java/src/main/java/com/appcelerator/javascriptcore/opaquetypes/JSClassDefinition.java:207-217 | One write of `commit`, made exactly when the plan has the slot, extends the image by that write. |
| ClassDefinitions.CommitReads | Source/JavaScriptCore/API/java/src/main/java/com/appcelerator/javascriptcore/opaquetypes/JSClassDefinition.java:200-224 | After all the writes of `commit`, every field reads as planned: planned fields their value, the others 0. |
| ClassDefinitions.CommitOrderCovers | Source/JavaScriptCore/API/java/src/main/java/com/appcelerator/javascriptcore/opaquetypes/JSClassDefinition.java:200-224 | `commit` writes every field except the class name and the two table pointers. |
| ClassDefinitions.CommitPlanHeader | Source/JavaScriptCore/API/java/src/main/java/com/appcelerator/javascriptcore/opaquetypes/JSClassDefinition.java:204-207 | The version and attributes are always written, the parent handle exactly when there is a parent class, and the class name and table pointers never. |
| ClassDefinitions.CommitPlanTrampolines | Source/JavaScriptCore/API/java/src/main/java/com/appcelerator/javascriptcore/opaquetypes/JSClassDefinition.java:208-224 | Every callback slot that is written gets the address the native template holds there. |
| ClassDefinitions.CommitPlanProperties | Source/JavaScriptCore/API/java/src/main/java/com/appcelerator/javascriptcore/opaquetypes/JSClassDefinition.java:209-213 | A property callback slot is written exactly when that callback is set. |
| ClassDefinitions.CommitPlanCalls | Source/JavaScriptCore/API/java/src/main/java/com/appcelerator/javascriptcore/opaquetypes/JSClassDefinition.java:214-217 | The call slots are written exactly when their callbacks are set, `callAsConstructor` also when it is forced on. |
| ClassDefinitions.CommitPlanLifecycle | Source/JavaScriptCore/API/java/src/main/java/com/appcelerator/javascriptcore/opaquetypes/JSClassDefinition.java:208-224 | `initialize` is written exactly when set, `finalize` exactly when finalization is on. |
| ClassDefinitions.CommitPlanChained | Source/JavaScriptCore/API/java/src/main/java/com/appcelerator/javascriptcore/opaquetypes/JSClassDefinition.java:208-224 | The engine finds a trampoline in a chained request's slot exactly when the Java class answers it locally, or when `callAsConstructor` is forced. |
| ClassDefinitions.ForgetObject | Source/JavaScriptCore/API/java/src/main/java/com/appcelerator/javascriptcore/opaquetypes/JSClassDefinition.java:662-673 | After `clearPrototypeChain`, no memo map holds the object, entries of other objects are kept, and clearing again changes nothing. |
| ClassDefinitions.AllRegisteredTwice | Source/JavaScriptCore/API/java/src/main/java/com/appcelerator/javascriptcore/opaquetypes/JSClassDefinition.java:324-339 | Two static function calls for the same object change the tables as one may. |
| ClassDefinitions.ReleasedTwice | Source/JavaScriptCore/API/java/src/main/java/com/appcelerator/javascriptcore/opaquetypes/JSClassDefinition.java:254-263 | A successful release over `ts1` followed by a release over `ts2` is one release over `ts1 + ts2`, with the second's result; unbinding an object twice leaves what unbinding it once leaves. |
| ClassDefinitions.ReleasedFailed | Source/JavaScriptCore/API/java/src/main/java/com/appcelerator/javascriptcore/opaquetypes/JSClassDefinition.java:257-262 | A walk that threw never reached the tables after it: those are unchanged, so it is a failed release over them as well. |
| ClassDefinitions.FinalizedTables | Source/JavaScriptCore/API/java/src/main/java/com/appcelerator/javascriptcore/opaquetypes/JSClassDefinition.java:254-263 | The own table, plus the tables of the parent's walk exactly when the class has `finalize` and a parent; all of them are tables of the definitions. |
| ClassDefinitions.FinalizeKeepsParentBinding | Source/JavaScriptCore/API/java/src/main/java/com/appcelerator/javascriptcore/opaquetypes/JSClassDefinition.java:254-263 | When the parent has a table of its own, a class without `finalize` leaves the parent's binding of the finalized object in place, while a successful walk from a class with `finalize` removes it. |
| ClassDefinitions.Unbind | Source/JavaScriptCore/API/java/src/main/java/com/appcelerator/javascriptcore/opaquetypes/JSStaticFunctions.java:114-116 | The same tables; a table outside `ts` keeps its bindings, and each table either keeps them or loses the object's. |
| ClassDefinitions.UnbindTwice | Source/JavaScriptCore/API/java/src/main/java/com/appcelerator/javascriptcore/opaquetypes/JSStaticFunctions.java:114-116 | Removing an object over `ts1` then over `ts2` is removing it over their union. |
| ClassDefinitions.ReleasedOne | Source/JavaScriptCore/API/java/src/main/java/com/appcelerator/javascriptcore/opaquetypes/JSStaticFunctions.java:114-116 | `removeObject` on one table: a live table unbinds the object and succeeds; a disposed one throws a NullPointerException and is unchanged. |
| ClassDefinitions.ReleasedNowhere | Source/JavaScriptCore/API/java/src/main/java/com/appcelerator/javascriptcore/opaquetypes/JSClassDefinition.java:238-242 | A class without a static function table releases the object from no table, successfully. |
| ClassDefinitions.UnbindLive | Source/JavaScriptCore/API/java/src/main/java/com/appcelerator/javascriptcore/opaquetypes/JSStaticFunctions.java:114-116 | Unbinding an object disposes no table and revives none. |
| Library.ObjectMake | Source/JavaScriptCore/API/java/src/main/java/com/appcelerator/javascriptcore/JavaScriptCoreLibrary.java:434-449 | Without a class the engine is asked for a plain object with class handle 0 and no definition; otherwise for an object with the class's handle and definition. |
| Library.DefaultConstructor | Source/JavaScriptCore/API/java/src/main/java/com/appcelerator/javascriptcore/JavaScriptCoreLibrary.java:460-467 | The default constructor makes what `JSObjectMake` makes for the class with the copy as the definition, whatever its arguments. |
| Library.ClassCreate | Source/JavaScriptCore/API/java/src/main/java/com/appcelerator/javascriptcore/JavaScriptCoreLibrary.java:285-287 | A definition committed earlier keeps its structure and `hasParent`; a first commit reads back as the plan, with `hasParent` set from the parent class. The value table, then (only if that did not throw) the function table, is committed as `getStaticValues`/`getStaticFunctions` state. Creation succeeds exactly when neither table throws: the value table throws only when disposed before its first commit, the function table whenever it is disposed, giving the definition with the engine's handle, and throws a NullPointerException otherwise. |
| Library.CommitTables | Source/JavaScriptCore/API/java/src/main/java/com/appcelerator/javascriptcore/JavaScriptCoreLibrary.java:282 | The value table is committed as `getStaticValues` states. The function table is committed as `getStaticFunctions` states, unless the value table threw, which leaves it unchanged. Succeeds exactly when neither table throws: the value table throws only when disposed before its first commit, the function table whenever it is disposed. |
| Library.GlobalClassCreate | Source/JavaScriptCore/API/java/src/main/java/com/appcelerator/javascriptcore/JavaScriptCoreLibrary.java:280-283 | Finalization is switched off, then the definition goes through `JSClassCreate`. A definition committed earlier keeps its structure unchanged, `finalize` slot included. A first commit gets the full plan image, with a zero `finalize` slot, and `hasParent` set from the parent class. The tables are committed as `getStaticValues`/`getStaticFunctions` state, in argument order. Creation succeeds exactly when neither table throws: the value table throws only when disposed before its first commit, the function table whenever it is disposed, and throws a NullPointerException otherwise. |
| Library.MakeConstructor | Source/JavaScriptCore/API/java/src/main/java/com/appcelerator/javascriptcore/JavaScriptCoreLibrary.java:454-473 | A class without a definition throws a NullPointerException. Without a class, the callback (`null` included) is registered for the constructor. With a class, the copy is committed with `callAsConstructor` forced and gets the host's or the default callback, which is registered. |
| Library.ConstructorCopy | Source/JavaScriptCore/API/java/src/main/java/com/appcelerator/javascriptcore/JavaScriptCoreLibrary.java:456-468 | The copy carries the original's callbacks with `callAsConstructor` replaced by the host's or the default one, and its structure reads as the original's plan with `callAsConstructor` forced on. |
| Library.MakeFunctionWithCallback | Source/JavaScriptCore/API/java/src/main/java/com/appcelerator/javascriptcore/JavaScriptCoreLibrary.java:478-483 | The callback, `null` included, is registered for the function the engine returns, replacing any earlier one. |

## Left out

- Native calls are not modelled; each becomes a parameter. These are the templates fetched by `NativeGetClassDefinitionTemplate` and the two table templates, the class handle from `NativeJSClassCreate`, the object and constructor addresses from `NativeJSObjectMake`, `NativeJSObjectMakeConstructor` and `NativeJSObjectMakeFunctionWithCallback`, the name copies from `NativeAllocateCharacterBuffer`, and the function pointers from `NativeGetStaticFunctions`. `NativeReleasePointers` is not modelled.
- The `JSContextRef` and the `exception` out-parameter that every callback receives are dropped. Host callbacks are pure functions of the remaining arguments, so a host callback that throws, or that writes the exception pointer, is not modelled.
- Host callbacks that re-enter the binding are not modelled, for example a callback that disposes a definition in the middle of a walk.
- Concurrency is not modelled. The static memo maps and registries are shared by all threads without locks, and the model is single-threaded.
- The capacities of `LongSparseArray` and `HashMap` (`numberOfPrototypeHierarchy`, `numberOfJSObjectBuckets`) are not modelled. They affect performance only.
- The byte order is little-endian, the native order of every platform the binding targets. A big-endian host is not modelled.
- `className` is not written into the native structure by `commit`, and the model does not carry it beyond the definition's field.
- `JSStaticValues` and `JSStaticFunctions` keep their native template in a process-wide static field. In the model, each table holds the trampoline addresses read from it. `dispose` of one table resetting the shared template for the others has no effect on those addresses.
- Finalization is modelled as written: the walk goes up to a parent only from a class with `finalize`, so a class without `finalize` leaves the finalized object bound in its ancestors' static function tables (`ClassDefinitions.FinalizeKeepsParentBinding` states this). No variant that clears the whole chain is modelled.
- `Pointer.update` is a native call and is not modelled. `toString` of every class is not modelled.
- `JSObjectMake` with private data (the `object` argument) is modelled without the data, which only the engine sees. `JSObjectMakeWithDefinition` is folded into `ObjectMake`.
- `JSClassCreate` with a `null` definition, and the other entry points called with `null` where the source dereferences it without a check, are excluded by the parameter types.
- `JSValueArrayRef.EMPTY` is one shared object in Java. Here, `ValueArrays.ValueArray.Empty` builds an object marked as that shared array, and `Dispose` leaves it alone.
- `JSClassDefinition.getDefinition()` of a parent class: the parent's definition is taken as fixed once the child is created. A parent's definition must therefore exist before its child, which the ghost creation rank records.
- `ClassDefinitions.ClassDefinition.Resolve`, and the chained callbacks built on it, are specified against `Outcome`, a function of the definitions and the memo. Their effect on the engine over a whole lookup is stated separately, in `ChainEngine`. The engine's choice to call the trampoline once per class with the callback is taken from the JavaScriptCore C API, not from this repository.
- `StaticValueTables.StaticValueTable.Commit` and `StaticFunctionTables.StaticFunctionTable.Commit` require the table's byte size `CHUNK * (size + 1)` to stay below 2^31. The `int` overflow of that product for larger tables is not modelled.

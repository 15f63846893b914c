/**
 * `JSStaticValues`: the statically declared value properties of a class.
 * Entries are added until the first `commit`, which serialises them into a
 * native array of `JSStaticValue` records (name, getter, setter,
 * attributes) closed by an all-zero record, and freezes the table.
 */
module StaticValueTables {
  import opened Base
  import opened NativeBuffer
  import opened RecordTables
  import opened Callbacks
  import opened PropertyAttributes

  /** One declared value: its callbacks and its attribute bits. */
  datatype StaticValue = StaticValue(getter: Option<GetPropertyHook>, setter: Option<SetPropertyHook>, attributes: Int32)

  /** The native record for one name: its address, the trampolines of the callbacks it has, its attributes. */
  function ValueRecord(v: StaticValue, address: Long, getterTrampoline: Long, setterTrampoline: Long): (r: Record)
    ensures |r.words| == 3
  {
    Record([address,
            if v.getter.None? then 0 else getterTrampoline,
            if v.setter.None? then 0 else setterTrampoline],
           v.attributes)
  }

  /** The records of the names in the order they were added, each described by the latest entry for its name. */
  function ValueRecords(names: seq<string>, values: map<string, StaticValue>, addresses: seq<Long>,
                        getterTrampoline: Long, setterTrampoline: Long): (r: seq<Record>)
    requires |addresses| == |names| && forall i :: 0 <= i < |names| ==> names[i] in values
    ensures |r| == |names|
    ensures forall i :: 0 <= i < |r| ==> |r[i].words| == 3
  {
    seq(|names|, i requires 0 <= i < |names| =>
      ValueRecord(values[names[i]], addresses[i], getterTrampoline, setterTrampoline))
  }

  class StaticValueTable {
    const platform: Platform
    /** The getter trampoline address, read from the native template at one pointer width. */
    const getterTrampoline: Long
    /** The setter trampoline address, read from the native template at two pointer widths. */
    const setterTrampoline: Long

    var buffer: array?<Byte>
    var frozen: bool
    /** The name-to-entry map; `None` once disposed. */
    var values: Option<map<string, StaticValue>>
    /** Every name added, in order, repeats included; `None` once disposed. */
    var namesCache: Option<seq<string>>

    ghost predicate Valid()
      reads this
    {
      && platform.Valid()
      && Retained(getterTrampoline, platform.long) == getterTrampoline
      && Retained(setterTrampoline, platform.long) == setterTrampoline
      && (values.None? <==> namesCache.None?)
      && (namesCache.Some? ==> forall i :: 0 <= i < |namesCache.value| ==> namesCache.value[i] in values.value)
      && (buffer != null ==> frozen)
    }

    /** `new JSStaticValues()`: the trampolines are taken from the native `JSStaticValue` template. */
    constructor (platform: Platform, template: seq<Byte>)
      requires platform.Valid() && |template| == platform.staticValueSize
      ensures Valid()
      ensures getterTrampoline == GetLong(template, platform.long, platform.long)
      ensures setterTrampoline == GetLong(template, 2 * platform.long, platform.long)
      ensures buffer == null && !frozen && values == Some(map[]) && namesCache == Some([])
    {
      var w := platform.long;
      var long: int := platform.long;
      RetainedRead(template, long, w);
      RetainedRead(template, 2 * long, w);
      this.platform := platform;
      getterTrampoline := GetLong(template, long, w);
      setterTrampoline := GetLong(template, 2 * long, w);
      buffer := null;
      frozen := false;
      values := Some(map[]);
      namesCache := Some([]);
    }

    /**
     * `add`: refused once committed; otherwise the entry for `name` is
     * replaced and the name appended to the list of names again.
     */
    method Add(name: string, getter: Option<GetPropertyHook>, setter: Option<SetPropertyHook>, attrs: PropertyAttribute)
      returns (r: Result<()>)
      requires Valid()
      modifies this
      ensures Valid()
      ensures old(frozen) ==> r == Failure(JavaScriptException("No changes can be done after commit()")) && unchanged(this)
      ensures !old(frozen) && old(values).None? ==> r == Failure(NullPointer) && unchanged(this)
      ensures !old(frozen) && old(values).Some? ==>
        && r == Success(())
        && values == Some(old(values).value[name := StaticValue(getter, setter, attrs.GetValue())])
        && namesCache == Some(old(namesCache).value + [name])
        && buffer == old(buffer) && frozen == old(frozen)
    {
      if frozen {
        return Failure(JavaScriptException("No changes can be done after commit()"));
      }
      if values.None? {
        return Failure(NullPointer);
      }
      values := Some(values.value[name := StaticValue(getter, setter, attrs.GetValue())]);
      namesCache := Some(namesCache.value + [name]);
      r := Success(());
    }

    /** `containsGetter`: whether `name` was ever added, whatever its getter. */
    function ContainsGetter(name: string): (r: Result<bool>)
      reads this
      ensures r.Success? <==> values.Some?
      ensures r.Success? ==> (r.value <==> name in values.value)
    {
      if values.None? then Failure(NullPointer) else Success(name in values.value)
    }

    /** `containsSetter`: the same test as `containsGetter`. */
    function ContainsSetter(name: string): (r: Result<bool>)
      reads this
      ensures r == ContainsGetter(name)
    {
      if values.None? then Failure(NullPointer) else Success(name in values.value)
    }

    /** `getGetPropertyCallback`: the getter of the latest entry for `name`; a missing name dereferences `null`. */
    function GetGetPropertyCallback(name: string): (r: Result<Option<GetPropertyHook>>)
      reads this
      ensures r.Success? <==> ContainsGetter(name) == Success(true)
    {
      if values.None? || name !in values.value then Failure(NullPointer) else Success(values.value[name].getter)
    }

    /** `getSetPropertyCallback`: the setter of the latest entry for `name`; a missing name dereferences `null`. */
    function GetSetPropertyCallback(name: string): (r: Result<Option<SetPropertyHook>>)
      reads this
      ensures r.Success? <==> ContainsSetter(name) == Success(true)
    {
      if values.None? || name !in values.value then Failure(NullPointer) else Success(values.value[name].setter)
    }

    /** The records `commit` writes for the names added so far. */
    ghost function PendingRecords(addresses: seq<Long>): (r: seq<Record>)
      reads this
      requires Valid() && namesCache.Some? && |addresses| == |namesCache.value|
      ensures Shaped(r, 3, platform.staticValueSize, platform.long)
    {
      StrideIsProduct(3, platform.long);
      ValueRecords(namesCache.value, values.value, addresses, getterTrampoline, setterTrampoline)
    }

    /**
     * `commit`: the first call allocates `CHUNK * (n + 1)` bytes for the
     * `n` names added, writes one record per name and the closing record,
     * freezes the table and empties the list of names; every later call
     * returns the same buffer untouched. `addresses` are the native copies
     * of the names, one per name.
     */
    method Commit(addresses: seq<Long>) returns (r: Result<array?<Byte>>)
      requires Valid()
      requires !frozen && namesCache.Some? ==>
        && |addresses| == |namesCache.value|
        && TableSize(|namesCache.value|, platform.staticValueSize) < 0x8000_0000
      modifies this
      ensures Valid()
      ensures old(frozen) ==> r == Success(buffer) && unchanged(this)
      ensures !old(frozen) && old(namesCache).None? ==> r == Failure(NullPointer) && unchanged(this)
      ensures !old(frozen) && old(namesCache).Some? ==>
        && r == Success(buffer) && buffer != null && fresh(buffer)
        && buffer[..] == Image(old(PendingRecords(addresses)), 3, platform.staticValueSize, platform.long)
        && frozen && namesCache == Some([]) && values == old(values)
    {
      if frozen {
        return Success(buffer);
      }
      if namesCache.None? {
        return Failure(NullPointer);
      }
      var b := Serialize(addresses);
      buffer := b;
      frozen := true;
      namesCache := Some([]);
      r := Success(buffer);
    }

    /** The buffer once the first `k` records of the table (the sentinel being record `n`) are written. */
    ghost function Partial(addresses: seq<Long>, k: nat): (r: seq<Byte>)
      reads this
      requires Valid() && namesCache.Some? && |addresses| == |namesCache.value| && k <= |namesCache.value| + 1
      ensures |r| == TableSize(|namesCache.value|, platform.staticValueSize)
    {
      var records := PendingRecords(addresses);
      Spliced(Zeros(TableSize(|records|, platform.staticValueSize)), Blocks(records, 3, platform.long),
              RecordSize(3, platform.long), platform.staticValueSize, k)
    }

    /** The allocation and the record writes of `commit`, on a buffer nothing else refers to yet. */
    method Serialize(addresses: seq<Long>) returns (b: array<Byte>)
      requires Valid() && namesCache.Some? && |addresses| == |namesCache.value|
      requires TableSize(|namesCache.value|, platform.staticValueSize) < 0x8000_0000
      ensures fresh(b)
      ensures b[..] == Image(PendingRecords(addresses), 3, platform.staticValueSize, platform.long)
    {
      var size := |namesCache.value|;
      b := Allocate(size, platform.staticValueSize);
      UpdateAll(b, addresses);
      UpdateLast(b, size, addresses);
    }

    /** The loop of `commit`: one `update` per name added, in order. */
    method UpdateAll(b: array<Byte>, addresses: seq<Long>)
      requires Valid() && namesCache.Some? && |addresses| == |namesCache.value|
      requires b[..] == Partial(addresses, 0)
      modifies b
      ensures b[..] == Partial(addresses, |namesCache.value|)
    {
      var i := 0;
      while i < |namesCache.value|
        invariant 0 <= i <= |namesCache.value|
        invariant b[..] == Partial(addresses, i)
      {
        StrideIsProduct(i, platform.staticValueSize);
        Update(b, namesCache.value[i], i * platform.staticValueSize, addresses[i], i, addresses);
        i := i + 1;
      }
    }

    /** `update`: writes the record of `name`, the `index`-th name added, at byte `bindex`, its place in the table. */
    method Update(b: array<Byte>, name: string, bindex: nat, address: Long, ghost index: nat, ghost addresses: seq<Long>)
      requires Valid() && namesCache.Some? && |addresses| == |namesCache.value| && index < |namesCache.value|
      requires name == namesCache.value[index] && bindex == Stride(index, platform.staticValueSize)
      requires address == addresses[index]
      requires b[..] == Partial(addresses, index)
      modifies b
      ensures b[..] == Partial(addresses, index + 1)
    {
      ValueStep(namesCache.value, values.value, addresses, getterTrampoline, setterTrampoline,
                platform.staticValueSize, platform.long, index);
      var v := values.value[name];
      var getter := if v.getter.None? then 0 else getterTrampoline;
      var setter := if v.setter.None? then 0 else setterTrampoline;
      WriteThreeWordRecord(b, bindex, Record([address, getter, setter], v.attributes), platform.long);
    }

    /** `updateLast`: writes the closing all-zero record after the `last` records. */
    method UpdateLast(b: array<Byte>, last: nat, ghost addresses: seq<Long>)
      requires Valid() && namesCache.Some? && |addresses| == |namesCache.value| && last == |namesCache.value|
      requires b[..] == Partial(addresses, last)
      modifies b
      ensures b[..] == Image(PendingRecords(addresses), 3, platform.staticValueSize, platform.long)
    {
      ValueStep(namesCache.value, values.value, addresses, getterTrampoline, setterTrampoline,
                platform.staticValueSize, platform.long, last);
      var index := platform.staticValueSize * last;
      WriteThreeWordRecord(b, index, Sentinel(3), platform.long);
    }

    /** `dispose`: drops the buffer and both collections; the table stays frozen if it was. */
    method Dispose()
      requires Valid()
      modifies this
      ensures Valid()
      ensures buffer == null && values.None? && namesCache.None? && frozen == old(frozen)
    {
      buffer := null;
      namesCache := None;
      values := None;
    }
  }

  /** The bytes committed for name `i`. */
  lemma ValueBlock(names: seq<string>, values: map<string, StaticValue>, addresses: seq<Long>,
                   getterTrampoline: Long, setterTrampoline: Long, w: Width, i: nat)
    requires |addresses| == |names| && (forall j :: 0 <= j < |names| ==> names[j] in values) && i <= |names|
    ensures var records := ValueRecords(names, values, addresses, getterTrampoline, setterTrampoline);
      Blocks(records, 3, w)[i]
      == RecordBytes(if i < |names| then ValueRecord(values[names[i]], addresses[i], getterTrampoline, setterTrampoline)
                     else Sentinel(3), w)
  {
  }

  /** Writing record `i` (the sentinel when `i` is the count) advances the partial image by one chunk. */
  lemma ValueStep(names: seq<string>, values: map<string, StaticValue>, addresses: seq<Long>,
                  getterTrampoline: Long, setterTrampoline: Long, chunk: nat, w: Width, i: nat)
    requires |addresses| == |names| && (forall j :: 0 <= j < |names| ==> names[j] in values) && i <= |names|
    requires RecordSize(3, w) <= chunk
    ensures Stride(i, chunk) == i * chunk && i * chunk + chunk <= TableSize(|names|, chunk)
    ensures var records := ValueRecords(names, values, addresses, getterTrampoline, setterTrampoline);
      Spliced(Zeros(TableSize(|names|, chunk)), Blocks(records, 3, w), RecordSize(3, w), chunk, i + 1)
      == Splice(Spliced(Zeros(TableSize(|names|, chunk)), Blocks(records, 3, w), RecordSize(3, w), chunk, i),
                i * chunk,
                RecordBytes(if i < |names| then ValueRecord(values[names[i]], addresses[i], getterTrampoline, setterTrampoline)
                            else Sentinel(3), w))
  {
    var records := ValueRecords(names, values, addresses, getterTrampoline, setterTrampoline);
    StrideIsProduct(i, chunk);
    ChunkFits(i, |names|, chunk);
    SplicedStep(Zeros(TableSize(|names|, chunk)), Blocks(records, 3, w), RecordSize(3, w), chunk, i);
    ValueBlock(names, values, addresses, getterTrampoline, setterTrampoline, w, i);
  }

  /** What the records of a committed table are built from. */
  predicate Committable(names: seq<string>, values: map<string, StaticValue>, addresses: seq<Long>,
                        getterTrampoline: Long, setterTrampoline: Long, chunk: nat, w: Width)
  {
    && |addresses| == |names| && (forall j :: 0 <= j < |names| ==> names[j] in values)
    && RecordSize(3, w) <= chunk
    && Retained(getterTrampoline, w) == getterTrampoline && Retained(setterTrampoline, w) == setterTrampoline
  }

  /** The committed table of `names`. */
  function Committed(names: seq<string>, values: map<string, StaticValue>, addresses: seq<Long>,
                     getterTrampoline: Long, setterTrampoline: Long, chunk: nat, w: Width): (r: seq<Byte>)
    requires Committable(names, values, addresses, getterTrampoline, setterTrampoline, chunk, w)
    ensures |r| == TableSize(|names|, chunk)
  {
    Image(ValueRecords(names, values, addresses, getterTrampoline, setterTrampoline), 3, chunk, w)
  }

  /** Word `k` of record `i` of a committed table, `i` at most the number of names. */
  lemma CommittedWord(names: seq<string>, values: map<string, StaticValue>, addresses: seq<Long>,
                      getterTrampoline: Long, setterTrampoline: Long, chunk: nat, w: Width, i: nat, k: nat)
    requires Committable(names, values, addresses, getterTrampoline, setterTrampoline, chunk, w)
    requires i <= |names| && k < 3
    ensures var image := Committed(names, values, addresses, getterTrampoline, setterTrampoline, chunk, w);
      && SlotFits(image, Stride(i, chunk) + Stride(k, w), w)
      && GetLong(image, Stride(i, chunk) + Stride(k, w), w)
         == if i < |names|
            then Retained(ValueRecord(values[names[i]], addresses[i], getterTrampoline, setterTrampoline).words[k], w)
            else 0
  {
    var records := ValueRecords(names, values, addresses, getterTrampoline, setterTrampoline);
    ImageWord(records, 3, chunk, w, i, k);
    if i < |names| {
      assert records[i] == ValueRecord(values[names[i]], addresses[i], getterTrampoline, setterTrampoline);
    }
  }

  /** Record `i` of a committed table holds the address of the `i`-th name added; the closing record a zero. */
  lemma CommittedName(names: seq<string>, values: map<string, StaticValue>, addresses: seq<Long>,
                      getterTrampoline: Long, setterTrampoline: Long, chunk: nat, w: Width, i: nat)
    requires Committable(names, values, addresses, getterTrampoline, setterTrampoline, chunk, w)
    requires i <= |names|
    ensures var image := Committed(names, values, addresses, getterTrampoline, setterTrampoline, chunk, w);
      && SlotFits(image, Stride(i, chunk), w)
      && GetLong(image, Stride(i, chunk), w) == if i < |names| then Retained(addresses[i], w) else 0
  {
    StrideIsProduct(0, w);
    assert Stride(i, chunk) + Stride(0, w) == Stride(i, chunk);
    CommittedWord(names, values, addresses, getterTrampoline, setterTrampoline, chunk, w, i, 0);
  }

  /**
   * Record `i` of a committed table holds the getter trampoline exactly when
   * the latest entry for its name has a getter, and 0 otherwise; the closing
   * record a zero.
   */
  lemma CommittedGetter(names: seq<string>, values: map<string, StaticValue>, addresses: seq<Long>,
                        getterTrampoline: Long, setterTrampoline: Long, chunk: nat, w: Width, i: nat)
    requires Committable(names, values, addresses, getterTrampoline, setterTrampoline, chunk, w)
    requires i <= |names|
    ensures var image := Committed(names, values, addresses, getterTrampoline, setterTrampoline, chunk, w);
      && SlotFits(image, Stride(i, chunk) + w, w)
      && GetLong(image, Stride(i, chunk) + w, w)
         == if i < |names| && values[names[i]].getter.Some? then getterTrampoline else 0
  {
    StrideIsProduct(1, w);
    assert Stride(i, chunk) + Stride(1, w) == Stride(i, chunk) + w;
    CommittedWord(names, values, addresses, getterTrampoline, setterTrampoline, chunk, w, i, 1);
    if i < |names| {
      var word := ValueRecord(values[names[i]], addresses[i], getterTrampoline, setterTrampoline).words[1];
      assert word == if values[names[i]].getter.Some? then getterTrampoline else 0;
      assert Retained(word, w) == word;
    }
  }

  /**
   * Record `i` of a committed table holds the setter trampoline exactly when
   * the latest entry for its name has a setter, and 0 otherwise; the closing
   * record a zero.
   */
  lemma CommittedSetter(names: seq<string>, values: map<string, StaticValue>, addresses: seq<Long>,
                        getterTrampoline: Long, setterTrampoline: Long, chunk: nat, w: Width, i: nat)
    requires Committable(names, values, addresses, getterTrampoline, setterTrampoline, chunk, w)
    requires i <= |names|
    ensures var image := Committed(names, values, addresses, getterTrampoline, setterTrampoline, chunk, w);
      && SlotFits(image, Stride(i, chunk) + 2 * w, w)
      && GetLong(image, Stride(i, chunk) + 2 * w, w)
         == if i < |names| && values[names[i]].setter.Some? then setterTrampoline else 0
  {
    StrideIsProduct(2, w);
    assert Stride(i, chunk) + Stride(2, w) == Stride(i, chunk) + 2 * w;
    CommittedWord(names, values, addresses, getterTrampoline, setterTrampoline, chunk, w, i, 2);
    if i < |names| {
      var word := ValueRecord(values[names[i]], addresses[i], getterTrampoline, setterTrampoline).words[2];
      assert word == if values[names[i]].setter.Some? then setterTrampoline else 0;
      assert Retained(word, w) == word;
    }
  }

  /** Record `i` of a committed table holds the attributes of the latest entry for its name; the closing record a zero. */
  lemma CommittedAttributes(names: seq<string>, values: map<string, StaticValue>, addresses: seq<Long>,
                            getterTrampoline: Long, setterTrampoline: Long, chunk: nat, w: Width, i: nat)
    requires Committable(names, values, addresses, getterTrampoline, setterTrampoline, chunk, w)
    requires i <= |names|
    ensures var image := Committed(names, values, addresses, getterTrampoline, setterTrampoline, chunk, w);
      && SlotFits(image, Stride(i, chunk) + 3 * w, 4)
      && GetInt(image, Stride(i, chunk) + 3 * w) == if i < |names| then values[names[i]].attributes else 0
  {
    StrideIsProduct(3, w);
    assert Stride(i, chunk) + Stride(3, w) == Stride(i, chunk) + 3 * w;
    CommittedAttributeWord(names, values, addresses, getterTrampoline, setterTrampoline, chunk, w, i);
  }

  /** The attributes field of record `i` of a committed table, after its three words. */
  lemma CommittedAttributeWord(names: seq<string>, values: map<string, StaticValue>, addresses: seq<Long>,
                               getterTrampoline: Long, setterTrampoline: Long, chunk: nat, w: Width, i: nat)
    requires Committable(names, values, addresses, getterTrampoline, setterTrampoline, chunk, w)
    requires i <= |names|
    ensures var image := Committed(names, values, addresses, getterTrampoline, setterTrampoline, chunk, w);
      && SlotFits(image, Stride(i, chunk) + Stride(3, w), 4)
      && GetInt(image, Stride(i, chunk) + Stride(3, w))
         == if i < |names| then ValueRecord(values[names[i]], addresses[i], getterTrampoline, setterTrampoline).attributes else 0
  {
    var records := ValueRecords(names, values, addresses, getterTrampoline, setterTrampoline);
    ImageAttributes(records, 3, chunk, w, i);
    if i < |names| {
      assert records[i] == ValueRecord(values[names[i]], addresses[i], getterTrampoline, setterTrampoline);
    }
  }

  /** Two records written for the same name (it was added twice) describe the same, latest, entry. */
  lemma RepeatedNameSameEntry(names: seq<string>, values: map<string, StaticValue>, addresses: seq<Long>,
                              getterTrampoline: Long, setterTrampoline: Long, i: nat, j: nat)
    requires |addresses| == |names| && forall k :: 0 <= k < |names| ==> names[k] in values
    requires i < |names| && j < |names| && names[i] == names[j]
    ensures var records := ValueRecords(names, values, addresses, getterTrampoline, setterTrampoline);
      records[i].words[1..] == records[j].words[1..] && records[i].attributes == records[j].attributes
  {
  }
}

/**
 * `JSStaticFunctions`: the statically declared function properties of a
 * class. Entries are added until the first `commit`, which serialises them
 * into a native array of `JSStaticFunction` records (name, call trampoline,
 * attributes) closed by an all-zero record. The table also keeps, per
 * JavaScript object, which native function pointer stands for which entry,
 * so that a call through the trampoline finds its Java callback.
 */
module StaticFunctionTables {
  import opened Base
  import opened NativeBuffer
  import opened RecordTables
  import opened Callbacks
  import opened PropertyAttributes

  /** One declared function: its callback (`null` allowed) and its attribute bits. */
  datatype StaticFunction = StaticFunction(callback: Option<CallAsFunctionHook>, attributes: Int32)

  /** The native record for one entry: its name's address, the trampoline if it has a callback, its attributes. */
  function FunctionRecord(f: StaticFunction, address: Long, callTrampoline: Long): (r: Record)
    ensures |r.words| == 2
  {
    Record([address, if f.callback.None? then 0 else callTrampoline], f.attributes)
  }

  /** The records of the entries in the order they were added. */
  function FunctionRecords(functions: seq<StaticFunction>, addresses: seq<Long>, callTrampoline: Long): (r: seq<Record>)
    requires |addresses| == |functions|
    ensures |r| == |functions|
    ensures forall i :: 0 <= i < |r| ==> |r[i].words| == 2
  {
    seq(|functions|, i requires 0 <= i < |functions| => FunctionRecord(functions[i], addresses[i], callTrampoline))
  }

  /**
   * The pointer-to-index table `registerFunctions` builds from the native
   * function pointers of one object: `put(pointers[i], i)` in order, so a
   * pointer listed twice keeps its last index.
   */
  function Binding(pointers: seq<Long>): (r: map<Long, int>)
  {
    if pointers == [] then map[]
    else Binding(pointers[..|pointers| - 1])[pointers[|pointers| - 1] := |pointers| - 1]
  }

  /** A pointer is bound exactly when it is listed, to the last position listing it. */
  lemma {:induction false} BindingIsLastIndex(pointers: seq<Long>, p: Long)
    ensures p in Binding(pointers) <==> p in pointers
    ensures p in Binding(pointers) ==>
      && 0 <= Binding(pointers)[p] < |pointers|
      && pointers[Binding(pointers)[p]] == p
      && forall j :: Binding(pointers)[p] < j < |pointers| ==> pointers[j] != p
  {
    if pointers != [] {
      var init := pointers[..|pointers| - 1];
      BindingIsLastIndex(init, p);
      assert pointers == init + [pointers[|pointers| - 1]];
    }
  }

  class StaticFunctionTable {
    const platform: Platform
    /** The call trampoline address, read from the native template at one pointer width. */
    const callTrampoline: Long

    var buffer: array?<Byte>
    /** Every name added, in order; `None` once disposed. */
    var namesCache: Option<seq<string>>
    /** Every entry added, in order, one per name; `None` once disposed. */
    var functions: Option<seq<StaticFunction>>
    /** Per object, the index of the entry each native function pointer stands for; `None` once disposed. */
    var functionPointers: Option<map<Long, map<Long, int>>>

    ghost predicate Valid()
      reads this
    {
      && platform.Valid()
      && Retained(callTrampoline, platform.long) == callTrampoline
      && (namesCache.None? <==> functions.None?)
      && (functionPointers.None? <==> functions.None?)
      && (namesCache.Some? ==> |namesCache.value| == |functions.value|)
    }

    /** `new JSStaticFunctions()`: the trampoline is taken from the native `JSStaticFunction` template. */
    constructor (platform: Platform, template: seq<Byte>)
      requires platform.Valid() && |template| == platform.staticFunctionSize
      ensures Valid()
      ensures callTrampoline == GetLong(template, platform.long, platform.long)
      ensures buffer == null && namesCache == Some([]) && functions == Some([]) && functionPointers == Some(map[])
    {
      var w := platform.long;
      var long: int := platform.long;
      RetainedRead(template, long, w);
      this.platform := platform;
      callTrampoline := GetLong(template, long, w);
      buffer := null;
      namesCache := Some([]);
      functions := Some([]);
      functionPointers := Some(map[]);
    }

    /** `add`: refused once committed; otherwise the entry and its name are appended. */
    method Add(name: string, callback: Option<CallAsFunctionHook>, attrs: PropertyAttribute) returns (r: Result<()>)
      requires Valid()
      modifies this
      ensures Valid()
      ensures old(buffer) != null ==> r == Failure(JavaScriptException("No changes can be done after commit()")) && unchanged(this)
      ensures old(buffer) == null && old(functions).None? ==> r == Failure(NullPointer) && unchanged(this)
      ensures old(buffer) == null && old(functions).Some? ==>
        && r == Success(())
        && functions == Some(old(functions).value + [StaticFunction(callback, attrs.GetValue())])
        && namesCache == Some(old(namesCache).value + [name])
        && buffer == old(buffer) && functionPointers == old(functionPointers)
    {
      if buffer != null {
        return Failure(JavaScriptException("No changes can be done after commit()"));
      }
      if functions.None? {
        return Failure(NullPointer);
      }
      functions := Some(functions.value + [StaticFunction(callback, attrs.GetValue())]);
      namesCache := Some(namesCache.value + [name]);
      r := Success(());
    }

    /** `size`: the number of entries added. */
    function Size(): (r: Result<nat>)
      reads this
      requires Valid()
      ensures r.Success? <==> functions.Some?
      ensures r.Success? ==> r.value == |functions.value| == |namesCache.value|
    {
      if functions.None? then Failure(NullPointer) else Success(|functions.value|)
    }

    /** The records `commit` writes for the entries added so far. */
    ghost function PendingRecords(addresses: seq<Long>): (r: seq<Record>)
      reads this
      requires Valid() && functions.Some? && |addresses| == |functions.value|
      ensures Shaped(r, 2, platform.staticFunctionSize, platform.long)
    {
      StrideIsProduct(2, platform.long);
      FunctionRecords(functions.value, addresses, callTrampoline)
    }

    /**
     * `commit`: the first call allocates `CHUNK * (n + 1)` bytes for the `n`
     * entries, writes one record per entry and the closing record; every
     * later call returns the same buffer untouched. `addresses` are the
     * native copies of the names, one per name.
     */
    method Commit(addresses: seq<Long>) returns (r: Result<array?<Byte>>)
      requires Valid()
      requires buffer == null && namesCache.Some? ==>
        && |addresses| == |namesCache.value|
        && TableSize(|namesCache.value|, platform.staticFunctionSize) < 0x8000_0000
      modifies this
      ensures Valid()
      ensures old(buffer) != null ==> r == Success(old(buffer)) && unchanged(this)
      ensures old(buffer) == null && old(namesCache).None? ==> r == Failure(NullPointer) && unchanged(this)
      ensures old(buffer) == null && old(namesCache).Some? ==>
        && r == Success(buffer) && buffer != null && fresh(buffer)
        && buffer[..] == Image(old(PendingRecords(addresses)), 2, platform.staticFunctionSize, platform.long)
        && namesCache == old(namesCache) && functions == old(functions) && functionPointers == old(functionPointers)
    {
      if buffer != null {
        return Success(buffer);
      }
      if namesCache.None? {
        return Failure(NullPointer);
      }
      var b := Serialize(addresses);
      buffer := b;
      r := Success(b);
    }

    /** The buffer once the first `k` records of the table (the sentinel being record `n`) are written. */
    ghost function Partial(addresses: seq<Long>, k: nat): (r: seq<Byte>)
      reads this
      requires Valid() && functions.Some? && |addresses| == |functions.value| && k <= |functions.value| + 1
      ensures |r| == TableSize(|functions.value|, platform.staticFunctionSize)
    {
      var records := PendingRecords(addresses);
      Spliced(Zeros(TableSize(|records|, platform.staticFunctionSize)), Blocks(records, 2, platform.long),
              RecordSize(2, platform.long), platform.staticFunctionSize, k)
    }

    /** The allocation and the record writes of `commit`, on a buffer nothing else refers to yet. */
    method Serialize(addresses: seq<Long>) returns (b: array<Byte>)
      requires Valid() && functions.Some? && |addresses| == |functions.value|
      requires TableSize(|functions.value|, platform.staticFunctionSize) < 0x8000_0000
      ensures fresh(b)
      ensures b[..] == Image(PendingRecords(addresses), 2, platform.staticFunctionSize, platform.long)
    {
      var size := |functions.value|;
      b := Allocate(size, platform.staticFunctionSize);
      UpdateAll(b, addresses);
      UpdateLast(b, size, addresses);
    }

    /** The loop of `commit`: one `update` per entry, in order. */
    method UpdateAll(b: array<Byte>, addresses: seq<Long>)
      requires Valid() && functions.Some? && |addresses| == |functions.value|
      requires b[..] == Partial(addresses, 0)
      modifies b
      ensures b[..] == Partial(addresses, |functions.value|)
    {
      var i := 0;
      while i < |functions.value|
        invariant 0 <= i <= |functions.value|
        invariant b[..] == Partial(addresses, i)
      {
        StrideIsProduct(i, platform.staticFunctionSize);
        Update(b, i, i * platform.staticFunctionSize, addresses[i], addresses);
        i := i + 1;
      }
    }

    /** `update`: writes the record of entry `index` at byte `bindex`, its place in the table. */
    method Update(b: array<Byte>, index: nat, bindex: nat, address: Long, ghost addresses: seq<Long>)
      requires Valid() && functions.Some? && |addresses| == |functions.value| && index < |functions.value|
      requires bindex == Stride(index, platform.staticFunctionSize) && address == addresses[index]
      requires b[..] == Partial(addresses, index)
      modifies b
      ensures b[..] == Partial(addresses, index + 1)
    {
      FunctionStep(functions.value, addresses, callTrampoline, platform.staticFunctionSize, platform.long, index);
      var f := functions.value[index];
      var call := if f.callback.None? then 0 else callTrampoline;
      WriteTwoWordRecord(b, bindex, Record([address, call], f.attributes), platform.long);
    }

    /** `updateLast`: writes the closing all-zero record after the `last` records. */
    method UpdateLast(b: array<Byte>, last: nat, ghost addresses: seq<Long>)
      requires Valid() && functions.Some? && |addresses| == |functions.value| && last == |functions.value|
      requires b[..] == Partial(addresses, last)
      modifies b
      ensures b[..] == Image(PendingRecords(addresses), 2, platform.staticFunctionSize, platform.long)
    {
      FunctionStep(functions.value, addresses, callTrampoline, platform.staticFunctionSize, platform.long, last);
      var index := platform.staticFunctionSize * last;
      WriteTwoWordRecord(b, index, Sentinel(2), platform.long);
    }

    /**
     * `registerFunctions`: forgets what was registered for `obj`, then
     * binds each of its native function pointers to its position in
     * `pointers`; other objects keep their bindings.
     */
    method RegisterFunctions(obj: Long, pointers: seq<Long>) returns (r: Result<()>)
      modifies this
      ensures old(functionPointers).None? ==> r == Failure(NullPointer) && unchanged(this)
      ensures old(functionPointers).Some? ==>
        && r == Success(())
        && functionPointers == Some(old(functionPointers).value[obj := Binding(pointers)])
      ensures buffer == old(buffer) && namesCache == old(namesCache) && functions == old(functions)
    {
      r := RemoveObject(obj);
      if r.Failure? {
        return;
      }
      var funcs: map<Long, int> := map[];
      var i := 0;
      while i < |pointers|
        invariant 0 <= i <= |pointers|
        invariant funcs == Binding(pointers[..i])
      {
        assert pointers[..i + 1][..i] == pointers[..i];
        funcs := funcs[pointers[i] := i];
        i := i + 1;
      }
      assert pointers[..|pointers|] == pointers;
      assert (old(functionPointers).value - {obj})[obj := funcs] == old(functionPointers).value[obj := funcs];
      functionPointers := Some(functionPointers.value[obj := funcs]);
    }

    /** `removeObject`: forgets what was registered for `obj`. */
    method RemoveObject(obj: Long) returns (r: Result<()>)
      modifies this
      ensures old(functionPointers).None? ==> r == Failure(NullPointer) && unchanged(this)
      ensures old(functionPointers).Some? ==>
        && r == Success(())
        && functionPointers == Some(old(functionPointers).value - {obj})
      ensures buffer == old(buffer) && namesCache == old(namesCache) && functions == old(functions)
    {
      if functionPointers.None? {
        return Failure(NullPointer);
      }
      functionPointers := Some(functionPointers.value - {obj});
      r := Success(());
    }

    /** `requestFunctions`: whether nothing is registered for `obj` yet. */
    function RequestFunctions(obj: Long): (r: Result<bool>)
      reads this
      ensures r.Success? <==> functionPointers.Some?
      ensures r.Success? ==> (r.value <==> obj !in functionPointers.value)
    {
      if functionPointers.None? then Failure(NullPointer) else Success(obj !in functionPointers.value)
    }

    /**
     * `getFunction`: the callback of the entry `pointer` stands for on
     * `obj`; `null` when nothing is registered for the object or the
     * pointer is unknown.
     */
    function GetFunction(obj: Long, pointer: Long): (r: Result<Option<CallAsFunctionHook>>)
      reads this`functionPointers, this`functions
      ensures functionPointers.None? ==> r == Failure(NullPointer)
      ensures functionPointers.Some? && (obj !in functionPointers.value || pointer !in functionPointers.value[obj])
              ==> r == Success(None)
      ensures functionPointers.Some? && obj in functionPointers.value && pointer in functionPointers.value[obj] ==>
        var index := functionPointers.value[obj][pointer];
        && (functions.None? ==> r == Failure(NullPointer))
        && (functions.Some? && !(0 <= index < |functions.value|) ==> r == Failure(IndexOutOfBounds))
        && (functions.Some? && 0 <= index < |functions.value| ==> r == Success(functions.value[index].callback))
    {
      if functionPointers.None? then Failure(NullPointer)
      else if obj !in functionPointers.value || pointer !in functionPointers.value[obj] then Success(None)
      else
        var index := functionPointers.value[obj][pointer];
        if functions.None? then Failure(NullPointer)
        else if !(0 <= index < |functions.value|) then Failure(IndexOutOfBounds)
        else Success(functions.value[index].callback)
    }

    /** `dispose`: drops the pointer bindings, the buffer and both lists. */
    method Dispose()
      requires Valid()
      modifies this
      ensures Valid()
      ensures functionPointers.None? && buffer == null && namesCache.None? && functions.None?
    {
      functionPointers := None;
      buffer := null;
      namesCache := None;
      functions := None;
    }
  }

  /**
   * After `registerFunctions(obj, pointers)`, a pointer of the object
   * finds the entry at the last position listing it, and a pointer not
   * listed finds nothing.
   */
  lemma RegisteredLookup(functionPointers: map<Long, map<Long, int>>, obj: Long, pointers: seq<Long>, pointer: Long)
    ensures var bound := functionPointers[obj := Binding(pointers)][obj];
      && (pointer in bound <==> pointer in pointers)
      && (pointer in bound ==> 0 <= bound[pointer] < |pointers| && pointers[bound[pointer]] == pointer
                               && forall j :: bound[pointer] < j < |pointers| ==> pointers[j] != pointer)
  {
    BindingIsLastIndex(pointers, pointer);
  }

  /** The bytes committed for entry `i`. */
  lemma FunctionBlock(functions: seq<StaticFunction>, addresses: seq<Long>, callTrampoline: Long, w: Width, i: nat)
    requires |addresses| == |functions| && i <= |functions|
    ensures Blocks(FunctionRecords(functions, addresses, callTrampoline), 2, w)[i]
      == RecordBytes(if i < |functions| then FunctionRecord(functions[i], addresses[i], callTrampoline) else Sentinel(2), w)
  {
  }

  /** Writing record `i` (the sentinel when `i` is the count) advances the partial image by one chunk. */
  lemma FunctionStep(functions: seq<StaticFunction>, addresses: seq<Long>, callTrampoline: Long, chunk: nat, w: Width, i: nat)
    requires |addresses| == |functions| && i <= |functions|
    requires RecordSize(2, w) <= chunk
    ensures Stride(i, chunk) == i * chunk && i * chunk + chunk <= TableSize(|functions|, chunk)
    ensures var records := FunctionRecords(functions, addresses, callTrampoline);
      Spliced(Zeros(TableSize(|functions|, chunk)), Blocks(records, 2, w), RecordSize(2, w), chunk, i + 1)
      == Splice(Spliced(Zeros(TableSize(|functions|, chunk)), Blocks(records, 2, w), RecordSize(2, w), chunk, i),
                i * chunk,
                RecordBytes(if i < |functions| then FunctionRecord(functions[i], addresses[i], callTrampoline)
                            else Sentinel(2), w))
  {
    var records := FunctionRecords(functions, addresses, callTrampoline);
    StrideIsProduct(i, chunk);
    ChunkFits(i, |functions|, chunk);
    SplicedStep(Zeros(TableSize(|functions|, chunk)), Blocks(records, 2, w), RecordSize(2, w), chunk, i);
    FunctionBlock(functions, addresses, callTrampoline, w, i);
  }

  /** What the records of a committed table are built from. */
  predicate Committable(functions: seq<StaticFunction>, addresses: seq<Long>, callTrampoline: Long, chunk: nat, w: Width)
  {
    && |addresses| == |functions|
    && RecordSize(2, w) <= chunk
    && Retained(callTrampoline, w) == callTrampoline
  }

  /** The committed table of `functions`. */
  function Committed(functions: seq<StaticFunction>, addresses: seq<Long>, callTrampoline: Long, chunk: nat, w: Width): (r: seq<Byte>)
    requires Committable(functions, addresses, callTrampoline, chunk, w)
    ensures |r| == TableSize(|functions|, chunk)
  {
    Image(FunctionRecords(functions, addresses, callTrampoline), 2, chunk, w)
  }

  /** Word `k` of record `i` of a committed table, `i` at most the number of entries. */
  lemma CommittedWord(functions: seq<StaticFunction>, addresses: seq<Long>, callTrampoline: Long,
                      chunk: nat, w: Width, i: nat, k: nat)
    requires Committable(functions, addresses, callTrampoline, chunk, w)
    requires i <= |functions| && k < 2
    ensures var image := Committed(functions, addresses, callTrampoline, chunk, w);
      && SlotFits(image, Stride(i, chunk) + Stride(k, w), w)
      && GetLong(image, Stride(i, chunk) + Stride(k, w), w)
         == if i < |functions| then Retained(FunctionRecord(functions[i], addresses[i], callTrampoline).words[k], w) else 0
  {
    var records := FunctionRecords(functions, addresses, callTrampoline);
    ImageWord(records, 2, chunk, w, i, k);
    if i < |functions| {
      assert records[i] == FunctionRecord(functions[i], addresses[i], callTrampoline);
    }
  }

  /** Record `i` of a committed table holds the address of the `i`-th name added; the closing record a zero. */
  lemma CommittedName(functions: seq<StaticFunction>, addresses: seq<Long>, callTrampoline: Long,
                      chunk: nat, w: Width, i: nat)
    requires Committable(functions, addresses, callTrampoline, chunk, w)
    requires i <= |functions|
    ensures var image := Committed(functions, addresses, callTrampoline, chunk, w);
      && SlotFits(image, Stride(i, chunk), w)
      && GetLong(image, Stride(i, chunk), w) == if i < |functions| then Retained(addresses[i], w) else 0
  {
    StrideIsProduct(0, w);
    assert Stride(i, chunk) + Stride(0, w) == Stride(i, chunk);
    CommittedWord(functions, addresses, callTrampoline, chunk, w, i, 0);
  }

  /**
   * Record `i` of a committed table holds the call trampoline exactly when
   * entry `i` has a callback, and 0 otherwise; the closing record a zero.
   */
  lemma CommittedCallback(functions: seq<StaticFunction>, addresses: seq<Long>, callTrampoline: Long,
                          chunk: nat, w: Width, i: nat)
    requires Committable(functions, addresses, callTrampoline, chunk, w)
    requires i <= |functions|
    ensures var image := Committed(functions, addresses, callTrampoline, chunk, w);
      && SlotFits(image, Stride(i, chunk) + w, w)
      && GetLong(image, Stride(i, chunk) + w, w)
         == if i < |functions| && functions[i].callback.Some? then callTrampoline else 0
  {
    StrideIsProduct(1, w);
    assert Stride(i, chunk) + Stride(1, w) == Stride(i, chunk) + w;
    CommittedWord(functions, addresses, callTrampoline, chunk, w, i, 1);
    if i < |functions| {
      var word := FunctionRecord(functions[i], addresses[i], callTrampoline).words[1];
      assert word == if functions[i].callback.Some? then callTrampoline else 0;
      assert Retained(word, w) == word;
    }
  }

  /** Record `i` of a committed table holds the attributes of entry `i`; the closing record a zero. */
  lemma CommittedAttributes(functions: seq<StaticFunction>, addresses: seq<Long>, callTrampoline: Long,
                            chunk: nat, w: Width, i: nat)
    requires Committable(functions, addresses, callTrampoline, chunk, w)
    requires i <= |functions|
    ensures var image := Committed(functions, addresses, callTrampoline, chunk, w);
      && SlotFits(image, Stride(i, chunk) + 2 * w, 4)
      && GetInt(image, Stride(i, chunk) + 2 * w) == if i < |functions| then functions[i].attributes else 0
  {
    StrideIsProduct(2, w);
    assert Stride(i, chunk) + Stride(2, w) == Stride(i, chunk) + 2 * w;
    CommittedAttributeWord(functions, addresses, callTrampoline, chunk, w, i);
  }

  /** The attributes field of record `i` of a committed table, after its two words. */
  lemma CommittedAttributeWord(functions: seq<StaticFunction>, addresses: seq<Long>, callTrampoline: Long,
                               chunk: nat, w: Width, i: nat)
    requires Committable(functions, addresses, callTrampoline, chunk, w)
    requires i <= |functions|
    ensures var image := Committed(functions, addresses, callTrampoline, chunk, w);
      && SlotFits(image, Stride(i, chunk) + Stride(2, w), 4)
      && GetInt(image, Stride(i, chunk) + Stride(2, w))
         == if i < |functions| then FunctionRecord(functions[i], addresses[i], callTrampoline).attributes else 0
  {
    var records := FunctionRecords(functions, addresses, callTrampoline);
    ImageAttributes(records, 2, chunk, w, i);
    if i < |functions| {
      assert records[i] == FunctionRecord(functions[i], addresses[i], callTrampoline);
    }
  }
}

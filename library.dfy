/**
 * `JavaScriptCoreLibrary`: the entry points that turn a class definition
 * into a native class, make objects of a class, and make constructors and
 * functions whose calls come back to host callbacks. Every `Native...`
 * call belongs to the engine; what it returns (a class handle, an object
 * address) is a parameter here.
 */
module Library {
  import opened Base
  import opened NativeBuffer
  import opened ClassLayouts
  import opened Callbacks
  import opened Dispatch
  import opened ClassDefinitions
  import opened StaticValueTables
  import opened StaticFunctionTables
  import RecordTables

  /** What `JSObjectMake` hands `NativeJSObjectMake`: the class handle (0 for none) and the definition the object keeps. */
  datatype NativeObject = NativeObject(classHandle: Long, definition: ClassDefinition?)

  /** `NativeJSObjectMake` with the context fixed and no private data: the address of the object the engine makes. */
  type ObjectMaker = NativeObject -> Long

  /**
   * `JSObjectMake`: without a class the engine is asked for a plain object
   * (class handle 0, no definition); otherwise for an object of the class,
   * carrying the class's definition.
   */
  function ObjectMake(jsClass: Option<ClassRef>): (r: NativeObject)
    ensures jsClass.None? ==> r == NativeObject(0, null)
    ensures jsClass.Some? ==> r.classHandle == jsClass.value.handle && r.definition == jsClass.value.definition
  {
    if jsClass.None? then NativeObject(0, null) else NativeObject(jsClass.value.handle, jsClass.value.definition)
  }

  /**
   * The callback `JSObjectMakeConstructor` installs when the host gives
   * none: whatever it is called with, it makes what `JSObjectMake` makes
   * for the class with the copy in place of the original definition.
   */
  function DefaultConstructor(make: ObjectMaker, jsClass: ClassRef, copy: ClassDefinition): (r: CallAsConstructorHook)
    ensures forall constructorObject: Long, arguments: seq<Long> ::
      r(constructorObject, arguments) == make(ObjectMake(Some(ClassRef(copy, jsClass.handle))))
  {
    (constructorObject: Long, arguments: seq<Long>) => make(NativeObject(jsClass.handle, copy))
  }

  /** `getStaticValues` of `d` does not throw: there is no value table, or it is committed, or it still has its names. */
  ghost predicate ValuesLive(d: ClassDefinition)
    reads d, d.staticValues
  {
    d.staticValues != null ==> d.staticValues.frozen || d.staticValues.namesCache.Some?
  }

  /** `getStaticFunctions` of `d` does not throw: there is no function table, or it is committed, or it still has its names. */
  ghost predicate FunctionsLive(d: ClassDefinition)
    reads d, d.staticFunctions
  {
    d.staticFunctions != null ==> d.staticFunctions.buffer != null || d.staticFunctions.namesCache.Some?
  }

  /** Neither `getStaticValues` nor `getStaticFunctions` of `d` throws. */
  ghost predicate TablesLive(d: ClassDefinition)
    reads d, d.staticValues, d.staticFunctions
  {
    ValuesLive(d) && FunctionsLive(d)
  }

  /**
   * The value table `t` after its `commit`: a committed or disposed table
   * is unchanged; any other now holds the image of its records, is frozen,
   * has an empty list of names and keeps its values.
   */
  twostate predicate ValuesCommitted(t: StaticValueTable, addresses: seq<Long>)
    reads t, t.buffer
    requires old(t.Valid()) && old(ValueCommitFits(t, addresses))
  {
    && t.Valid()
    && (old(t.frozen) || old(t.namesCache).None? ==> unchanged(t))
    && (!old(t.frozen) && old(t.namesCache).Some? ==>
         && t.buffer != null && fresh(t.buffer)
         && t.buffer[..] == RecordTables.Image(old(t.PendingRecords(addresses)), 3, t.platform.staticValueSize, t.platform.long)
         && t.frozen && t.namesCache == Some([]) && t.values == old(t.values))
  }

  /**
   * The function table `t` after its `commit`: a committed or disposed
   * table is unchanged; any other now holds the image of its records and
   * keeps its names, functions and bindings.
   */
  twostate predicate FunctionsCommitted(t: StaticFunctionTable, addresses: seq<Long>)
    reads t, t.buffer
    requires old(t.Valid()) && old(FunctionCommitFits(t, addresses))
  {
    && t.Valid()
    && (old(t.buffer) != null || old(t.namesCache).None? ==> unchanged(t))
    && (old(t.buffer) == null && old(t.namesCache).Some? ==>
         && t.buffer != null && fresh(t.buffer)
         && t.buffer[..] == RecordTables.Image(old(t.PendingRecords(addresses)), 2, t.platform.staticFunctionSize, t.platform.long)
         && t.namesCache == old(t.namesCache) && t.functions == old(t.functions)
         && t.functionPointers == old(t.functionPointers))
  }

  /**
   * `JSClassCreate`: the definition is committed, then its two tables; a
   * table that throws ends the creation. The class is the definition with
   * the handle the engine returns.
   */
  method ClassCreate(d: ClassDefinition, valueAddresses: seq<Long>, functionAddresses: seq<Long>, handle: Long)
    returns (r: Result<ClassRef>)
    requires d.rt.Valid() && d in d.rt.defs
    requires d.staticValues != null ==> d.staticValues.Valid() && ValueCommitFits(d.staticValues, valueAddresses)
    requires d.staticFunctions != null ==> d.staticFunctions.Valid() && FunctionCommitFits(d.staticFunctions, functionAddresses)
    modifies d`buffer, d`hasParent, d.staticValues, d.staticFunctions
    ensures d.rt.Valid() && d.buffer != null
    ensures old(d.buffer) != null ==>
      d.buffer == old(d.buffer) && d.buffer[..] == old(d.buffer[..]) && d.hasParent == old(d.hasParent)
    ensures old(d.buffer) == null ==>
      && d.buffer.Length == d.rt.platform.classDefinitionSize
      && (forall f :: ReadField(d.buffer[..], d.rt.platform, f) == Planned(d.Plan(), f, d.rt.platform.long))
      && d.hasParent == (d.Parent() != null)
    ensures d.staticValues != null ==> ValuesCommitted(d.staticValues, valueAddresses)
    ensures d.staticFunctions != null && !old(ValuesLive(d)) ==> unchanged(d.staticFunctions)
    ensures d.staticFunctions != null && old(ValuesLive(d)) ==> FunctionsCommitted(d.staticFunctions, functionAddresses)
    ensures r.Success? <==> old(TablesLive(d))
    ensures r.Success? ==> r.value == ClassRef(d, handle)
    ensures r.Failure? ==> r == Failure(NullPointer)
  {
    var b := d.Commit();
    var tables := CommitTables(d, valueAddresses, functionAddresses);
    r := if tables.Success? then Success(ClassRef(d, handle)) else Failure(tables.error);
  }

  /** `getStaticValues()` then `getStaticFunctions()`, as the arguments of `NativeJSClassCreate` are evaluated. */
  method CommitTables(d: ClassDefinition, valueAddresses: seq<Long>, functionAddresses: seq<Long>) returns (r: Result<()>)
    requires d.staticValues != null ==> d.staticValues.Valid() && ValueCommitFits(d.staticValues, valueAddresses)
    requires d.staticFunctions != null ==> d.staticFunctions.Valid() && FunctionCommitFits(d.staticFunctions, functionAddresses)
    modifies d.staticValues, d.staticFunctions
    ensures d.staticValues != null ==> ValuesCommitted(d.staticValues, valueAddresses)
    ensures d.staticFunctions != null && !old(ValuesLive(d)) ==> unchanged(d.staticFunctions)
    ensures d.staticFunctions != null && old(ValuesLive(d)) ==> FunctionsCommitted(d.staticFunctions, functionAddresses)
    ensures r.Success? <==> old(TablesLive(d))
    ensures r.Failure? ==> r == Failure(NullPointer)
  {
    var values := d.GetStaticValues(valueAddresses);
    if values.Failure? {
      return Failure(values.error);
    }
    var functions := d.GetStaticFunctions(functionAddresses);
    if functions.Failure? {
      return Failure(functions.error);
    }
    r := Success(());
  }

  /**
   * `JSGlobalClassCreate`: `JSClassCreate` with finalization switched off
   * first, so that a definition committed here has no `finalize`
   * trampoline.
   */
  method GlobalClassCreate(d: ClassDefinition, valueAddresses: seq<Long>, functionAddresses: seq<Long>, handle: Long)
    returns (r: Result<ClassRef>)
    requires d.rt.Valid() && d in d.rt.defs
    requires d.staticValues != null ==> d.staticValues.Valid() && ValueCommitFits(d.staticValues, valueAddresses)
    requires d.staticFunctions != null ==> d.staticFunctions.Valid() && FunctionCommitFits(d.staticFunctions, functionAddresses)
    modifies d`forceFinalizeCall, d`buffer, d`hasParent, d.staticValues, d.staticFunctions
    ensures d.rt.Valid() && d.buffer != null && !d.forceFinalizeCall
    ensures old(d.buffer) != null ==>
      d.buffer == old(d.buffer) && d.buffer[..] == old(d.buffer[..]) && d.hasParent == old(d.hasParent)
    ensures old(d.buffer) == null ==>
      && d.buffer.Length == d.rt.platform.classDefinitionSize
      && (forall f :: ReadField(d.buffer[..], d.rt.platform, f) == Planned(d.Plan(), f, d.rt.platform.long))
      && ReadField(d.buffer[..], d.rt.platform, Finalize) == 0
      && d.hasParent == (d.Parent() != null)
    ensures d.staticValues != null ==> ValuesCommitted(d.staticValues, valueAddresses)
    ensures d.staticFunctions != null && !old(ValuesLive(d)) ==> unchanged(d.staticFunctions)
    ensures d.staticFunctions != null && old(ValuesLive(d)) ==> FunctionsCommitted(d.staticFunctions, functionAddresses)
    ensures r.Success? <==> old(TablesLive(d))
    ensures r.Success? ==> r.value == ClassRef(d, handle)
    ensures r.Failure? ==> r == Failure(NullPointer)
  {
    d.EnableFinalize(false);
    r := ClassCreate(d, valueAddresses, functionAddresses, handle);
    if old(d.buffer) == null {
      CommitPlanAt(d.version, d.attributes, d.parentClass, d.hooks, d.forceCallAsConstructor, false,
                   d.rt.template.value, d.rt.platform, Finalize);
    }
  }

  /**
   * `JSObjectMakeConstructor`. With a class, its definition is copied, the
   * copy is committed with `callAsConstructor` forced on, and the host's
   * callback (or the default one) becomes the copy's `callAsConstructor`;
   * a class without a definition throws `NullPointerException`. The
   * callback is registered for the constructor the engine returns, `null`
   * included when there is no class and no callback.
   */
  method MakeConstructor(rt: Runtime, jsClass: Option<ClassRef>, callback: Option<CallAsConstructorHook>,
                         native: seq<Byte>, make: ObjectMaker, constructorObject: Long)
    returns (r: Result<Long>, ghost copy: ClassDefinition?)
    requires rt.Valid() && |native| == rt.platform.classDefinitionSize
    requires jsClass.Some? && jsClass.value.definition != null ==> jsClass.value.definition in rt.defs
    modifies rt`template, rt`defs, rt`clock, rt`constructorCallbacks
    ensures rt.Valid()
    ensures jsClass.Some? && jsClass.value.definition == null ==>
      r == Failure(NullPointer) && rt.defs == old(rt.defs) && rt.constructorCallbacks == old(rt.constructorCallbacks)
    ensures jsClass.None? ==>
      r == Success(constructorObject) && rt.defs == old(rt.defs)
      && rt.constructorCallbacks == old(rt.constructorCallbacks)[constructorObject := callback]
    ensures jsClass.Some? && jsClass.value.definition != null ==>
      && r == Success(constructorObject) && copy != null && fresh(copy) && rt.defs == old(rt.defs) + {copy}
      && var d := jsClass.value.definition;
         var hook: CallAsConstructorHook := if callback.Some? then callback.value else DefaultConstructor(make, jsClass.value, copy);
         && rt.constructorCallbacks == old(rt.constructorCallbacks)[constructorObject := Some(hook)]
         && copy.hooks == d.hooks.(callAsConstructor := Some(hook))
         && copy.forceCallAsConstructor && copy.buffer != null
         && copy.buffer.Length == rt.platform.classDefinitionSize
         && (forall f :: ReadField(copy.buffer[..], rt.platform, f) ==
               Planned(CommitPlan(d.version, d.attributes, d.parentClass, d.hooks, true, true, rt.template.value, rt.platform),
                       f, rt.platform.long))
  {
    copy := null;
    var hook := callback;
    if jsClass.Some? {
      if jsClass.value.definition == null {
        return Failure(NullPointer), null;
      }
      var c, h := ConstructorCopy(rt, jsClass.value, callback, native, make);
      hook := Some(h);
      copy := c;
    }
    rt.RegisterMakeConstructorCallback(constructorObject, hook);
    r := Success(constructorObject);
  }

  /**
   * The class half of `JSObjectMakeConstructor`: the copy of the class's
   * definition, committed with `callAsConstructor` forced on, whose
   * `callAsConstructor` then becomes the host's callback or the default one.
   */
  method ConstructorCopy(rt: Runtime, jsClass: ClassRef, callback: Option<CallAsConstructorHook>,
                         native: seq<Byte>, make: ObjectMaker)
    returns (c: ClassDefinition, hook: CallAsConstructorHook)
    requires rt.Valid() && |native| == rt.platform.classDefinitionSize
    requires jsClass.definition != null && jsClass.definition in rt.defs
    modifies rt`template, rt`defs, rt`clock
    ensures rt.Valid() && fresh(c) && rt.defs == old(rt.defs) + {c} && rt.template == old(rt.template)
    ensures hook == if callback.Some? then callback.value else DefaultConstructor(make, jsClass, c)
    ensures c.hooks == jsClass.definition.hooks.(callAsConstructor := Some(hook))
    ensures c.forceCallAsConstructor && c.buffer != null && c.buffer.Length == rt.platform.classDefinitionSize
    ensures forall f :: ReadField(c.buffer[..], rt.platform, f) ==
                        Planned(CommitPlan(jsClass.definition.version, jsClass.definition.attributes, jsClass.definition.parentClass,
                                           jsClass.definition.hooks, true, true, rt.template.value, rt.platform),
                                f, rt.platform.long)
  {
    var d := jsClass.definition;
    c := d.Copy(native);
    c.EnableConstructor(true);
    var b := c.Commit();
    assert c.Plan() == CommitPlan(d.version, d.attributes, d.parentClass, d.hooks, true, true, rt.template.value, rt.platform);
    ghost var image := b[..];
    hook := if callback.Some? then callback.value else DefaultConstructor(make, jsClass, c);
    c.SetCallAsConstructor(hook);
    assert c.buffer[..] == image;
  }

  /**
   * `JSObjectMakeFunctionWithCallback`: the callback (`null` included) is
   * registered for the function the engine returns, replacing any earlier
   * registration.
   */
  method MakeFunctionWithCallback(rt: Runtime, name: string, callback: Option<CallAsFunctionHook>, functionObject: Long)
    returns (f: Long)
    requires rt.Valid()
    modifies rt`functionCallbacks
    ensures rt.Valid() && f == functionObject
    ensures rt.functionCallbacks == old(rt.functionCallbacks)[f := callback]
  {
    rt.RegisterMakeFunctionCallback(functionObject, callback);
    f := functionObject;
  }
}

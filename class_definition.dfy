/**
 * `JSClassDefinition`: the class descriptor a host program fills in, the
 * process-wide state its static fields hold (the native template, the
 * eight memo maps, the two handle-to-callback registries), and the
 * callbacks the native trampolines route to the definition of an object's
 * leaf class, which hand each request up the `parentClass` chain.
 */
module ClassDefinitions {
  import opened Base
  import opened NativeBuffer
  import opened ClassLayouts
  import opened Callbacks
  import opened JSTypes
  import opened Dispatch
  import opened StaticValueTables
  import opened StaticFunctionTables
  import RecordTables
  import opened ChainWalks

  /** `JSClassRef`: the definition a native class was created from (`null` allowed), and the class handle. */
  datatype ClassRef = ClassRef(definition: ClassDefinition?, handle: Long)

  /** The eight memo maps, merged: an entry names the class the next call for that object goes to. */
  type Memo = map<MemoKey, ClassDefinition>

  /**
   * Every definition's parent link leads to an older definition; a
   * definition that forwards to its parent has one.
   */
  ghost predicate Linked(defs: set<ClassDefinition>)
    reads defs`hasParent, defs`parentClass
  {
    forall d :: d in defs ==>
      && (d.hasParent ==> d.Parent() != null)
      && (d.Parent() != null ==> d.Parent() in defs && d.Parent().rank < d.rank)
  }

  /** Every memo entry names a definition of `defs`. */
  ghost predicate Recorded(defs: set<ClassDefinition>, memo: Memo)
  {
    forall k :: k in memo ==> memo[k] in defs
  }

  /** The static tables the definitions refer to. */
  ghost function Tables(defs: set<ClassDefinition>): (r: set<object>)
    reads defs`staticValues, defs`staticFunctions
    ensures forall d :: d in defs && d.staticValues != null ==> d.staticValues in r
    ensures forall d :: d in defs && d.staticFunctions != null ==> d.staticFunctions in r
  {
    (set d | d in defs && d.staticValues != null :: d.staticValues as object)
    + (set d | d in defs && d.staticFunctions != null :: d.staticFunctions as object)
  }

  /** What the static fields of `JSClassDefinition` hold for the whole process. */
  class Runtime {
    const platform: Platform
    /** `bufferTemplate`: the native structure the trampoline addresses are read from; `null` until the first definition. */
    var template: Option<seq<Byte>>
    var memo: Memo
    /** `functionCallbacks`: a registered `null` is kept, and found as `null`. */
    var functionCallbacks: map<Long, Option<CallAsFunctionHook>>
    var constructorCallbacks: map<Long, Option<CallAsConstructorHook>>
    /** The `initialize` and `finalize` host callbacks run so far, in order. */
    var log: seq<LifecycleEvent>
    /** Every definition created so far. */
    ghost var defs: set<ClassDefinition>
    ghost var clock: nat

    /** The invariant apart from the memo: the template's size and the links between definitions. */
    ghost predicate Linking()
      reads this`template, this`defs, this`clock, defs`hasParent, defs`parentClass
    {
      && platform.Valid()
      && (template.Some? ==> |template.value| == platform.classDefinitionSize)
      && Linked(defs)
      && (forall d :: d in defs ==> d.rt == this && d.rank < clock)
      && (defs != {} ==> template.Some?)
    }

    ghost predicate Valid()
      reads this`template, this`defs, this`clock, this`memo, defs`hasParent, defs`parentClass
    {
      Linking() && Recorded(defs, memo)
    }

    constructor (platform: Platform)
      requires platform.Valid()
      ensures Valid()
      ensures template.None? && memo == map[] && functionCallbacks == map[] && constructorCallbacks == map[]
      ensures log == [] && defs == {}
    {
      this.platform := platform;
      template := None;
      memo := map[];
      functionCallbacks := map[];
      constructorCallbacks := map[];
      log := [];
      defs := {};
      clock := 0;
    }

    /** A host `initialize` or `finalize` callback runs. */
    method Record(e: LifecycleEvent)
      requires Valid()
      modifies this`log
      ensures Valid() && log == old(log) + [e]
    {
      log := log + [e];
    }

    /** The clearing of the memo maps and both registries in `dispose`. */
    method ClearAll()
      requires Valid()
      modifies this`memo, this`functionCallbacks, this`constructorCallbacks
      ensures Valid()
      ensures memo == map[] && functionCallbacks == map[] && constructorCallbacks == map[]
    {
      memo := map[];
      functionCallbacks := map[];
      constructorCallbacks := map[];
    }

    /**
     * The address of the trampoline for a callback field: what the native
     * template holds in that field's slot.
     */
    function Trampoline(f: Field): (r: Long)
      reads this
      requires platform.Valid() && template.Some? && |template.value| == platform.classDefinitionSize
    {
      ReadField(template.value, platform, f)
    }

    /**
     * `constructBufferTemplate`: the native template is fetched by the
     * first definition only; later definitions keep the first one.
     */
    method ConstructBufferTemplate(native: seq<Byte>)
      requires Valid() && |native| == platform.classDefinitionSize
      modifies this`template
      ensures Valid()
      ensures template == if old(template).None? then Some(native) else old(template)
    {
      if template.None? {
        template := Some(native);
      }
    }

    /** `clearPrototypeChain`: the object's entries in the eight memo maps and in both registries are removed. */
    method ClearPrototypeChain(obj: Long)
      requires Valid()
      modifies this`memo, this`functionCallbacks, this`constructorCallbacks
      ensures Valid()
      ensures memo == Forget(old(memo), obj)
      ensures functionCallbacks == old(functionCallbacks) - {obj} && constructorCallbacks == old(constructorCallbacks) - {obj}
    {
      memo := Forget(memo, obj);
      functionCallbacks := functionCallbacks - {obj};
      constructorCallbacks := constructorCallbacks - {obj};
    }

    /** `registerMakeFunctionCallback`: a later registration for the same function replaces the earlier one. */
    method RegisterMakeFunctionCallback(func: Long, callback: Option<CallAsFunctionHook>)
      modifies this`functionCallbacks
      ensures functionCallbacks == old(functionCallbacks)[func := callback]
    {
      functionCallbacks := functionCallbacks[func := callback];
    }

    /**
     * `JSObjectMakeFunctionCallback`: the callback registered for the
     * function runs; a function never registered, or registered with
     * `null`, throws.
     */
    method MakeFunctionCallback(func: Long, thisObject: Long, arguments: seq<Long>) returns (r: Result<Long>)
      ensures r.Success? <==> func in functionCallbacks && functionCallbacks[func].Some?
      ensures r.Success? ==> r.value == functionCallbacks[func].value(func, thisObject, arguments)
      ensures r.Failure? ==> r.error == JavaScriptException("JSObjectMakeFunctionWithCallback callback is not found for " + Decimal(thisObject))
    {
      if func in functionCallbacks && functionCallbacks[func].Some? {
        return Success(functionCallbacks[func].value(func, thisObject, arguments));
      }
      r := Failure(JavaScriptException("JSObjectMakeFunctionWithCallback callback is not found for " + Decimal(thisObject)));
    }

    /** `registerMakeConstructorCallback`: a later registration for the same constructor replaces the earlier one. */
    method RegisterMakeConstructorCallback(constructorObject: Long, callback: Option<CallAsConstructorHook>)
      modifies this`constructorCallbacks
      ensures constructorCallbacks == old(constructorCallbacks)[constructorObject := callback]
    {
      constructorCallbacks := constructorCallbacks[constructorObject := callback];
    }

    /**
     * `JSObjectMakeConstructorCallback`: the callback registered for the
     * constructor runs; a constructor never registered, or registered with
     * `null`, throws.
     */
    method MakeConstructorCallback(constructorObject: Long, arguments: seq<Long>) returns (r: Result<Long>)
      ensures r.Success? <==> constructorObject in constructorCallbacks && constructorCallbacks[constructorObject].Some?
      ensures r.Success? ==> r.value == constructorCallbacks[constructorObject].value(constructorObject, arguments)
      ensures r.Failure? ==> r.error == JavaScriptException("JSObjectMakeConstructor callback is not found for " + Decimal(constructorObject))
    {
      if constructorObject in constructorCallbacks && constructorCallbacks[constructorObject].Some? {
        return Success(constructorCallbacks[constructorObject].value(constructorObject, arguments));
      }
      r := Failure(JavaScriptException("JSObjectMakeConstructor callback is not found for " + Decimal(constructorObject)));
    }
  }

  class ClassDefinition {
    const rt: Runtime
    /** Creation order: a parent is always older than its children. */
    ghost const rank: nat

    var version: Int32
    var attributes: Int32
    var className: Option<string>
    var parentClass: Option<ClassRef>
    var staticValues: StaticValueTable?
    var staticFunctions: StaticFunctionTable?
    var hooks: Hooks
    var buffer: array?<Byte>
    var hasParent: bool
    var forceCallAsConstructor: bool
    /** `forceFinaizeCall`. */
    var forceFinalizeCall: bool

    /** `parentClass.getDefinition()`, `null` when there is no parent class. */
    function Parent(): (r: ClassDefinition?)
      reads this`parentClass
    {
      if parentClass.Some? then parentClass.value.definition else null
    }

    /**
     * `new JSClassDefinition()` followed by the assignments to its public
     * fields; the constructor fetches the native template if no definition
     * has done so yet.
     */
    constructor (rt: Runtime, native: seq<Byte>, version: Int32, attributes: Int32, className: Option<string>,
                 parentClass: Option<ClassRef>, staticValues: StaticValueTable?, staticFunctions: StaticFunctionTable?,
                 hooks: Hooks)
      requires rt.Valid() && |native| == rt.platform.classDefinitionSize
      requires parentClass.Some? && parentClass.value.definition != null ==> parentClass.value.definition in rt.defs
      modifies rt`template, rt`defs, rt`clock
      ensures rt.Valid() && rt.defs == old(rt.defs) + {this}
      ensures rt.template == if old(rt.template).None? then Some(native) else old(rt.template)
      ensures this.rt == rt && this.version == version && this.attributes == attributes && this.className == className
      ensures this.parentClass == parentClass && this.staticValues == staticValues && this.staticFunctions == staticFunctions
      ensures this.hooks == hooks && buffer == null && !hasParent && !forceCallAsConstructor && forceFinalizeCall
    {
      this.rt := rt;
      rank := rt.clock;
      this.version := version;
      this.attributes := attributes;
      this.className := className;
      this.parentClass := parentClass;
      this.staticValues := staticValues;
      this.staticFunctions := staticFunctions;
      this.hooks := hooks;
      buffer := null;
      hasParent := false;
      forceCallAsConstructor := false;
      forceFinalizeCall := true;
      new;
      rt.ConstructBufferTemplate(native);
      rt.defs := rt.defs + {this};
      rt.clock := rt.clock + 1;
    }

    /**
     * The memo-led dispatch every chained callback performs: follow a memo
     * naming another class; otherwise run the own callback, remove the
     * entry when it accepts, and when it declines or is `null` pin the
     * entry to the parent (going on at once only when it was `null`) or,
     * at the root, remove the entry and decline.
     */
    method Resolve(req: Request) returns (r: Result<Reply>)
      requires rt.Valid() && this in rt.defs
      modifies rt`memo
      ensures rt.Valid()
      ensures (r, rt.memo) == Outcome(ViewOf(rt.defs, req), old(rt.memo), this, req)
      decreases Measure(ViewOf(rt.defs, req), rt.memo, this, req.Key()), 1
    {
      var key := req.Key();
      if key in rt.memo && rt.memo[key] != this {
        r := rt.memo[key].Resolve(req);
      } else {
        r := ResolveHere(req);
      }
    }

    /** The part of `Resolve` that runs on this class, the memo leading nowhere else. */
    method ResolveHere(req: Request) returns (r: Result<Reply>)
      requires rt.Valid() && this in rt.defs
      requires req.Key() !in rt.memo || rt.memo[req.Key()] == this
      modifies rt`memo
      ensures rt.Valid()
      ensures (r, rt.memo) == Outcome(ViewOf(rt.defs, req), old(rt.memo), this, req)
      decreases Measure(ViewOf(rt.defs, req), rt.memo, this, req.Key()), 0
    {
      var key := req.Key();
      ghost var v := ViewOf(rt.defs, req);
      ghost var m0 := rt.memo;
      var local := Local(hooks, req);
      assert v[this] == Node(local, hasParent, Parent(), rank);
      if local.Some? && local.value.Failure? {
        return local.value;
      }
      if local.Some? && local.value.value.accepted {
        rt.memo := rt.memo - {key};
        assert unchanged(rt.defs);
        return local.value;
      }
      if hasParent {
        OutcomeForwards(v, m0, this, req);
        rt.memo := rt.memo[key := Parent()];
        assert unchanged(rt.defs);
        if local.None? {
          r := Resolve(req);
          assert rt.defs == old(rt.defs);
          return;
        }
      } else {
        rt.memo := rt.memo - {key};
        assert unchanged(rt.defs);
      }
      r := Declined(req, local);
    }

    /** `JSObjectSetPropertyCallback`. */
    method SetPropertyCallback(obj: Long, propertyName: string, value: Long) returns (r: bool)
      requires rt.Valid() && this in rt.defs
      modifies rt`memo
      ensures rt.Valid()
      ensures (Success(Reply(r, 0, [])), rt.memo) == Outcome(ViewOf(rt.defs, Request.SetProperty(obj, propertyName, value)), old(rt.memo), this, Request.SetProperty(obj, propertyName, value))
    {
      var req := Request.SetProperty(obj, propertyName, value);
      ViewShaped(rt.defs, req);
      OutcomeShape(ViewOf(rt.defs, req), rt.memo, this, req);
      var x := Resolve(req);
      r := x.value.accepted;
    }

    /** `JSObjectGetPropertyCallback`: the value's address, 0 for none. */
    method GetPropertyCallback(obj: Long, propertyName: string) returns (r: Long)
      requires rt.Valid() && this in rt.defs
      modifies rt`memo
      ensures rt.Valid()
      ensures (Success(Reply(r != 0, r, [])), rt.memo) == Outcome(ViewOf(rt.defs, Request.GetProperty(obj, propertyName)), old(rt.memo), this, Request.GetProperty(obj, propertyName))
    {
      var req := Request.GetProperty(obj, propertyName);
      ViewShaped(rt.defs, req);
      OutcomeShape(ViewOf(rt.defs, req), rt.memo, this, req);
      var x := Resolve(req);
      r := x.value.value;
    }

    /** `JSObjectConvertToTypeCallback`: throws for a type code `JSType.request` does not know. */
    method ConvertToTypeCallback(obj: Long, typeCode: Int32) returns (r: Result<Long>)
      requires rt.Valid() && this in rt.defs
      modifies rt`memo
      ensures rt.Valid()
      ensures var (x, m) := Outcome(ViewOf(rt.defs, Request.ConvertToType(obj, typeCode)), old(rt.memo), this, Request.ConvertToType(obj, typeCode));
        && rt.memo == m
        && (r.Success? <==> x.Success?)
        && (r.Success? ==> x.value == Reply(r.value != 0, r.value, []))
        && (r.Failure? ==> x.error == r.error)
    {
      var req := Request.ConvertToType(obj, typeCode);
      ViewShaped(rt.defs, req);
      OutcomeShape(ViewOf(rt.defs, req), rt.memo, this, req);
      var x := Resolve(req);
      if x.Failure? {
        return Failure(x.error);
      }
      r := Success(x.value.value);
    }

    /** `JSObjectDeletePropertyCallback`. */
    method DeletePropertyCallback(obj: Long, propertyName: string) returns (r: bool)
      requires rt.Valid() && this in rt.defs
      modifies rt`memo
      ensures rt.Valid()
      ensures (Success(Reply(r, 0, [])), rt.memo) == Outcome(ViewOf(rt.defs, Request.DeleteProperty(obj, propertyName)), old(rt.memo), this, Request.DeleteProperty(obj, propertyName))
    {
      var req := Request.DeleteProperty(obj, propertyName);
      ViewShaped(rt.defs, req);
      OutcomeShape(ViewOf(rt.defs, req), rt.memo, this, req);
      var x := Resolve(req);
      r := x.value.accepted;
    }

    /** `JSObjectGetPropertyNamesCallback`: the names this call adds to the accumulator. */
    method GetPropertyNamesCallback(obj: Long) returns (names: seq<string>)
      requires rt.Valid() && this in rt.defs
      modifies rt`memo
      ensures rt.Valid()
      ensures (Success(Reply(false, 0, names)), rt.memo) == Outcome(ViewOf(rt.defs, Request.GetPropertyNames(obj)), old(rt.memo), this, Request.GetPropertyNames(obj))
    {
      var req := Request.GetPropertyNames(obj);
      ViewShaped(rt.defs, req);
      OutcomeShape(ViewOf(rt.defs, req), rt.memo, this, req);
      var x := Resolve(req);
      names := x.value.names;
    }

    /** `JSObjectHasInstanceCallback`. */
    method HasInstanceCallback(constructorObject: Long, possibleInstance: Long) returns (r: bool)
      requires rt.Valid() && this in rt.defs
      modifies rt`memo
      ensures rt.Valid()
      ensures (Success(Reply(r, 0, [])), rt.memo) == Outcome(ViewOf(rt.defs, Request.HasInstance(constructorObject, possibleInstance)), old(rt.memo), this, Request.HasInstance(constructorObject, possibleInstance))
    {
      var req := Request.HasInstance(constructorObject, possibleInstance);
      ViewShaped(rt.defs, req);
      OutcomeShape(ViewOf(rt.defs, req), rt.memo, this, req);
      var x := Resolve(req);
      r := x.value.accepted;
    }

    /** `JSObjectHasPropertyCallback`. */
    method HasPropertyCallback(obj: Long, propertyName: string) returns (r: bool)
      requires rt.Valid() && this in rt.defs
      modifies rt`memo
      ensures rt.Valid()
      ensures (Success(Reply(r, 0, [])), rt.memo) == Outcome(ViewOf(rt.defs, Request.HasProperty(obj, propertyName)), old(rt.memo), this, Request.HasProperty(obj, propertyName))
    {
      var req := Request.HasProperty(obj, propertyName);
      ViewShaped(rt.defs, req);
      OutcomeShape(ViewOf(rt.defs, req), rt.memo, this, req);
      var x := Resolve(req);
      r := x.value.accepted;
    }

    /** `JSObjectCallAsConstructorCallback`: throws when no class up the chain has the callback. */
    method CallAsConstructorCallback(constructorObject: Long, arguments: seq<Long>) returns (r: Result<Long>)
      requires rt.Valid() && this in rt.defs
      modifies rt`memo
      ensures rt.Valid()
      ensures var (x, m) := Outcome(ViewOf(rt.defs, Request.CallAsConstructor(constructorObject, arguments)), old(rt.memo), this, Request.CallAsConstructor(constructorObject, arguments));
        && rt.memo == m
        && (r.Success? <==> x.Success?)
        && (r.Success? ==> x.value == Reply(true, r.value, []))
        && (r.Failure? ==> x.error == r.error)
    {
      var req := Request.CallAsConstructor(constructorObject, arguments);
      ViewShaped(rt.defs, req);
      OutcomeShape(ViewOf(rt.defs, req), rt.memo, this, req);
      var x := Resolve(req);
      if x.Failure? {
        return Failure(x.error);
      }
      r := Success(x.value.value);
    }

    /**
     * `commit`: the first call allocates a zero-filled native structure and
     * writes the version, the attributes, the parent class handle when
     * there is a parent class, the trampoline of every callback field that
     * is set (of `callAsConstructor` also when it is forced on), and the
     * `finalize` trampoline unless finalization is switched off; it then
     * records whether a parent definition exists. Every later call returns
     * the same structure untouched.
     */
    method Commit() returns (b: array<Byte>)
      requires rt.Valid() && this in rt.defs
      modifies this`buffer, this`hasParent
      ensures rt.Valid()
      ensures buffer == b
      ensures old(buffer) != null ==> b == old(buffer) && hasParent == old(hasParent)
      ensures old(buffer) == null ==>
        && fresh(b) && b.Length == rt.platform.classDefinitionSize
        && (forall f :: ReadField(b[..], rt.platform, f) == Planned(Plan(), f, rt.platform.long))
        && hasParent == (Parent() != null)
    {
      if buffer != null {
        return buffer;
      }
      ghost var plan := Plan();
      b := WriteDefinition(rt.platform, rt.template.value, version, attributes, parentClass, hooks,
                           forceCallAsConstructor, forceFinalizeCall);
      ghost var image := b[..];
      buffer := b;
      LinkParent();
      assert Plan() == plan && b[..] == image;
    }

    /** `hasParent = parentClass != null && parentClass.getDefinition() != null` in `commit`. */
    method LinkParent()
      requires rt.Valid() && this in rt.defs
      modifies this`hasParent
      ensures rt.Valid() && hasParent == (Parent() != null)
    {
      hasParent := parentClass.Some? && parentClass.value.definition != null;
    }

    /** What `commit` writes, slot by slot. */
    function Plan(): (plan: map<Field, Long>)
      reads this`version, this`attributes, this`parentClass, this`hooks, this`forceCallAsConstructor, this`forceFinalizeCall
      reads rt`template
      requires rt.platform.Valid() && rt.template.Some? && |rt.template.value| == rt.platform.classDefinitionSize
      ensures PlanFits(plan)
    {
      CommitPlan(version, attributes, parentClass, hooks, forceCallAsConstructor, forceFinalizeCall,
                 rt.template.value, rt.platform)
    }

    /** `getStaticValues`: `null` without a table, otherwise what the table's `commit` returns. */
    method GetStaticValues(addresses: seq<Long>) returns (r: Result<array?<Byte>>)
      requires staticValues != null ==> staticValues.Valid() && ValueCommitFits(staticValues, addresses)
      modifies staticValues
      ensures staticValues == null ==> r == Success(null)
      ensures staticValues != null ==> staticValues.Valid()
      ensures staticValues != null && old(staticValues.frozen) ==> r == Success(staticValues.buffer) && unchanged(staticValues)
      ensures staticValues != null && !old(staticValues.frozen) && old(staticValues.namesCache).None? ==>
        r == Failure(NullPointer) && unchanged(staticValues)
      ensures staticValues != null && !old(staticValues.frozen) && old(staticValues.namesCache).Some? ==>
        && r == Success(staticValues.buffer) && staticValues.buffer != null && fresh(staticValues.buffer)
        && staticValues.buffer[..] == RecordTables.Image(old(staticValues.PendingRecords(addresses)), 3, staticValues.platform.staticValueSize, staticValues.platform.long)
        && staticValues.frozen && staticValues.namesCache == Some([]) && staticValues.values == old(staticValues.values)
    {
      if staticValues == null {
        return Success(null);
      }
      r := staticValues.Commit(addresses);
    }

    /** `getStaticFunctions`: `null` without a table, otherwise what the table's `commit` returns. */
    method GetStaticFunctions(addresses: seq<Long>) returns (r: Result<array?<Byte>>)
      requires staticFunctions != null ==> staticFunctions.Valid() && FunctionCommitFits(staticFunctions, addresses)
      modifies staticFunctions
      ensures staticFunctions == null ==> r == Success(null)
      ensures staticFunctions != null ==> staticFunctions.Valid()
      ensures staticFunctions != null && old(staticFunctions.buffer) != null ==> r == Success(old(staticFunctions.buffer)) && unchanged(staticFunctions)
      ensures staticFunctions != null && old(staticFunctions.buffer) == null && old(staticFunctions.namesCache).None? ==>
        r == Failure(NullPointer) && unchanged(staticFunctions)
      ensures staticFunctions != null && old(staticFunctions.buffer) == null && old(staticFunctions.namesCache).Some? ==>
        && r == Success(staticFunctions.buffer) && staticFunctions.buffer != null && fresh(staticFunctions.buffer)
        && staticFunctions.buffer[..] == RecordTables.Image(old(staticFunctions.PendingRecords(addresses)), 2, staticFunctions.platform.staticFunctionSize, staticFunctions.platform.long)
        && staticFunctions.namesCache == old(staticFunctions.namesCache) && staticFunctions.functions == old(staticFunctions.functions)
        && staticFunctions.functionPointers == old(staticFunctions.functionPointers)
    {
      if staticFunctions == null {
        return Success(null);
      }
      r := staticFunctions.Commit(addresses);
    }

    /** `getStaticFunctionCount`: 0 without a table, otherwise the number of functions added to it. */
    function GetStaticFunctionCount(): (r: Result<nat>)
      reads this, staticFunctions
      requires staticFunctions != null ==> staticFunctions.Valid()
      ensures staticFunctions == null ==> r == Success(0)
      ensures staticFunctions != null ==> (r.Success? <==> staticFunctions.functions.Some?)
      ensures staticFunctions != null && r.Success? ==> r.value == |staticFunctions.functions.value|
    {
      if staticFunctions == null then Success(0) else staticFunctions.Size()
    }

    /**
     * `registerStaticFunctionCallback`: the table is committed, the native
     * side reports one function pointer per static function of the object
     * (`pointers`), and the table binds them for the object.
     */
    method RegisterStaticFunctionCallback(obj: Long, addresses: seq<Long>, pointers: seq<Long>) returns (r: Result<()>)
      requires staticFunctions != null ==> staticFunctions.Valid() && FunctionCommitFits(staticFunctions, addresses)
      modifies staticFunctions
      ensures staticFunctions == null ==> r == Success(())
      ensures staticFunctions != null ==> staticFunctions.Valid()
      ensures staticFunctions != null ==>
        && staticFunctions.functions == old(staticFunctions.functions)
        && staticFunctions.namesCache == old(staticFunctions.namesCache)
      ensures staticFunctions != null && old(staticFunctions.functions).None? ==> r == Failure(NullPointer) && unchanged(staticFunctions)
      ensures staticFunctions != null && old(staticFunctions.functions).Some? ==>
        && r == Success(())
        && staticFunctions.functionPointers == Some(old(staticFunctions.functionPointers).value[obj := Binding(pointers)])
        && staticFunctions.buffer != null
      ensures staticFunctions != null && old(staticFunctions.functions).Some? && old(staticFunctions.buffer) != null ==>
        staticFunctions.buffer == old(staticFunctions.buffer)
      ensures staticFunctions != null && old(staticFunctions.functions).Some? && old(staticFunctions.buffer) == null ==>
        && fresh(staticFunctions.buffer)
        && staticFunctions.buffer[..] == RecordTables.Image(old(staticFunctions.PendingRecords(addresses)), 2, staticFunctions.platform.staticFunctionSize, staticFunctions.platform.long)
    {
      if staticFunctions != null {
        var size := staticFunctions.Size();
        if size.Failure? {
          return Failure(size.error);
        }
        var committed := staticFunctions.Commit(addresses);
        r := staticFunctions.RegisterFunctions(obj, pointers);
      } else {
        r := Success(());
      }
    }

    /** `JSObjectCallAsFunctionCallback`. */
    method CallAsFunctionCallback(func: Long, thisObject: Long, arguments: seq<Long>) returns (r: Result<Long>)
      requires rt.Valid() && this in rt.defs
      ensures r == CallAsFunctionOutcome(HooksAlong(rt.defs, this), func, thisObject, arguments)
      decreases rank
    {
      if hooks.callAsFunction.Some? {
        return Success(hooks.callAsFunction.value(func, thisObject, arguments));
      }
      if hasParent {
        assert Parent() in rt.defs;
        r := Parent().CallAsFunctionCallback(func, thisObject, arguments);
        return;
      }
      r := Failure(CallAsFunctionMissing(thisObject));
    }

    /** `JSObjectSetStaticValueCallback`. */
    method SetStaticValueCallback(obj: Long, propertyName: string, value: Long) returns (r: Result<bool>)
      requires rt.Valid() && this in rt.defs
      ensures r == SetStaticOutcome(SetterSlots(rt.defs, this, propertyName), obj, propertyName, value)
      decreases rank
    {
      if staticValues != null {
        var found := staticValues.ContainsSetter(propertyName);
        if found.Failure? {
          return Failure(found.error);
        }
        if found.value {
          var callback := staticValues.GetSetPropertyCallback(propertyName).value;
          if callback.None? {
            return Success(false);
          }
          return Success(callback.value(obj, propertyName, value));
        }
      }
      if hasParent {
        assert Parent() in rt.defs;
        r := Parent().SetStaticValueCallback(obj, propertyName, value);
        return;
      }
      r := Success(false);
    }

    /** `JSObjectGetStaticValueCallback`. */
    method GetStaticValueCallback(obj: Long, propertyName: string) returns (r: Result<Long>)
      requires rt.Valid() && this in rt.defs
      ensures r == GetStaticOutcome(GetterSlots(rt.defs, this, propertyName), obj, propertyName)
      decreases rank
    {
      if staticValues != null {
        var found := staticValues.ContainsGetter(propertyName);
        if found.Failure? {
          return Failure(found.error);
        }
        if found.value {
          var callback := staticValues.GetGetPropertyCallback(propertyName).value;
          if callback.None? {
            return Success(0);
          }
          return Success(callback.value(obj, propertyName));
        }
      }
      if hasParent {
        assert Parent() in rt.defs;
        r := Parent().GetStaticValueCallback(obj, propertyName);
        return;
      }
      r := Failure(StaticValueMissing(propertyName, obj));
    }

    /**
     * `JSObjectStaticFunctionCallback`: a class with a table first has the
     * object's function pointers registered in it when they are not yet
     * (`addresses` and `pointers` give, per table, the native copies of the
     * names and the pointers the native side reports), then looks the
     * function up; a `null` callback or a class without a table hands the
     * call to the parent. The answer is what the tables say once
     * registered; a table changes only by that registration.
     */
    method StaticFunctionCallback(func: Long, thisObject: Long, arguments: seq<Long>,
                                  addresses: StaticFunctionTable -> seq<Long>, pointers: StaticFunctionTable -> seq<Long>,
                                  ghost tables: set<StaticFunctionTable>)
      returns (r: Result<Long>)
      requires rt.Valid() && this in rt.defs && tables == FunctionTables(rt.defs) && TablesReady(tables, addresses)
      modifies tables
      ensures rt.Valid() && TablesReady(tables, addresses)
      ensures ListsOf(tables) == old(ListsOf(tables))
      ensures AllRegistered(old(BindingsOf(tables)), BindingsOf(tables), thisObject, pointers)
      ensures staticFunctions != null && old(staticFunctions.functionPointers).Some? ==>
        staticFunctions.functionPointers.Some? && thisObject in staticFunctions.functionPointers.value
      ensures r == StaticFunctionOutcome(FunctionSlots(rt.defs, this, thisObject, func), func, thisObject, arguments)
      decreases rank, 2
    {
      var slot := ConsultOwnTable(func, thisObject, addresses, pointers, tables);
      if Settles(slot) {
        return if slot.Fail? then Failure(slot.error) else Success(slot.hook.value(func, thisObject, arguments));
      }
      ghost var mid := BindingsOf(tables);
      r := DelegateStaticFunction(func, thisObject, arguments, addresses, pointers, tables);
      AllRegisteredTwice(old(BindingsOf(tables)), mid, BindingsOf(tables), thisObject, pointers);
    }

    /** The class's own table's answer, seen from all the tables: only that one may change. */
    method ConsultOwnTable(func: Long, thisObject: Long,
                           addresses: StaticFunctionTable -> seq<Long>, pointers: StaticFunctionTable -> seq<Long>,
                           ghost tables: set<StaticFunctionTable>)
      returns (slot: Slot<CallAsFunctionHook>)
      requires rt.Valid() && this in rt.defs && tables == FunctionTables(rt.defs) && TablesReady(tables, addresses)
      modifies tables
      ensures TablesReady(tables, addresses)
      ensures ListsOf(tables) == old(ListsOf(tables))
      ensures AllRegistered(old(BindingsOf(tables)), BindingsOf(tables), thisObject, pointers)
      ensures staticFunctions != null && old(staticFunctions.functionPointers).Some? ==>
        staticFunctions.functionPointers.Some? && thisObject in staticFunctions.functionPointers.value
      ensures staticFunctions != null && !Settles(slot) ==>
        staticFunctions.functionPointers.Some? && thisObject in staticFunctions.functionPointers.value
      ensures slot == FunctionSlot(staticFunctions, thisObject, func)
    {
      var t := staticFunctions;
      if t == null {
        return Pass;
      }
      assert t in tables;
      ghost var lists := ListsOf(tables);
      ghost var bindings := BindingsOf(tables);
      slot := ConsultFunctions(func, thisObject, addresses(t), pointers(t));
      assert ListsOf(tables) == lists;
      RegisteredOne(bindings, t, t.functionPointers, thisObject, pointers);
      assert BindingsOf(tables) == bindings[t := t.functionPointers];
    }

    /**
     * The rest of `JSObjectStaticFunctionCallback` once the class's own
     * table has not settled the call: the parent's chain, or the exception.
     */
    method DelegateStaticFunction(func: Long, thisObject: Long, arguments: seq<Long>,
                                  addresses: StaticFunctionTable -> seq<Long>, pointers: StaticFunctionTable -> seq<Long>,
                                  ghost tables: set<StaticFunctionTable>)
      returns (r: Result<Long>)
      requires rt.Valid() && this in rt.defs && tables == FunctionTables(rt.defs) && TablesReady(tables, addresses)
      requires !Settles(FunctionSlot(staticFunctions, thisObject, func))
      requires staticFunctions != null ==>
        staticFunctions.functionPointers.Some? && thisObject in staticFunctions.functionPointers.value
      modifies tables
      ensures rt.Valid() && TablesReady(tables, addresses)
      ensures ListsOf(tables) == old(ListsOf(tables))
      ensures AllRegistered(old(BindingsOf(tables)), BindingsOf(tables), thisObject, pointers)
      ensures staticFunctions != null ==> staticFunctions.functionPointers == old(staticFunctions.functionPointers)
      ensures r == StaticFunctionOutcome(FunctionSlots(rt.defs, this, thisObject, func), func, thisObject, arguments)
      decreases rank, 1
    {
      if hasParent {
        r := DelegateToParent(func, thisObject, arguments, addresses, pointers, tables);
      } else {
        r := Failure(StaticFunctionMissing(thisObject));
      }
    }

    /** The parent's chain answers a call the class's own table has not settled. */
    method DelegateToParent(func: Long, thisObject: Long, arguments: seq<Long>,
                            addresses: StaticFunctionTable -> seq<Long>, pointers: StaticFunctionTable -> seq<Long>,
                            ghost tables: set<StaticFunctionTable>)
      returns (r: Result<Long>)
      requires rt.Valid() && this in rt.defs && hasParent && tables == FunctionTables(rt.defs) && TablesReady(tables, addresses)
      requires !Settles(FunctionSlot(staticFunctions, thisObject, func))
      requires staticFunctions != null ==>
        staticFunctions.functionPointers.Some? && thisObject in staticFunctions.functionPointers.value
      modifies tables
      ensures rt.Valid() && TablesReady(tables, addresses)
      ensures ListsOf(tables) == old(ListsOf(tables))
      ensures AllRegistered(old(BindingsOf(tables)), BindingsOf(tables), thisObject, pointers)
      ensures staticFunctions != null ==> staticFunctions.functionPointers == old(staticFunctions.functionPointers)
      ensures r == StaticFunctionOutcome(FunctionSlots(rt.defs, this, thisObject, func), func, thisObject, arguments)
      decreases rank, 0
    {
      var t := staticFunctions;
      ghost var slot := FunctionSlot(t, thisObject, func);
      assert Parent() in rt.defs;
      ghost var lists := ListsOf(tables);
      r := Parent().StaticFunctionCallback(func, thisObject, arguments, addresses, pointers, tables);
      if t != null {
        assert t in tables;
        assert old(BindingsOf(tables))[t] == old(t.functionPointers);
        assert BindingsOf(tables)[t] == t.functionPointers;
        assert lists[t] == ListsOf(tables)[t] == t.functions;
        assert FunctionSlot(t, thisObject, func) == slot;
      }
      assert FunctionSlots(rt.defs, this, thisObject, func) == [slot] + FunctionSlots(rt.defs, Parent(), thisObject, func);
    }

    /**
     * The part of `JSObjectStaticFunctionCallback` that consults the class's
     * own table: the object's pointers are registered if they are not yet,
     * then the function is looked up.
     */
    method ConsultFunctions(func: Long, thisObject: Long, addresses: seq<Long>, pointers: seq<Long>)
      returns (slot: Slot<CallAsFunctionHook>)
      requires staticFunctions != null && staticFunctions.Valid() && FunctionCommitFits(staticFunctions, addresses)
      modifies staticFunctions
      ensures staticFunctions.Valid() && FunctionCommitFits(staticFunctions, addresses)
      ensures staticFunctions.functions == old(staticFunctions.functions)
      ensures Registered(old(staticFunctions.functionPointers), staticFunctions.functionPointers, thisObject, pointers)
      ensures old(staticFunctions.functionPointers).Some? ==>
        staticFunctions.functionPointers.Some? && thisObject in staticFunctions.functionPointers.value
      ensures slot == FunctionSlot(staticFunctions, thisObject, func)
    {
      var t := staticFunctions;
      var requested := t.RequestFunctions(thisObject);
      if requested.Failure? {
        return Fail(requested.error);
      }
      if requested.value {
        var _ := RegisterStaticFunctionCallback(thisObject, addresses, pointers);
      }
      var callback := t.GetFunction(thisObject, func);
      if callback.Failure? {
        return Fail(callback.error);
      }
      slot := Hit(callback.value);
    }

    /** `JSObjectInitializeCallback`: the parent's chain first, then the own `initialize`. */
    method InitializeCallback(obj: Long)
      requires rt.Valid() && this in rt.defs
      modifies rt`log
      ensures rt.Valid()
      ensures rt.log == old(rt.log) + InitializeEvents(HooksAlong(rt.defs, this), obj)
      decreases rank
    {
      if hasParent {
        assert Parent() in rt.defs;
        Parent().InitializeCallback(obj);
      }
      if hooks.initialize.Some? {
        rt.log := rt.log + [Initialized(hooks.initialize.value, obj)];
      }
    }

    /**
     * `JSObjectFinalizeCallback`: the own `finalize`, and only then the
     * parent's chain; whatever the chain did, the object is forgotten by
     * the memo maps and the registries and unbound from exactly the tables
     * of the classes the walk visits, which stops at the first class
     * without `finalize`. Unbinding from a disposed table throws, and the
     * exception skips what the callers up the recursion had left to do.
     */
    method FinalizeCallback(obj: Long, ghost tables: set<StaticFunctionTable>, ghost events: seq<LifecycleEvent>,
                            ghost ts: set<StaticFunctionTable>)
      returns (r: Result<()>)
      requires rt.Valid() && this in rt.defs && tables == FunctionTables(rt.defs) && TablesValid(tables)
      requires events == FinalizeEvents(HooksAlong(rt.defs, this), obj)
      requires ts == FinalizedTables(rt.defs, this)
      modifies rt`log, rt`memo, rt`functionCallbacks, rt`constructorCallbacks, tables
      ensures rt.Valid() && TablesValid(tables)
      ensures rt.log == old(rt.log) + events
      ensures Released(old(Traces(rt, tables)), Traces(rt, tables), obj, r, ts)
      decreases rank, 3
    {
      FinalizeEventsStep(rt.defs, this, obj);
      if hooks.finalize.None? {
        assert ts == OwnTable(this);
        r := ReleaseObject(obj, tables);
        return;
      }
      r := FinalizeOwn(obj, tables, events, ts);
    }

    /** `JSObjectFinalizeCallback` of a class with a `finalize` callback: it runs before anything else. */
    method FinalizeOwn(obj: Long, ghost tables: set<StaticFunctionTable>, ghost events: seq<LifecycleEvent>,
                       ghost ts: set<StaticFunctionTable>)
      returns (r: Result<()>)
      requires rt.Valid() && this in rt.defs && tables == FunctionTables(rt.defs) && TablesValid(tables)
      requires hooks.finalize.Some?
      requires events == [Finalized(hooks.finalize.value, obj)] + if hasParent then FinalizeEvents(HooksAlong(rt.defs, Parent()), obj) else []
      requires ts == OwnTable(this) + if hasParent then FinalizedTables(rt.defs, Parent()) else {}
      modifies rt`log, rt`memo, rt`functionCallbacks, rt`constructorCallbacks, tables
      ensures rt.Valid() && TablesValid(tables)
      ensures rt.log == old(rt.log) + events
      ensures Released(old(Traces(rt, tables)), Traces(rt, tables), obj, r, ts)
      decreases rank, 2
    {
      var own := Finalized(hooks.finalize.value, obj);
      ghost var rest := if hasParent then FinalizeEvents(HooksAlong(rt.defs, Parent()), obj) else [];
      ghost var before := Traces(rt, tables);
      rt.Record(own);
      assert unchanged(rt.defs);
      assert Traces(rt, tables) == before;
      r := FinalizeParent(obj, tables, rest, ts);
      AppendAssociates(old(rt.log), [own], rest);
    }

    /**
     * The rest of `JSObjectFinalizeCallback` once the own `finalize` has
     * run: the parent's chain, if any, then the clearing, which the
     * parent's exception skips.
     */
    method FinalizeParent(obj: Long, ghost tables: set<StaticFunctionTable>, ghost events: seq<LifecycleEvent>,
                          ghost ts: set<StaticFunctionTable>)
      returns (r: Result<()>)
      requires rt.Valid() && this in rt.defs && tables == FunctionTables(rt.defs) && TablesValid(tables)
      requires events == if hasParent then FinalizeEvents(HooksAlong(rt.defs, Parent()), obj) else []
      requires ts == OwnTable(this) + if hasParent then FinalizedTables(rt.defs, Parent()) else {}
      modifies rt`log, rt`memo, rt`functionCallbacks, rt`constructorCallbacks, tables
      ensures rt.Valid() && TablesValid(tables)
      ensures rt.log == old(rt.log) + events
      ensures Released(old(Traces(rt, tables)), Traces(rt, tables), obj, r, ts)
      decreases rank, 1
    {
      if hasParent {
        r := FinalizeChain(obj, tables, events, FinalizedTables(rt.defs, Parent()), ts);
      } else {
        assert events == [];
        assert ts == OwnTable(this);
        r := ReleaseObject(obj, tables);
      }
    }

    /** The parent's chain, then the clearing, which the parent's exception skips. */
    method FinalizeChain(obj: Long, ghost tables: set<StaticFunctionTable>, ghost events: seq<LifecycleEvent>,
                         ghost up: set<StaticFunctionTable>, ghost ts: set<StaticFunctionTable>)
      returns (r: Result<()>)
      requires rt.Valid() && this in rt.defs && hasParent && tables == FunctionTables(rt.defs) && TablesValid(tables)
      requires events == FinalizeEvents(HooksAlong(rt.defs, Parent()), obj)
      requires up == FinalizedTables(rt.defs, Parent()) && ts == OwnTable(this) + up
      modifies rt`log, rt`memo, rt`functionCallbacks, rt`constructorCallbacks, tables
      ensures rt.Valid() && TablesValid(tables)
      ensures rt.log == old(rt.log) + events
      ensures Released(old(Traces(rt, tables)), Traces(rt, tables), obj, r, ts)
      decreases rank, 0
    {
      var p := Parent();
      assert p in rt.defs && p.rt == rt;
      ghost var before := Traces(rt, tables);
      assert ts == up + OwnTable(this);
      var parent := p.FinalizeCallback(obj, tables, events, up);
      r := ReleaseAfterParent(obj, tables, before, up, ts, parent);
    }

    /**
     * The clearing once the parent's chain, which released the object from
     * the tables `up`, returned `parent`; its exception skips the clearing.
     */
    method ReleaseAfterParent(obj: Long, ghost tables: set<StaticFunctionTable>, ghost before: Trace,
                              ghost up: set<StaticFunctionTable>, ghost ts: set<StaticFunctionTable>, parent: Result<()>)
      returns (r: Result<()>)
      requires rt.Valid() && this in rt.defs && OwnTable(this) <= tables && TablesValid(tables)
      requires ts == up + OwnTable(this) && Released(before, Traces(rt, tables), obj, parent, up)
      modifies rt`memo, rt`functionCallbacks, rt`constructorCallbacks, tables
      ensures rt.Valid() && TablesValid(tables)
      ensures Released(before, Traces(rt, tables), obj, r, ts)
    {
      if parent.Failure? {
        ReleasedFailed(before, Traces(rt, tables), obj, parent, up, OwnTable(this));
        return parent;
      }
      ghost var mid := Traces(rt, tables);
      r := ReleaseObject(obj, tables);
      ReleasedTwice(before, mid, Traces(rt, tables), obj, parent, r, up, OwnTable(this));
    }

    /**
     * The end of `JSObjectFinalizeCallback`: `clearPrototypeChain` and
     * `clearStaticFunctions`; of the tables, only the class's own changes.
     */
    method ReleaseObject(obj: Long, ghost tables: set<StaticFunctionTable>) returns (r: Result<()>)
      requires rt.Valid() && this in rt.defs && OwnTable(this) <= tables && TablesValid(tables)
      modifies rt`memo, rt`functionCallbacks, rt`constructorCallbacks, tables
      ensures rt.Valid() && TablesValid(tables)
      ensures Released(old(Traces(rt, tables)), Traces(rt, tables), obj, r, OwnTable(this))
    {
      ghost var bindings, lists := BindingsOf(tables), ListsOf(tables);
      rt.ClearPrototypeChain(obj);
      assert BindingsOf(tables) == bindings && ListsOf(tables) == lists;
      r := ClearOwnTable(obj, tables);
    }

    /** `clearStaticFunctions` seen from all the tables: only the class's own table changes. */
    method ClearOwnTable(obj: Long, ghost tables: set<StaticFunctionTable>) returns (r: Result<()>)
      requires rt.Valid() && this in rt.defs && OwnTable(this) <= tables && TablesValid(tables)
      modifies tables
      ensures rt.Valid() && TablesValid(tables)
      ensures ListsOf(tables) == old(ListsOf(tables))
      ensures TablesReleased(old(BindingsOf(tables)), BindingsOf(tables), obj, r, OwnTable(this))
    {
      var t := staticFunctions;
      ghost var bindings := BindingsOf(tables);
      if t == null {
        ReleasedNowhere(bindings, obj);
        return Success(());
      }
      assert t in tables;
      ghost var lists := ListsOf(tables);
      r := ClearStaticFunctions(obj);
      assert ListsOf(tables) == lists;
      assert BindingsOf(tables) == bindings[t := t.functionPointers];
      ReleasedOne(bindings, t, obj, r, t.functionPointers);
    }

    /** `clearStaticFunctions`: unbinds the object from the class's table, if it has one. */
    method ClearStaticFunctions(obj: Long) returns (r: Result<()>)
      modifies staticFunctions
      ensures staticFunctions == null ==> r == Success(())
      ensures staticFunctions != null ==>
        && staticFunctions.functions == old(staticFunctions.functions)
        && staticFunctions.namesCache == old(staticFunctions.namesCache)
        && staticFunctions.buffer == old(staticFunctions.buffer)
      ensures staticFunctions != null && old(staticFunctions.functionPointers).None? ==>
        r == Failure(NullPointer) && unchanged(staticFunctions)
      ensures staticFunctions != null && old(staticFunctions.functionPointers).Some? ==>
        r == Success(()) && staticFunctions.functionPointers == Some(old(staticFunctions.functionPointers).value - {obj})
    {
      if staticFunctions != null {
        r := staticFunctions.RemoveObject(obj);
      } else {
        r := Success(());
      }
    }

    /**
     * `copy`: a new definition (fetching the native template if none was
     * yet) with every public field of this one; the committed structure,
     * the parent flag and the two switches start afresh.
     */
    method Copy(native: seq<Byte>) returns (c: ClassDefinition)
      requires rt.Valid() && this in rt.defs && |native| == rt.platform.classDefinitionSize
      modifies rt`template, rt`defs, rt`clock
      ensures rt.Valid() && fresh(c) && rt.defs == old(rt.defs) + {c}
      ensures rt.template == old(rt.template)
      ensures c.rt == rt && c.version == version && c.attributes == attributes && c.className == className
      ensures c.parentClass == parentClass && c.staticValues == staticValues && c.staticFunctions == staticFunctions
      ensures c.hooks == hooks
      ensures c.buffer == null && !c.hasParent && !c.forceCallAsConstructor && c.forceFinalizeCall
    {
      assert parentClass.Some? && parentClass.value.definition != null ==> Parent() in rt.defs;
      c := new ClassDefinition(rt, native, version, attributes, className, parentClass, staticValues, staticFunctions, hooks);
    }

    /** `enableConstructor`: whether `commit` sets the `callAsConstructor` slot without a callback. */
    method EnableConstructor(enabled: bool)
      requires rt.Valid() && this in rt.defs
      modifies this`forceCallAsConstructor
      ensures rt.Valid() && forceCallAsConstructor == enabled
    {
      forceCallAsConstructor := enabled;
    }

    /** `callAsConstructor = callback`: the field is assigned, the committed structure is left as it is. */
    method SetCallAsConstructor(callback: CallAsConstructorHook)
      requires rt.Valid() && this in rt.defs
      modifies this`hooks
      ensures rt.Valid() && hooks == old(hooks).(callAsConstructor := Some(callback))
    {
      hooks := hooks.(callAsConstructor := Some(callback));
    }

    /** `enableFinalize`: whether `commit` sets the `finalize` slot. */
    method EnableFinalize(enabled: bool)
      requires rt.Valid() && this in rt.defs
      modifies this`forceFinalizeCall
      ensures rt.Valid() && forceFinalizeCall == enabled
    {
      forceFinalizeCall := enabled;
    }

    /**
     * `dispose`: drops the committed structure, disposes and drops both
     * tables, empties every memo map and both registries (of all
     * definitions, as they are shared), and clears the parent class and
     * every callback field.
     */
    method Dispose()
      requires rt.Valid() && this in rt.defs
      requires staticFunctions != null ==> staticFunctions.Valid()
      requires staticValues != null ==> staticValues.Valid()
      modifies this`buffer, this`staticFunctions, this`staticValues, staticFunctions, staticValues
      modifies rt`memo, rt`functionCallbacks, rt`constructorCallbacks
      modifies this`parentClass, this`hooks, this`hasParent, this`forceCallAsConstructor, this`forceFinalizeCall
      ensures rt.Valid()
      ensures buffer == null && staticFunctions == null && staticValues == null
      ensures old(staticFunctions) != null ==>
        && old(staticFunctions).Valid()
        && old(staticFunctions).functionPointers.None? && old(staticFunctions).functions.None?
        && old(staticFunctions).buffer == null && old(staticFunctions).namesCache.None?
      ensures old(staticValues) != null ==>
        && old(staticValues).Valid()
        && old(staticValues).values.None? && old(staticValues).buffer == null && old(staticValues).namesCache.None?
        && old(staticValues).frozen == old(staticValues.frozen)
      ensures rt.memo == map[] && rt.functionCallbacks == map[] && rt.constructorCallbacks == map[]
      ensures parentClass.None? && hooks == NoHooks
      ensures !hasParent && !forceCallAsConstructor && forceFinalizeCall
    {
      DisposeTables();
      rt.ClearAll();
      Detach();
      ResetCallbacks();
    }

    /** The last part of `dispose`: every callback field is cleared and the two switches are reset. */
    method ResetCallbacks()
      modifies this`hooks, this`forceCallAsConstructor, this`forceFinalizeCall
      ensures hooks == NoHooks && !forceCallAsConstructor && forceFinalizeCall
    {
      hooks := NoHooks;
      forceCallAsConstructor := false;
      forceFinalizeCall := true;
    }

    /** The first part of `dispose`: the committed structure and both tables are dropped, the tables disposed. */
    method DisposeTables()
      requires staticFunctions != null ==> staticFunctions.Valid()
      requires staticValues != null ==> staticValues.Valid()
      modifies this`buffer, this`staticFunctions, this`staticValues, staticFunctions, staticValues
      ensures buffer == null && staticFunctions == null && staticValues == null
      ensures old(staticFunctions) != null ==>
        && old(staticFunctions).Valid()
        && old(staticFunctions).functionPointers.None? && old(staticFunctions).functions.None?
        && old(staticFunctions).buffer == null && old(staticFunctions).namesCache.None?
      ensures old(staticValues) != null ==>
        && old(staticValues).Valid()
        && old(staticValues).values.None? && old(staticValues).buffer == null && old(staticValues).namesCache.None?
        && old(staticValues).frozen == old(staticValues.frozen)
    {
      buffer := null;
      if staticFunctions != null {
        staticFunctions.Dispose();
        staticFunctions := null;
      }
      if staticValues != null {
        staticValues.Dispose();
        staticValues := null;
      }
    }

    /** `parentClass = null` and `hasParent = false` in `dispose`: a class without a parent keeps the definitions linked. */
    method Detach()
      requires rt.Valid() && this in rt.defs
      modifies this`parentClass, this`hasParent
      ensures rt.Valid()
      ensures parentClass.None? && !hasParent
    {
      parentClass := None;
      hasParent := false;
    }
  }

  /** What one class contributes to the dispatch of one request: its callback's answer and its link to its parent. */
  datatype Node = Node(answer: Answer, hasParent: bool, parent: ClassDefinition?, rank: nat)

  /** The classes as one request sees them. */
  type View = map<ClassDefinition, Node>

  /** A class that forwards to its parent has one, and it is older. */
  ghost predicate Sound(v: View)
  {
    forall d :: d in v && v[d].hasParent ==> v[d].parent != null && v[d].parent in v && v[v[d].parent].rank < v[d].rank
  }

  /** Every memo entry names a class of the view. */
  ghost predicate Known(v: View, memo: Memo)
  {
    forall k :: k in memo ==> memo[k] in v
  }

  /** The definitions as the request `req` sees them. */
  ghost function ViewOf(defs: set<ClassDefinition>, req: Request): (v: View)
    requires Linked(defs)
    reads defs
    ensures Sound(v)
    ensures v.Keys == defs
    ensures forall d :: d in defs ==> v[d] == Node(Local(d.hooks, req), d.hasParent, d.Parent(), d.rank)
  {
    map d | d in defs :: Node(Local(d.hooks, req), d.hasParent, d.Parent(), d.rank)
  }

  /**
   * The order of a memo-led call: a call whose memo names another class
   * goes just above that class, and a class goes above its parent.
   */
  ghost function Measure(v: View, memo: Memo, d: ClassDefinition, key: MemoKey): (r: nat)
  {
    if key in memo && memo[key] != d && memo[key] in v then 3 * v[memo[key]].rank + 2
    else if d in v then 3 * v[d].rank + 1
    else 0
  }

  /**
   * What a chained callback called on `d` returns, and what the memo
   * becomes: the four cases of every `JSObject...Callback` that consults a
   * memo map.
   */
  ghost function Outcome(v: View, memo: Memo, d: ClassDefinition, req: Request): (r: (Result<Reply>, Memo))
    requires Sound(v) && d in v && Known(v, memo)
    ensures Known(v, r.1)
    decreases Measure(v, memo, d, req.Key())
  {
    var key := req.Key();
    if key in memo && memo[key] != d then Outcome(v, memo, memo[key], req)
    else
      var local := v[d].answer;
      if local.Some? && local.value.Failure? then (local.value, memo)
      else if local.Some? && local.value.value.accepted then (local.value, memo - {key})
      else if v[d].hasParent then
        var pinned := memo[key := v[d].parent];
        if local.None? then Outcome(v, pinned, d, req) else (Declined(req, local), pinned)
      else (Declined(req, local), memo - {key})
  }

  /**
   * A class that does not settle the request and has a parent pins the
   * memo to the parent; an unanswered request then starts again, a
   * declined one is declined here.
   */
  lemma OutcomeForwards(v: View, memo: Memo, d: ClassDefinition, req: Request)
    requires Sound(v) && d in v && Known(v, memo)
    requires req.Key() !in memo || memo[req.Key()] == d
    requires v[d].hasParent
    requires v[d].answer.None? || (v[d].answer.value.Success? && !v[d].answer.value.value.accepted)
    ensures v[d].parent in v && Known(v, memo[req.Key() := v[d].parent])
    ensures Outcome(v, memo, d, req) ==
      if v[d].answer.None? then Outcome(v, memo[req.Key() := v[d].parent], d, req)
      else (Declined(req, v[d].answer), memo[req.Key() := v[d].parent])
  {
  }

  /**
   * What `dispose` leaves behind answers nothing: a class without
   * callbacks or parent, reached with no memo entry, declines (`false`, 0,
   * no names, or the exception of `callAsConstructor`) and adds no entry.
   */
  lemma DisposedDeclines(v: View, memo: Memo, d: ClassDefinition, req: Request)
    requires Sound(v) && d in v && Known(v, memo)
    requires v[d].answer == Local(NoHooks, req) && !v[d].hasParent && req.Key() !in memo
    ensures Outcome(v, memo, d, req) == (Declined(req, None), memo)
  {
    assert memo - {req.Key()} == memo;
  }

  /** Every answer of the view has the form its request allows. */
  ghost predicate ShapedView(v: View, req: Request)
  {
    forall d :: d in v && v[d].answer.Some? ==> Shaped(req, v[d].answer.value)
  }

  /** The callbacks' answers have the form their Java signatures allow. */
  lemma ViewShaped(defs: set<ClassDefinition>, req: Request)
    requires Linked(defs)
    ensures ShapedView(ViewOf(defs, req), req)
  {
    forall d | d in defs
      ensures Local(d.hooks, req).Some? ==> Shaped(req, Local(d.hooks, req).value)
    {
      LocalShape(d.hooks, req);
    }
  }

  /**
   * What a chained callback returns has the form its Java signature
   * allows: only `convertToType` and `callAsConstructor` throw, the
   * boolean callbacks carry no value, `getProperty` and `convertToType`
   * accept exactly with a non-null value, only `getPropertyNames` adds
   * names and it never accepts, and `callAsConstructor` always accepts.
   */
  lemma {:induction false} OutcomeShape(v: View, memo: Memo, d: ClassDefinition, req: Request)
    requires Sound(v) && d in v && Known(v, memo) && ShapedView(v, req)
    ensures Shaped(req, Outcome(v, memo, d, req).0)
    decreases Measure(v, memo, d, req.Key())
  {
    var key := req.Key();
    if key in memo && memo[key] != d {
      OutcomeShape(v, memo, memo[key], req);
    } else if v[d].answer.None? && v[d].hasParent {
      OutcomeShape(v, memo[key := v[d].parent], d, req);
    }
  }

  /** A chained callback changes only the memo entry of its own map for its own object. */
  lemma {:induction false} OutcomeKeepsOthers(v: View, memo: Memo, d: ClassDefinition, req: Request)
    requires Sound(v) && d in v && Known(v, memo)
    ensures Outcome(v, memo, d, req).1 - {req.Key()} == memo - {req.Key()}
    decreases Measure(v, memo, d, req.Key())
  {
    var key := req.Key();
    if key in memo && memo[key] != d {
      OutcomeKeepsOthers(v, memo, memo[key], req);
    } else if v[d].answer.None? && v[d].hasParent {
      var pinned := memo[key := v[d].parent];
      OutcomeKeepsOthers(v, pinned, d, req);
      assert pinned - {key} == memo - {key};
    }
  }

  /** The seventeen fields of the native structure. */
  const AllFields: set<Field> := {
    Version, Attributes, ClassName, ParentClass, StaticValues, StaticFunctions, Initialize, Finalize,
    Field.HasProperty, Field.GetProperty, Field.SetProperty, Field.DeleteProperty, Field.GetPropertyNames,
    CallAsFunction, Field.CallAsConstructor, Field.HasInstance, Field.ConvertToType}

  /**
   * Whether `commit` writes slot `f`: the class name and the two static
   * tables never, as the native side receives them as separate arguments.
   */
  predicate CommitWrites(f: Field, parentClass: Option<ClassRef>, hooks: Hooks,
                         forceCallAsConstructor: bool, forceFinalizeCall: bool)
  {
    match f
    case Version => true
    case Attributes => true
    case ClassName => false
    case ParentClass => parentClass.Some?
    case StaticValues => false
    case StaticFunctions => false
    case Initialize => hooks.initialize.Some?
    case Finalize => forceFinalizeCall
    case HasProperty => hooks.hasProperty.Some?
    case GetProperty => hooks.getProperty.Some?
    case SetProperty => hooks.setProperty.Some?
    case DeleteProperty => hooks.deleteProperty.Some?
    case GetPropertyNames => hooks.getPropertyNames.Some?
    case CallAsFunction => hooks.callAsFunction.Some?
    case CallAsConstructor => forceCallAsConstructor || hooks.callAsConstructor.Some?
    case HasInstance => hooks.hasInstance.Some?
    case ConvertToType => hooks.convertToType.Some?
  }

  /** What `commit` puts in slot `f` when it writes it: a callback slot gets the template's trampoline. */
  function CommitValue(f: Field, version: Int32, attributes: Int32, parentClass: Option<ClassRef>,
                       template: seq<Byte>, p: Platform): Long
    requires p.Valid() && |template| == p.classDefinitionSize
  {
    match f
    case Version => version
    case Attributes => attributes
    case ParentClass => if parentClass.Some? then parentClass.value.handle else 0
    case _ => ReadField(template, p, f)
  }

  /** The slots `commit` writes and the value it puts in each. */
  function CommitPlan(version: Int32, attributes: Int32, parentClass: Option<ClassRef>, hooks: Hooks,
                      forceCallAsConstructor: bool, forceFinalizeCall: bool, template: seq<Byte>, p: Platform): (plan: map<Field, Long>)
    requires p.Valid() && |template| == p.classDefinitionSize
    ensures PlanFits(plan)
  {
    map f | CommitWrites(f, parentClass, hooks, forceCallAsConstructor, forceFinalizeCall)
      :: CommitValue(f, version, attributes, parentClass, template, p)
  }

  /** The slots `commit` may write, in the order it writes them. */
  const CommitOrder: seq<Field> := [
    Version, Attributes, ParentClass, Initialize, Field.HasProperty, Field.GetProperty, Field.SetProperty,
    Field.DeleteProperty, Field.GetPropertyNames, CallAsFunction, Field.CallAsConstructor, Field.HasInstance,
    Field.ConvertToType, Finalize]

  /**
   * The writes of `commit` on a fresh zero-filled structure, in the order
   * the binding makes them; a callback slot gets the trampoline address
   * the native template holds there.
   */
  method WriteDefinition(p: Platform, template: seq<Byte>, version: Int32, attributes: Int32,
                         parentClass: Option<ClassRef>, hooks: Hooks,
                         forceCallAsConstructor: bool, forceFinalizeCall: bool) returns (b: array<Byte>)
    requires p.Valid() && |template| == p.classDefinitionSize
    ensures fresh(b) && b.Length == p.classDefinitionSize
    ensures forall f :: ReadField(b[..], p, f) ==
                        Planned(CommitPlan(version, attributes, parentClass, hooks, forceCallAsConstructor, forceFinalizeCall, template, p), f, p.long)
  {
    ghost var plan := CommitPlan(version, attributes, parentClass, hooks, forceCallAsConstructor, forceFinalizeCall, template, p);
    b := new Byte[p.classDefinitionSize](_ => 0);
    ghost var start := b[..];
    CommitReads(start, p, plan);
    WriteHeader(b, p, template, version, attributes, parentClass, hooks, forceCallAsConstructor, forceFinalizeCall, plan, start);
    WritePropertyReads(b, p, template, version, attributes, parentClass, hooks, forceCallAsConstructor, forceFinalizeCall, plan, start);
    WritePropertyWrites(b, p, template, version, attributes, parentClass, hooks, forceCallAsConstructor, forceFinalizeCall, plan, start);
    WriteNamesAndCall(b, p, template, version, attributes, parentClass, hooks, forceCallAsConstructor, forceFinalizeCall, plan, start);
    WriteConstruction(b, p, template, version, attributes, parentClass, hooks, forceCallAsConstructor, forceFinalizeCall, plan, start);
    WriteConversion(b, p, template, version, attributes, parentClass, hooks, forceCallAsConstructor, forceFinalizeCall, plan, start);
  }

  /** The version, the attributes, the parent class and `initialize`. */
  method WriteHeader(b: array<Byte>, p: Platform, template: seq<Byte>, version: Int32, attributes: Int32, parentClass: Option<ClassRef>,
                    hooks: Hooks, forceCallAsConstructor: bool, forceFinalizeCall: bool,
                    ghost plan: map<Field, Long>, ghost start: seq<Byte>)
    requires p.Valid() && |template| == p.classDefinitionSize && b.Length == p.classDefinitionSize && |start| == b.Length
    requires plan == CommitPlan(version, attributes, parentClass, hooks, forceCallAsConstructor, forceFinalizeCall, template, p)
    requires b[..] == ApplyFirst(start, p, plan, CommitOrder, 0)
    modifies b
    ensures b[..] == ApplyFirst(start, p, plan, CommitOrder, 4)
  {
    CommitOrderAt();
    CommitPlanAt(version, attributes, parentClass, hooks, forceCallAsConstructor, forceFinalizeCall, template, p, Version);
    WriteSlot(b, p, 0, Version, true, version, plan, start);
    CommitPlanAt(version, attributes, parentClass, hooks, forceCallAsConstructor, forceFinalizeCall, template, p, Attributes);
    WriteSlot(b, p, 1, Attributes, true, attributes, plan, start);
    CommitPlanAt(version, attributes, parentClass, hooks, forceCallAsConstructor, forceFinalizeCall, template, p, ParentClass);
    CommitPlanAt(version, attributes, parentClass, hooks, forceCallAsConstructor, forceFinalizeCall, template, p, Initialize);
    WriteSlot(b, p, 2, ParentClass, parentClass.Some?, if parentClass.Some? then parentClass.value.handle else 0, plan, start);
    assert b[..] == ApplyFirst(start, p, plan, CommitOrder, 3);
    WriteSlot(b, p, 3, Initialize, hooks.initialize.Some?, ReadField(template, p, Initialize), plan, start);
  }

  /** `hasProperty` and `getProperty`. */
  method WritePropertyReads(b: array<Byte>, p: Platform, template: seq<Byte>, version: Int32, attributes: Int32, parentClass: Option<ClassRef>,
                    hooks: Hooks, forceCallAsConstructor: bool, forceFinalizeCall: bool,
                    ghost plan: map<Field, Long>, ghost start: seq<Byte>)
    requires p.Valid() && |template| == p.classDefinitionSize && b.Length == p.classDefinitionSize && |start| == b.Length
    requires plan == CommitPlan(version, attributes, parentClass, hooks, forceCallAsConstructor, forceFinalizeCall, template, p)
    requires b[..] == ApplyFirst(start, p, plan, CommitOrder, 4)
    modifies b
    ensures b[..] == ApplyFirst(start, p, plan, CommitOrder, 6)
  {
    CommitOrderAt();
    CommitPlanAt(version, attributes, parentClass, hooks, forceCallAsConstructor, forceFinalizeCall, template, p, Field.HasProperty);
    CommitPlanAt(version, attributes, parentClass, hooks, forceCallAsConstructor, forceFinalizeCall, template, p, Field.GetProperty);
    WriteSlot(b, p, 4, Field.HasProperty, hooks.hasProperty.Some?, ReadField(template, p, Field.HasProperty), plan, start);
    assert b[..] == ApplyFirst(start, p, plan, CommitOrder, 5);
    WriteSlot(b, p, 5, Field.GetProperty, hooks.getProperty.Some?, ReadField(template, p, Field.GetProperty), plan, start);
  }

  /** `setProperty` and `deleteProperty`. */
  method WritePropertyWrites(b: array<Byte>, p: Platform, template: seq<Byte>, version: Int32, attributes: Int32, parentClass: Option<ClassRef>,
                    hooks: Hooks, forceCallAsConstructor: bool, forceFinalizeCall: bool,
                    ghost plan: map<Field, Long>, ghost start: seq<Byte>)
    requires p.Valid() && |template| == p.classDefinitionSize && b.Length == p.classDefinitionSize && |start| == b.Length
    requires plan == CommitPlan(version, attributes, parentClass, hooks, forceCallAsConstructor, forceFinalizeCall, template, p)
    requires b[..] == ApplyFirst(start, p, plan, CommitOrder, 6)
    modifies b
    ensures b[..] == ApplyFirst(start, p, plan, CommitOrder, 8)
  {
    CommitOrderAt();
    CommitPlanAt(version, attributes, parentClass, hooks, forceCallAsConstructor, forceFinalizeCall, template, p, Field.SetProperty);
    CommitPlanAt(version, attributes, parentClass, hooks, forceCallAsConstructor, forceFinalizeCall, template, p, Field.DeleteProperty);
    WriteSlot(b, p, 6, Field.SetProperty, hooks.setProperty.Some?, ReadField(template, p, Field.SetProperty), plan, start);
    assert b[..] == ApplyFirst(start, p, plan, CommitOrder, 7);
    WriteSlot(b, p, 7, Field.DeleteProperty, hooks.deleteProperty.Some?, ReadField(template, p, Field.DeleteProperty), plan, start);
  }

  /** `getPropertyNames` and `callAsFunction`. */
  method WriteNamesAndCall(b: array<Byte>, p: Platform, template: seq<Byte>, version: Int32, attributes: Int32, parentClass: Option<ClassRef>,
                    hooks: Hooks, forceCallAsConstructor: bool, forceFinalizeCall: bool,
                    ghost plan: map<Field, Long>, ghost start: seq<Byte>)
    requires p.Valid() && |template| == p.classDefinitionSize && b.Length == p.classDefinitionSize && |start| == b.Length
    requires plan == CommitPlan(version, attributes, parentClass, hooks, forceCallAsConstructor, forceFinalizeCall, template, p)
    requires b[..] == ApplyFirst(start, p, plan, CommitOrder, 8)
    modifies b
    ensures b[..] == ApplyFirst(start, p, plan, CommitOrder, 10)
  {
    CommitOrderAt();
    CommitPlanAt(version, attributes, parentClass, hooks, forceCallAsConstructor, forceFinalizeCall, template, p, Field.GetPropertyNames);
    CommitPlanAt(version, attributes, parentClass, hooks, forceCallAsConstructor, forceFinalizeCall, template, p, CallAsFunction);
    WriteSlot(b, p, 8, Field.GetPropertyNames, hooks.getPropertyNames.Some?, ReadField(template, p, Field.GetPropertyNames), plan, start);
    assert b[..] == ApplyFirst(start, p, plan, CommitOrder, 9);
    WriteSlot(b, p, 9, CallAsFunction, hooks.callAsFunction.Some?, ReadField(template, p, CallAsFunction), plan, start);
  }

  /** `callAsConstructor` and `hasInstance`. */
  method WriteConstruction(b: array<Byte>, p: Platform, template: seq<Byte>, version: Int32, attributes: Int32, parentClass: Option<ClassRef>,
                    hooks: Hooks, forceCallAsConstructor: bool, forceFinalizeCall: bool,
                    ghost plan: map<Field, Long>, ghost start: seq<Byte>)
    requires p.Valid() && |template| == p.classDefinitionSize && b.Length == p.classDefinitionSize && |start| == b.Length
    requires plan == CommitPlan(version, attributes, parentClass, hooks, forceCallAsConstructor, forceFinalizeCall, template, p)
    requires b[..] == ApplyFirst(start, p, plan, CommitOrder, 10)
    modifies b
    ensures b[..] == ApplyFirst(start, p, plan, CommitOrder, 12)
  {
    CommitOrderAt();
    CommitPlanAt(version, attributes, parentClass, hooks, forceCallAsConstructor, forceFinalizeCall, template, p, Field.CallAsConstructor);
    CommitPlanAt(version, attributes, parentClass, hooks, forceCallAsConstructor, forceFinalizeCall, template, p, Field.HasInstance);
    WriteSlot(b, p, 10, Field.CallAsConstructor, forceCallAsConstructor || hooks.callAsConstructor.Some?, ReadField(template, p, Field.CallAsConstructor), plan, start);
    assert b[..] == ApplyFirst(start, p, plan, CommitOrder, 11);
    WriteSlot(b, p, 11, Field.HasInstance, hooks.hasInstance.Some?, ReadField(template, p, Field.HasInstance), plan, start);
  }

  /** `convertToType` and `finalize`. */
  method WriteConversion(b: array<Byte>, p: Platform, template: seq<Byte>, version: Int32, attributes: Int32, parentClass: Option<ClassRef>,
                    hooks: Hooks, forceCallAsConstructor: bool, forceFinalizeCall: bool,
                    ghost plan: map<Field, Long>, ghost start: seq<Byte>)
    requires p.Valid() && |template| == p.classDefinitionSize && b.Length == p.classDefinitionSize && |start| == b.Length
    requires plan == CommitPlan(version, attributes, parentClass, hooks, forceCallAsConstructor, forceFinalizeCall, template, p)
    requires b[..] == ApplyFirst(start, p, plan, CommitOrder, 12)
    modifies b
    ensures b[..] == ApplyFirst(start, p, plan, CommitOrder, 14)
  {
    CommitOrderAt();
    CommitPlanAt(version, attributes, parentClass, hooks, forceCallAsConstructor, forceFinalizeCall, template, p, Field.ConvertToType);
    CommitPlanAt(version, attributes, parentClass, hooks, forceCallAsConstructor, forceFinalizeCall, template, p, Finalize);
    WriteSlot(b, p, 12, Field.ConvertToType, hooks.convertToType.Some?, ReadField(template, p, Field.ConvertToType), plan, start);
    assert b[..] == ApplyFirst(start, p, plan, CommitOrder, 13);
    WriteSlot(b, p, 13, Finalize, forceFinalizeCall, ReadField(template, p, Finalize), plan, start);
  }

  /** Every callback slot the plan writes gets the template's trampoline. */
  ghost predicate TrampolinesPlanned(plan: map<Field, Long>, template: seq<Byte>, p: Platform)
    requires p.Valid() && |template| == p.classDefinitionSize
  {
    forall f :: f in plan && f != Version && f != Attributes && f != ParentClass ==> plan[f] == ReadField(template, p, f)
  }

  /**
   * Slot `f` is the `k`-th write of `commit`, the plan has it exactly when
   * `write` holds, and `s` is the structure after the writes before it.
   */
  ghost predicate WriteReady(s: seq<Byte>, start: seq<Byte>, p: Platform, plan: map<Field, Long>, k: nat, f: Field,
                             write: bool, value: Long)
  {
    && p.Valid() && |start| == p.classDefinitionSize && PlanFits(plan)
    && k < |CommitOrder| && CommitOrder[k] == f
    && (f in plan <==> write) && (write ==> plan[f] == value)
    && s == ApplyFirst(start, p, plan, CommitOrder, k)
  }

  /**
   * One write of `commit`: slot `CommitOrder[k]` gets `value` when `write`
   * holds, which is exactly when the plan has the slot.
   */
  method WriteSlot(b: array<Byte>, p: Platform, k: nat, f: Field, write: bool, value: Long,
                   ghost plan: map<Field, Long>, ghost start: seq<Byte>)
    requires b.Length == |start| && WriteReady(b[..], start, p, plan, k, f, write, value)
    modifies b
    ensures p.Valid() && |start| == p.classDefinitionSize && PlanFits(plan) && k < |CommitOrder|
    ensures b[..] == ApplyFirst(start, p, plan, CommitOrder, k + 1)
  {
    if write {
      PutField(b, p, f, value);
    }
  }

  /**
   * Carrying out a plan that leaves the class name and the two table
   * slots alone, in the order of `commit`, on a zero-filled structure
   * makes every slot read as planned.
   */
  lemma CommitReads(s: seq<Byte>, p: Platform, plan: map<Field, Long>)
    requires p.Valid() && |s| == p.classDefinitionSize && PlanFits(plan)
    requires forall i :: 0 <= i < |s| ==> s[i] == 0
    requires ClassName !in plan && StaticValues !in plan && StaticFunctions !in plan
    ensures forall f :: ReadField(ApplyFirst(s, p, plan, CommitOrder, |CommitOrder|), p, f) == Planned(plan, f, p.long)
  {
    ZerosFilled(s, p, plan);
    var t := ApplyFirst(s, p, plan, CommitOrder, |CommitOrder|);
    ApplyFirstFilled(s, p, plan, {}, CommitOrder, |CommitOrder|);
    assert CommitOrder[..|CommitOrder|] == CommitOrder;
    var done := {} + FieldsOf(CommitOrder);
    SkipField(t, p, plan, done, ClassName);
    SkipField(t, p, plan, done + {ClassName}, StaticValues);
    SkipField(t, p, plan, done + {ClassName, StaticValues}, StaticFunctions);
    var all := done + {ClassName, StaticValues, StaticFunctions};
    assert Filled(t, p, plan, all);
    forall f
      ensures ReadField(t, p, f) == Planned(plan, f, p.long)
    {
      CommitOrderCovers(f);
      assert f in all;
    }
  }

  /** The slots of `CommitOrder`, one by one. */
  lemma CommitOrderAt()
    ensures |CommitOrder| == 14
    ensures CommitOrder[0] == Version
    ensures CommitOrder[1] == Attributes
    ensures CommitOrder[2] == ParentClass
    ensures CommitOrder[3] == Initialize
    ensures CommitOrder[4] == Field.HasProperty
    ensures CommitOrder[5] == Field.GetProperty
    ensures CommitOrder[6] == Field.SetProperty
    ensures CommitOrder[7] == Field.DeleteProperty
    ensures CommitOrder[8] == Field.GetPropertyNames
    ensures CommitOrder[9] == CallAsFunction
    ensures CommitOrder[10] == Field.CallAsConstructor
    ensures CommitOrder[11] == Field.HasInstance
    ensures CommitOrder[12] == Field.ConvertToType
    ensures CommitOrder[13] == Finalize
  {
  }

  /** `commit` writes every slot but the class name and the two tables. */
  lemma CommitOrderCovers(f: Field)
    ensures f in CommitOrder || f == ClassName || f == StaticValues || f == StaticFunctions
  {
    match f
    case Version => assert CommitOrder[0] == f;
    case Attributes => assert CommitOrder[1] == f;
    case ParentClass => assert CommitOrder[2] == f;
    case Initialize => assert CommitOrder[3] == f;
    case HasProperty => assert CommitOrder[4] == f;
    case GetProperty => assert CommitOrder[5] == f;
    case SetProperty => assert CommitOrder[6] == f;
    case DeleteProperty => assert CommitOrder[7] == f;
    case GetPropertyNames => assert CommitOrder[8] == f;
    case CallAsFunction => assert CommitOrder[9] == f;
    case CallAsConstructor => assert CommitOrder[10] == f;
    case HasInstance => assert CommitOrder[11] == f;
    case ConvertToType => assert CommitOrder[12] == f;
    case Finalize => assert CommitOrder[13] == f;
    case ClassName =>
    case StaticValues =>
    case StaticFunctions =>
  }


  /** Every field is one of the seventeen. */
  lemma AllFieldsComplete()
    ensures forall f :: f in AllFields
  {
    forall f
      ensures f in AllFields
    {
      match f
      case Version => case Attributes => case ClassName => case ParentClass => case StaticValues =>
      case StaticFunctions => case Initialize => case Finalize => case HasProperty => case GetProperty =>
      case SetProperty => case DeleteProperty => case GetPropertyNames => case CallAsFunction =>
      case CallAsConstructor => case HasInstance => case ConvertToType =>
    }
  }

  /** Once every field is done, every slot reads as planned. */
  lemma EveryField(s: seq<Byte>, p: Platform, plan: map<Field, Long>, done: set<Field>)
    requires p.Valid() && |s| == p.classDefinitionSize
    requires Filled(s, p, plan, done) && done == AllFields
    ensures forall f :: ReadField(s, p, f) == Planned(plan, f, p.long)
  {
    AllFieldsComplete();
  }

  /** The slot of the native structure the engine reads for a chained request. */
  function SlotOf(req: Request): Field
  {
    match req
    case SetProperty(_, _, _) => Field.SetProperty
    case GetProperty(_, _) => Field.GetProperty
    case ConvertToType(_, _) => Field.ConvertToType
    case DeleteProperty(_, _) => Field.DeleteProperty
    case GetPropertyNames(_) => Field.GetPropertyNames
    case HasProperty(_, _) => Field.HasProperty
    case HasInstance(_, _) => Field.HasInstance
    case CallAsConstructor(_, _) => Field.CallAsConstructor
  }

  /** Whether `commit` writes slot `f`, and with which value. */
  lemma CommitPlanAt(version: Int32, attributes: Int32, parentClass: Option<ClassRef>, hooks: Hooks,
                     forceCallAsConstructor: bool, forceFinalizeCall: bool, template: seq<Byte>, p: Platform, f: Field)
    requires p.Valid() && |template| == p.classDefinitionSize
    ensures var plan := CommitPlan(version, attributes, parentClass, hooks, forceCallAsConstructor, forceFinalizeCall, template, p);
      && (f in plan <==> CommitWrites(f, parentClass, hooks, forceCallAsConstructor, forceFinalizeCall))
      && (f in plan ==> plan[f] == CommitValue(f, version, attributes, parentClass, template, p))
  {
  }

  /** `commit` always writes the version and the attributes, writes the parent class handle exactly when there is a parent class, and never writes the class name or a table pointer into the structure. */
  lemma CommitPlanHeader(version: Int32, attributes: Int32, parentClass: Option<ClassRef>, hooks: Hooks,
                        forceCallAsConstructor: bool, forceFinalizeCall: bool, template: seq<Byte>, p: Platform)
    requires p.Valid() && |template| == p.classDefinitionSize
    ensures var plan := CommitPlan(version, attributes, parentClass, hooks, forceCallAsConstructor, forceFinalizeCall, template, p);
      && Version in plan && plan[Version] == version && Attributes in plan && plan[Attributes] == attributes
      && (ParentClass in plan <==> parentClass.Some?)
      && (parentClass.Some? ==> plan[ParentClass] == parentClass.value.handle)
      && ClassName !in plan && StaticValues !in plan && StaticFunctions !in plan
  {
  }

  /** Every callback slot `commit` writes gets the address the native template holds there. */
  lemma CommitPlanTrampolines(version: Int32, attributes: Int32, parentClass: Option<ClassRef>, hooks: Hooks,
                        forceCallAsConstructor: bool, forceFinalizeCall: bool, template: seq<Byte>, p: Platform)
    requires p.Valid() && |template| == p.classDefinitionSize
    ensures var plan := CommitPlan(version, attributes, parentClass, hooks, forceCallAsConstructor, forceFinalizeCall, template, p);
      TrampolinesPlanned(plan, template, p)
  {
    var plan := CommitPlan(version, attributes, parentClass, hooks, forceCallAsConstructor, forceFinalizeCall, template, p);
    forall f | f in plan && f != Version && f != Attributes && f != ParentClass
      ensures plan[f] == ReadField(template, p, f)
    {
    }
  }

  /** `commit` writes a property callback slot exactly when that callback is set. */
  lemma CommitPlanProperties(version: Int32, attributes: Int32, parentClass: Option<ClassRef>, hooks: Hooks,
                        forceCallAsConstructor: bool, forceFinalizeCall: bool, template: seq<Byte>, p: Platform)
    requires p.Valid() && |template| == p.classDefinitionSize
    ensures var plan := CommitPlan(version, attributes, parentClass, hooks, forceCallAsConstructor, forceFinalizeCall, template, p);
      && (Field.HasProperty in plan <==> hooks.hasProperty.Some?)
      && (Field.GetProperty in plan <==> hooks.getProperty.Some?)
      && (Field.SetProperty in plan <==> hooks.setProperty.Some?)
      && (Field.DeleteProperty in plan <==> hooks.deleteProperty.Some?)
      && (Field.GetPropertyNames in plan <==> hooks.getPropertyNames.Some?)
  {
  }

  /** `commit` writes the call slots exactly when their callbacks are set, `callAsConstructor` also when it is forced on. */
  lemma CommitPlanCalls(version: Int32, attributes: Int32, parentClass: Option<ClassRef>, hooks: Hooks,
                        forceCallAsConstructor: bool, forceFinalizeCall: bool, template: seq<Byte>, p: Platform)
    requires p.Valid() && |template| == p.classDefinitionSize
    ensures var plan := CommitPlan(version, attributes, parentClass, hooks, forceCallAsConstructor, forceFinalizeCall, template, p);
      && (CallAsFunction in plan <==> hooks.callAsFunction.Some?)
      && (Field.CallAsConstructor in plan <==> forceCallAsConstructor || hooks.callAsConstructor.Some?)
      && (Field.HasInstance in plan <==> hooks.hasInstance.Some?)
      && (Field.ConvertToType in plan <==> hooks.convertToType.Some?)
  {
  }

  /** `commit` writes `initialize` exactly when it is set and `finalize` exactly when finalization is on. */
  lemma CommitPlanLifecycle(version: Int32, attributes: Int32, parentClass: Option<ClassRef>, hooks: Hooks,
                        forceCallAsConstructor: bool, forceFinalizeCall: bool, template: seq<Byte>, p: Platform)
    requires p.Valid() && |template| == p.classDefinitionSize
    ensures var plan := CommitPlan(version, attributes, parentClass, hooks, forceCallAsConstructor, forceFinalizeCall, template, p);
      && (Initialize in plan <==> hooks.initialize.Some?)
      && (Finalize in plan <==> forceFinalizeCall)
  {
  }

  /**
   * The native side finds a trampoline in the slot of a chained request
   * exactly when the Java class answers it locally (for
   * `callAsConstructor`, also when the slot is forced on): the class
   * structure agrees with the engine's `Local`.
   */
  lemma CommitPlanChained(version: Int32, attributes: Int32, parentClass: Option<ClassRef>, hooks: Hooks,
                          forceCallAsConstructor: bool, forceFinalizeCall: bool, template: seq<Byte>, p: Platform, req: Request)
    requires p.Valid() && |template| == p.classDefinitionSize
    ensures var plan := CommitPlan(version, attributes, parentClass, hooks, forceCallAsConstructor, forceFinalizeCall, template, p);
      (SlotOf(req) in plan <==> Local(hooks, req).Some? || (req.CallAsConstructor? && forceCallAsConstructor))
  {
    CommitPlanProperties(version, attributes, parentClass, hooks, forceCallAsConstructor, forceFinalizeCall, template, p);
    CommitPlanCalls(version, attributes, parentClass, hooks, forceCallAsConstructor, forceFinalizeCall, template, p);
    match req
    case SetProperty(_, _, _) =>
    case GetProperty(_, _) =>
    case ConvertToType(_, _) =>
    case DeleteProperty(_, _) =>
    case GetPropertyNames(_) =>
    case HasProperty(_, _) =>
    case HasInstance(_, _) =>
    case CallAsConstructor(_, _) =>
  }

  /** The memo maps without the entries of one object. */
  function Forget(memo: Memo, obj: Long): Memo
  {
    map k | k in memo && k.handle != obj :: memo[k]
  }

  /**
   * Once an object is forgotten, the memo holds no entry for it in any map,
   * so its next chained call starts at the class it was made with;
   * forgetting it again changes nothing.
   */
  lemma ForgetObject(memo: Memo, obj: Long, req: Request)
    ensures req.Key().handle == obj ==> req.Key() !in Forget(memo, obj)
    ensures req.Key().handle != obj ==> (req.Key() in Forget(memo, obj) <==> req.Key() in memo)
    ensures Forget(Forget(memo, obj), obj) == Forget(memo, obj)
  {
  }

  /** The static function tables the definitions refer to. */
  ghost function FunctionTables(defs: set<ClassDefinition>): (r: set<StaticFunctionTable>)
    reads defs`staticFunctions
    ensures forall d :: d in defs && d.staticFunctions != null ==> d.staticFunctions in r
  {
    set d | d in defs && d.staticFunctions != null :: d.staticFunctions
  }

  /** Every static function table is valid. */
  ghost predicate TablesValid(tables: set<StaticFunctionTable>)
    reads tables
  {
    forall t :: t in tables ==> t.Valid()
  }

  /** `commit` of the static function table can run with these native copies of its names. */
  ghost predicate FunctionCommitFits(t: StaticFunctionTable, addresses: seq<Long>)
    reads t
  {
    t.Valid() && t.buffer == null && t.namesCache.Some? ==>
      |addresses| == |t.namesCache.value| && RecordTables.TableSize(|t.namesCache.value|, t.platform.staticFunctionSize) < 0x8000_0000
  }

  /** `commit` of the static value table can run with these native copies of its names. */
  ghost predicate ValueCommitFits(t: StaticValueTable, addresses: seq<Long>)
    reads t
  {
    t.Valid() && !t.frozen && t.namesCache.Some? ==>
      |addresses| == |t.namesCache.value| && RecordTables.TableSize(|t.namesCache.value|, t.platform.staticValueSize) < 0x8000_0000
  }

  /** Every static function table is valid and could be committed with the given native copies of its names. */
  ghost predicate TablesReady(tables: set<StaticFunctionTable>, addresses: StaticFunctionTable -> seq<Long>)
    reads tables
  {
    forall t :: t in tables ==> t.Valid() && FunctionCommitFits(t, addresses(t))
  }

  /** What a static function call may do to a table: bind the object's pointers if it had none, or nothing. */
  predicate Registered(before: Option<map<Long, map<Long, int>>>, after: Option<map<Long, map<Long, int>>>, obj: Long, pointers: seq<Long>)
  {
    if before.Some? && obj !in before.value then after == before || after == Some(before.value[obj := Binding(pointers)])
    else after == before
  }

  /** The pointer bindings of every static function table of the definitions. */
  ghost function BindingsOf(tables: set<StaticFunctionTable>): map<StaticFunctionTable, Option<map<Long, map<Long, int>>>>
    reads tables`functionPointers
  {
    map t | t in tables :: t.functionPointers
  }

  /** The function lists of every static function table of the definitions. */
  ghost function ListsOf(tables: set<StaticFunctionTable>): map<StaticFunctionTable, Option<seq<StaticFunction>>>
    reads tables`functions
  {
    map t | t in tables :: t.functions
  }

  /** What a static function call may do to the tables: each may bind the object's pointers, as `Registered` says. */
  ghost predicate AllRegistered(before: map<StaticFunctionTable, Option<map<Long, map<Long, int>>>>,
                                after: map<StaticFunctionTable, Option<map<Long, map<Long, int>>>>,
                                obj: Long, pointers: StaticFunctionTable -> seq<Long>)
  {
    before.Keys == after.Keys && forall t :: t in before ==> Registered(before[t], after[t], obj, pointers(t))
  }

  /** Registering in one table is a step `AllRegistered` allows. */
  lemma RegisteredOne(before: map<StaticFunctionTable, Option<map<Long, map<Long, int>>>>, t: StaticFunctionTable,
                      b: Option<map<Long, map<Long, int>>>, obj: Long, pointers: StaticFunctionTable -> seq<Long>)
    requires t in before && Registered(before[t], b, obj, pointers(t))
    ensures AllRegistered(before, before[t := b], obj, pointers)
  {
  }

  /** Two static function calls for the same object do to the tables what one may do. */
  lemma AllRegisteredTwice(a: map<StaticFunctionTable, Option<map<Long, map<Long, int>>>>,
                           b: map<StaticFunctionTable, Option<map<Long, map<Long, int>>>>,
                           c: map<StaticFunctionTable, Option<map<Long, map<Long, int>>>>,
                           obj: Long, pointers: StaticFunctionTable -> seq<Long>)
    requires AllRegistered(a, b, obj, pointers) && AllRegistered(b, c, obj, pointers)
    ensures AllRegistered(a, c, obj, pointers)
  {
    forall t | t in a
      ensures Registered(a[t], c[t], obj, pointers(t))
    {
      RegisteredTwice(a[t], b[t], c[t], obj, pointers(t));
    }
  }

  /** Two static function calls for the same object do to a table what one may do. */
  lemma RegisteredTwice(a: Option<map<Long, map<Long, int>>>, b: Option<map<Long, map<Long, int>>>,
                        c: Option<map<Long, map<Long, int>>>, obj: Long, pointers: seq<Long>)
    requires Registered(a, b, obj, pointers) && Registered(b, c, obj, pointers)
    ensures Registered(a, c, obj, pointers)
  {
  }

  /** What finalization may do to a table: unbind the object, or nothing. */
  predicate Unbound(before: Option<map<Long, map<Long, int>>>, after: Option<map<Long, map<Long, int>>>, obj: Long)
  {
    after == before || (before.Some? && after == Some(before.value - {obj}))
  }

  /** One step of the finalization walk: the class's own event, then its parent's walk. */
  lemma FinalizeEventsStep(defs: set<ClassDefinition>, d: ClassDefinition, obj: Long)
    requires Linked(defs) && d in defs
    ensures d.hooks.finalize.None? ==> FinalizeEvents(HooksAlong(defs, d), obj) == []
    ensures d.hooks.finalize.Some? && !d.hasParent ==>
      FinalizeEvents(HooksAlong(defs, d), obj) == [Finalized(d.hooks.finalize.value, obj)]
    ensures d.hooks.finalize.Some? && d.hasParent ==>
      FinalizeEvents(HooksAlong(defs, d), obj) == [Finalized(d.hooks.finalize.value, obj)] + FinalizeEvents(HooksAlong(defs, d.Parent()), obj)
  {
    var hs := HooksAlong(defs, d);
    assert hs[0] == d.hooks;
    if d.hasParent {
      assert hs[1..] == HooksAlong(defs, d.Parent());
    } else {
      assert hs[1..] == [];
    }
  }

  /** What finalization may change: the memo, both registries and the static function tables. */
  datatype Trace = Trace(memo: Memo, functionCallbacks: map<Long, Option<CallAsFunctionHook>>,
                         constructorCallbacks: map<Long, Option<CallAsConstructorHook>>,
                         bindings: map<StaticFunctionTable, Option<map<Long, map<Long, int>>>>,
                         lists: map<StaticFunctionTable, Option<seq<StaticFunction>>>)

  ghost function Traces(rt: Runtime, tables: set<StaticFunctionTable>): Trace
    reads rt`memo, rt`functionCallbacks, rt`constructorCallbacks, tables`functionPointers, tables`functions
  {
    Trace(rt.memo, rt.functionCallbacks, rt.constructorCallbacks, BindingsOf(tables), ListsOf(tables))
  }

  /**
   * What finalizing `obj` did, from `a` to `b`, ending with `r`, when the
   * walk reaches the tables `ts`: those may have unbound the object, every
   * other table and every function list is as it was; the walk succeeds
   * exactly when none of `ts` is disposed, and otherwise throws
   * `NullPointerException`; on success every one of `ts` has unbound the
   * object and the memo and the registries no longer hold it.
   */
  ghost predicate Released(a: Trace, b: Trace, obj: Long, r: Result<()>, ts: set<StaticFunctionTable>)
  {
    && b.lists == a.lists
    && TablesReleased(a.bindings, b.bindings, obj, r, ts)
    && (r.Success? ==>
          && b.memo == Forget(a.memo, obj)
          && b.functionCallbacks == a.functionCallbacks - {obj}
          && b.constructorCallbacks == a.constructorCallbacks - {obj})
  }

  /** The part of `Released` that concerns the pointer bindings of the static function tables. */
  ghost predicate TablesReleased(before: map<StaticFunctionTable, Option<map<Long, map<Long, int>>>>, after: map<StaticFunctionTable, Option<map<Long, map<Long, int>>>>, obj: Long, r: Result<()>, ts: set<StaticFunctionTable>)
  {
    && ts <= before.Keys
    && (r.Success? <==> LiveIn(before, ts))
    && (r.Success? ==> after == Unbind(before, obj, ts))
    && (r.Failure? ==> r == Failure(NullPointer) && UnboundIn(before, after, obj, ts))
  }

  /**
   * The parent's walk over `ts1` followed by the own clearing over `ts2`
   * is one walk over both; where the two share a table, unbinding twice
   * leaves what unbinding once leaves.
   */
  lemma ReleasedTwice(a: Trace, b: Trace, c: Trace, obj: Long, r1: Result<()>, r2: Result<()>,
                      ts1: set<StaticFunctionTable>, ts2: set<StaticFunctionTable>)
    requires Released(a, b, obj, r1, ts1) && r1.Success? && Released(b, c, obj, r2, ts2)
    ensures Released(a, c, obj, r2, ts1 + ts2)
  {
    UnbindLive(a.bindings, obj, ts1);
    if r2.Success? {
      UnbindTwice(a.bindings, obj, ts1, ts2);
      assert Forget(b.memo, obj) == b.memo;
      assert b.functionCallbacks - {obj} == b.functionCallbacks;
      assert b.constructorCallbacks - {obj} == b.constructorCallbacks;
    } else {
      forall t | t in a.bindings && t in ts1 + ts2
        ensures Unbound(a.bindings[t], c.bindings[t], obj)
      {
        UnboundTwice(a.bindings[t], b.bindings[t], c.bindings[t], obj);
      }
    }
  }

  /** The bindings once every live table of `ts` has unbound `obj`; the other tables keep theirs. */
  function Unbind(bindings: map<StaticFunctionTable, Option<map<Long, map<Long, int>>>>, obj: Long, ts: set<StaticFunctionTable>): (r: map<StaticFunctionTable, Option<map<Long, map<Long, int>>>>)
    ensures r.Keys == bindings.Keys
    ensures forall t :: t in bindings && t !in ts ==> r[t] == bindings[t]
    ensures forall t :: t in bindings ==> Unbound(bindings[t], r[t], obj)
  {
    map t | t in bindings :: if t in ts && bindings[t].Some? then Some(bindings[t].value - {obj}) else bindings[t]
  }

  /** A class without a static function table releases the object from no table. */
  lemma ReleasedNowhere(bindings: map<StaticFunctionTable, Option<map<Long, map<Long, int>>>>, obj: Long)
    ensures TablesReleased(bindings, bindings, obj, Success(()), {})
  {
    assert Unbind(bindings, obj, {}) == bindings;
  }

  /** `removeObject` on the table `t`: a live table unbinds the object, a disposed one throws and is unchanged. */
  lemma ReleasedOne(bindings: map<StaticFunctionTable, Option<map<Long, map<Long, int>>>>, t: StaticFunctionTable, obj: Long, r: Result<()>, after: Option<map<Long, map<Long, int>>>)
    requires t in bindings
    requires bindings[t].None? ==> r == Failure(NullPointer) && after == bindings[t]
    requires bindings[t].Some? ==> r == Success(()) && after == Some(bindings[t].value - {obj})
    ensures TablesReleased(bindings, bindings[t := after], obj, r, {t})
  {
    if r.Success? {
      assert bindings[t := after] == Unbind(bindings, obj, {t});
    }
  }

  /** Unbinding keeps every table live that was, and makes none live that was not. */
  lemma UnbindLive(bindings: map<StaticFunctionTable, Option<map<Long, map<Long, int>>>>, obj: Long, ts: set<StaticFunctionTable>)
    ensures forall t :: t in bindings ==> (Unbind(bindings, obj, ts)[t].Some? <==> bindings[t].Some?)
  {
  }

  /** Unbinding over `ts1` and then over `ts2` is unbinding over both at once. */
  lemma UnbindTwice(bindings: map<StaticFunctionTable, Option<map<Long, map<Long, int>>>>, obj: Long, ts1: set<StaticFunctionTable>, ts2: set<StaticFunctionTable>)
    ensures Unbind(Unbind(bindings, obj, ts1), obj, ts2) == Unbind(bindings, obj, ts1 + ts2)
  {
    var once := Unbind(bindings, obj, ts1);
    forall t | t in bindings
      ensures Unbind(once, obj, ts2)[t] == Unbind(bindings, obj, ts1 + ts2)[t]
    {
      if t in ts1 && t in ts2 && bindings[t].Some? {
        assert (bindings[t].value - {obj}) - {obj} == bindings[t].value - {obj};
      }
    }
  }

  /** A walk that threw in the parent's tables `ts1` has not reached `ts2`, which are as they were. */
  lemma ReleasedFailed(a: Trace, b: Trace, obj: Long, r: Result<()>, ts1: set<StaticFunctionTable>, ts2: set<StaticFunctionTable>)
    requires Released(a, b, obj, r, ts1) && r.Failure? && ts2 <= a.bindings.Keys
    ensures Released(a, b, obj, r, ts1 + ts2)
  {
  }

  lemma AppendAssociates<T>(a: seq<T>, b: seq<T>, c: seq<T>)
    ensures a + b + c == a + (b + c)
  {
  }

  /** What finalization may do to the tables: those of `ts` may unbind the object, as `Unbound` says, the others keep their bindings. */
  ghost predicate UnboundIn(before: map<StaticFunctionTable, Option<map<Long, map<Long, int>>>>,
                            after: map<StaticFunctionTable, Option<map<Long, map<Long, int>>>>, obj: Long,
                            ts: set<StaticFunctionTable>)
  {
    && before.Keys == after.Keys
    && (forall t :: t in before && t !in ts ==> after[t] == before[t])
    && (forall t :: t in before && t in ts ==> Unbound(before[t], after[t], obj))
  }

  /** None of the tables `ts` is disposed. */
  ghost predicate LiveIn(bindings: map<StaticFunctionTable, Option<map<Long, map<Long, int>>>>, ts: set<StaticFunctionTable>)
  {
    forall t :: t in ts ==> t in bindings && bindings[t].Some?
  }

  /** Two finalizations of the same object do to a table what one may do. */
  lemma UnboundTwice(a: Option<map<Long, map<Long, int>>>, b: Option<map<Long, map<Long, int>>>,
                     c: Option<map<Long, map<Long, int>>>, obj: Long)
    requires Unbound(a, b, obj) && Unbound(b, c, obj)
    ensures Unbound(a, c, obj)
  {
    if a.Some? {
      assert (a.value - {obj}) - {obj} == a.value - {obj};
    }
  }

  /** The table `clearStaticFunctions` of `d` reaches: its own, if it has one. */
  function OwnTable(d: ClassDefinition): (r: set<StaticFunctionTable>)
    reads d`staticFunctions
  {
    if d.staticFunctions == null then {} else {d.staticFunctions}
  }

  /**
   * The tables `JSObjectFinalizeCallback` of `d` unbinds an object from:
   * its own, and only when `d` has a `finalize` callback, those of its
   * parent's walk. All are tables of the definitions.
   */
  ghost function FinalizedTables(defs: set<ClassDefinition>, d: ClassDefinition): (r: set<StaticFunctionTable>)
    requires Linked(defs) && d in defs
    reads defs`hooks, defs`hasParent, defs`parentClass, defs`staticFunctions
    ensures r <= FunctionTables(defs)
    ensures OwnTable(d) <= r
    decreases d.rank
  {
    OwnTable(d) + if d.hooks.finalize.Some? && d.hasParent then FinalizedTables(defs, d.Parent()) else {}
  }

  /**
   * The parent's table, when `d` does not share it, loses the object at
   * finalization exactly when `d` has a `finalize` callback: a class
   * without one leaves a binding that a static function call made in its
   * parent's table in place after the object is gone.
   */
  lemma FinalizeKeepsParentBinding(defs: set<ClassDefinition>, d: ClassDefinition, a: Trace, b: Trace, obj: Long, r: Result<()>)
    requires Linked(defs) && d in defs && d.hasParent
    requires Released(a, b, obj, r, FinalizedTables(defs, d))
    requires d.Parent().staticFunctions != null && d.Parent().staticFunctions != d.staticFunctions
    requires d.Parent().staticFunctions in a.bindings
    ensures d.hooks.finalize.None? ==> b.bindings[d.Parent().staticFunctions] == a.bindings[d.Parent().staticFunctions]
    ensures d.hooks.finalize.Some? && r.Success? ==>
      b.bindings[d.Parent().staticFunctions] == Some(a.bindings[d.Parent().staticFunctions].value - {obj})
  {
    var t := d.Parent().staticFunctions;
    if d.hooks.finalize.Some? {
      assert t in FinalizedTables(defs, d.Parent());
    }
  }

  /** The callback fields of `d` and of every class it forwards to, leaf first. */
  ghost function HooksAlong(defs: set<ClassDefinition>, d: ClassDefinition): seq<Hooks>
    requires Linked(defs) && d in defs
    reads defs`hooks, defs`hasParent, defs`parentClass
    decreases d.rank
  {
    [d.hooks] + if d.hasParent then HooksAlong(defs, d.Parent()) else []
  }

  /** What a static value table makes of a setter lookup. */
  function SetterSlot(t: StaticValueTable?, name: string): Slot<SetPropertyHook>
    reads t
  {
    if t == null then Pass
    else match t.ContainsSetter(name)
      case Failure(e) => Fail(e)
      case Success(found) => if found then Hit(t.GetSetPropertyCallback(name).value) else Pass
  }

  /** What a static value table makes of a getter lookup. */
  function GetterSlot(t: StaticValueTable?, name: string): Slot<GetPropertyHook>
    reads t
  {
    if t == null then Pass
    else match t.ContainsGetter(name)
      case Failure(e) => Fail(e)
      case Success(found) => if found then Hit(t.GetGetPropertyCallback(name).value) else Pass
  }

  /** What a static function table makes of a function pointer of an object. */
  function FunctionSlot(t: StaticFunctionTable?, obj: Long, func: Long): Slot<CallAsFunctionHook>
    reads ({t} - {null})`functionPointers, ({t} - {null})`functions
  {
    if t == null then Pass
    else match t.GetFunction(obj, func)
      case Failure(e) => Fail(e)
      case Success(callback) => Hit(callback)
  }

  ghost function SetterSlots(defs: set<ClassDefinition>, d: ClassDefinition, name: string): seq<Slot<SetPropertyHook>>
    requires Linked(defs) && d in defs
    reads defs`staticValues, defs`staticFunctions, defs`hasParent, defs`parentClass, Tables(defs)
    decreases d.rank
  {
    [SetterSlot(d.staticValues, name)] + if d.hasParent then SetterSlots(defs, d.Parent(), name) else []
  }

  ghost function GetterSlots(defs: set<ClassDefinition>, d: ClassDefinition, name: string): seq<Slot<GetPropertyHook>>
    requires Linked(defs) && d in defs
    reads defs`staticValues, defs`staticFunctions, defs`hasParent, defs`parentClass, Tables(defs)
    decreases d.rank
  {
    [GetterSlot(d.staticValues, name)] + if d.hasParent then GetterSlots(defs, d.Parent(), name) else []
  }

  ghost function FunctionSlots(defs: set<ClassDefinition>, d: ClassDefinition, obj: Long, func: Long): seq<Slot<CallAsFunctionHook>>
    requires Linked(defs) && d in defs
    reads defs`staticFunctions, defs`hasParent, defs`parentClass, FunctionTables(defs)`functionPointers, FunctionTables(defs)`functions
    decreases d.rank
  {
    [FunctionSlot(d.staticFunctions, obj, func)] + if d.hasParent then FunctionSlots(defs, d.Parent(), obj, func) else []
  }
}

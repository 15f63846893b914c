/**
 * The walks up the `parentClass` chain that do not consult the memo maps:
 * `callAsFunction`, the static value getters and setters, the static
 * function dispatch, and the `initialize` and `finalize` callbacks. Each is
 * written here as a pure function of what every class of the chain
 * contributes, leaf first, in the recursive form the binding runs it, and
 * is characterised by the first class that settles it.
 */
module ChainWalks {
  import opened Base
  import opened Callbacks
  import opened Dispatch

  /**
   * What one class of the chain makes of a lookup: nothing, so the lookup
   * goes on to the parent; an exception; or a callback field, which may be
   * `null`.
   */
  datatype Slot<H> = Pass | Fail(error: Error) | Hit(hook: Option<H>)

  /** The first class that settles the lookup; `|slots|` when every class passes. */
  function FirstStop<H>(slots: seq<Slot<H>>): (k: nat)
    ensures k <= |slots|
    ensures forall i :: 0 <= i < k ==> slots[i].Pass?
    ensures k < |slots| ==> !slots[k].Pass?
  {
    if |slots| == 0 || !slots[0].Pass? then 0 else 1 + FirstStop(slots[1..])
  }

  /**
   * `JSObjectSetStaticValueCallback`: a class whose table holds the name
   * settles the call, with `false` when its setter is `null`; a class
   * without the name passes it on; past the root the answer is `false`.
   */
  function SetStaticOutcome(slots: seq<Slot<SetPropertyHook>>, obj: Long, name: string, value: Long): (r: Result<bool>)
    ensures var k := FirstStop(slots);
      && (k == |slots| ==> r == Success(false))
      && (k < |slots| && slots[k].Fail? ==> r == Failure(slots[k].error))
      && (k < |slots| && slots[k].Hit? ==>
            r == if slots[k].hook.None? then Success(false) else Success(slots[k].hook.value(obj, name, value)))
  {
    if |slots| == 0 then Success(false)
    else match slots[0]
      case Pass => SetStaticOutcome(slots[1..], obj, name, value)
      case Fail(e) => Failure(e)
      case Hit(h) => if h.None? then Success(false) else Success(h.value(obj, name, value))
  }

  /** The exception `JSObjectGetStaticValueCallback` throws when no class holds the name. */
  function StaticValueMissing(name: string, obj: Long): (r: Error)
  {
    JavaScriptException("Static value '" + name + "' callback is not found for " + Decimal(obj))
  }

  /**
   * `JSObjectGetStaticValueCallback`: as the setter, except that a `null`
   * getter gives 0 and a name no class holds throws.
   */
  function GetStaticOutcome(slots: seq<Slot<GetPropertyHook>>, obj: Long, name: string): (r: Result<Long>)
    ensures var k := FirstStop(slots);
      && (k == |slots| ==> r == Failure(StaticValueMissing(name, obj)))
      && (k < |slots| && slots[k].Fail? ==> r == Failure(slots[k].error))
      && (k < |slots| && slots[k].Hit? ==>
            r == if slots[k].hook.None? then Success(0) else Success(slots[k].hook.value(obj, name)))
  {
    if |slots| == 0 then Failure(StaticValueMissing(name, obj))
    else match slots[0]
      case Pass => GetStaticOutcome(slots[1..], obj, name)
      case Fail(e) => Failure(e)
      case Hit(h) => if h.None? then Success(0) else Success(h.value(obj, name))
  }

  /** The first class with a `callAsFunction` callback; `|hs|` when none has one. */
  function FirstCallable(hs: seq<Hooks>): (k: nat)
    ensures k <= |hs|
    ensures forall i :: 0 <= i < k ==> hs[i].callAsFunction.None?
    ensures k < |hs| ==> hs[k].callAsFunction.Some?
  {
    if |hs| == 0 || hs[0].callAsFunction.Some? then 0 else 1 + FirstCallable(hs[1..])
  }

  /** The exception `JSObjectCallAsFunctionCallback` throws when no class has the callback. */
  function CallAsFunctionMissing(thisObject: Long): (r: Error)
  {
    JavaScriptException("CallAsFunction callback is not found for " + Decimal(thisObject))
  }

  /**
   * `JSObjectCallAsFunctionCallback`: the `callAsFunction` field of the
   * nearest class that has one runs; without one the call throws.
   */
  function CallAsFunctionOutcome(hs: seq<Hooks>, func: Long, thisObject: Long, arguments: seq<Long>): (r: Result<Long>)
    ensures var k := FirstCallable(hs);
      && (k == |hs| ==> r == Failure(CallAsFunctionMissing(thisObject)))
      && (k < |hs| ==> r == Success(hs[k].callAsFunction.value(func, thisObject, arguments)))
  {
    if |hs| == 0 then Failure(CallAsFunctionMissing(thisObject))
    else if hs[0].callAsFunction.Some? then Success(hs[0].callAsFunction.value(func, thisObject, arguments))
    else CallAsFunctionOutcome(hs[1..], func, thisObject, arguments)
  }

  /** The exception `JSObjectStaticFunctionCallback` throws when no class has the function. */
  function StaticFunctionMissing(thisObject: Long): (r: Error)
  {
    JavaScriptException("Static function callback is not found for " + Decimal(thisObject))
  }

  /** Whether a slot settles a static function call: a `null` callback passes it on like a missing one. */
  predicate Settles<H>(s: Slot<H>)
  {
    s.Fail? || (s.Hit? && s.hook.Some?)
  }

  /** The first class that settles a static function call; `|slots|` when none does. */
  function FirstSettled<H>(slots: seq<Slot<H>>): (k: nat)
    ensures k <= |slots|
    ensures forall i :: 0 <= i < k ==> !Settles(slots[i])
    ensures k < |slots| ==> Settles(slots[k])
  {
    if |slots| == 0 || Settles(slots[0]) then 0 else 1 + FirstSettled(slots[1..])
  }

  /**
   * `JSObjectStaticFunctionCallback`: the first class whose table binds the
   * function to a non-`null` callback runs it; an exception of a table
   * ends the walk; without a callback the call throws.
   */
  function StaticFunctionOutcome(slots: seq<Slot<CallAsFunctionHook>>, func: Long, thisObject: Long, arguments: seq<Long>): (r: Result<Long>)
    ensures var k := FirstSettled(slots);
      && (k == |slots| ==> r == Failure(StaticFunctionMissing(thisObject)))
      && (k < |slots| && slots[k].Fail? ==> r == Failure(slots[k].error))
      && (k < |slots| && slots[k].Hit? ==> r == Success(slots[k].hook.value(func, thisObject, arguments)))
  {
    if |slots| == 0 then Failure(StaticFunctionMissing(thisObject))
    else match slots[0]
      case Fail(e) => Failure(e)
      case Hit(h) =>
        if h.Some? then Success(h.value(func, thisObject, arguments))
        else StaticFunctionOutcome(slots[1..], func, thisObject, arguments)
      case Pass => StaticFunctionOutcome(slots[1..], func, thisObject, arguments)
  }

  /**
   * `JSObjectInitializeCallback`: the parent's chain runs first, then the
   * class's own `initialize`, so the events come root first.
   */
  function InitializeEvents(hs: seq<Hooks>, obj: Long): (r: seq<LifecycleEvent>)
    ensures forall i :: 0 <= i < |r| ==> r[i].Initialized? && r[i].target == obj
  {
    if |hs| == 0 then []
    else InitializeEvents(hs[1..], obj) + (if hs[0].initialize.Some? then [Initialized(hs[0].initialize.value, obj)] else [])
  }

  /** The `initialize` callbacks of the chain, leaf first. */
  function Initializers(hs: seq<Hooks>, obj: Long): (r: seq<LifecycleEvent>)
  {
    if |hs| == 0 then []
    else (if hs[0].initialize.Some? then [Initialized(hs[0].initialize.value, obj)] else []) + Initializers(hs[1..], obj)
  }

  function Reverse<T>(s: seq<T>): (r: seq<T>)
    ensures |r| == |s|
  {
    if |s| == 0 then [] else Reverse(s[1..]) + [s[0]]
  }

  lemma {:induction false} ReverseAppend<T>(a: seq<T>, b: seq<T>)
    ensures Reverse(a + b) == Reverse(b) + Reverse(a)
    decreases |a|
  {
    if |a| == 0 {
      assert a + b == b;
    } else {
      assert (a + b)[1..] == a[1..] + b;
      ReverseAppend(a[1..], b);
    }
  }

  /**
   * Every class of the chain that has an `initialize` callback runs it
   * once, and an ancestor's runs before its descendants': the events are
   * the leaf-first list of callbacks, reversed.
   */
  lemma {:induction false} InitializeRootFirst(hs: seq<Hooks>, obj: Long)
    ensures InitializeEvents(hs, obj) == Reverse(Initializers(hs, obj))
    decreases |hs|
  {
    if |hs| > 0 {
      var own := if hs[0].initialize.Some? then [Initialized(hs[0].initialize.value, obj)] else [];
      InitializeRootFirst(hs[1..], obj);
      ReverseAppend(own, Initializers(hs[1..], obj));
      assert Reverse(own) == own;
    }
  }

  /** How many classes, from the leaf on, have a `finalize` callback before the first that has none. */
  function LeadingFinalizers(hs: seq<Hooks>): (n: nat)
    ensures n <= |hs|
    ensures forall i :: 0 <= i < n ==> hs[i].finalize.Some?
    ensures n < |hs| ==> hs[n].finalize.None?
  {
    if |hs| == 0 || hs[0].finalize.None? then 0 else 1 + LeadingFinalizers(hs[1..])
  }

  /**
   * `JSObjectFinalizeCallback`: the class's own `finalize` runs, and only
   * then is the parent's chain finalized; a class without `finalize` stops
   * the walk, so the ancestors above it never run theirs.
   */
  function FinalizeEvents(hs: seq<Hooks>, obj: Long): (r: seq<LifecycleEvent>)
    ensures |r| == LeadingFinalizers(hs)
    ensures forall i :: 0 <= i < |r| ==> r[i] == Finalized(hs[i].finalize.value, obj)
  {
    if |hs| == 0 || hs[0].finalize.None? then []
    else [Finalized(hs[0].finalize.value, obj)] + FinalizeEvents(hs[1..], obj)
  }
}

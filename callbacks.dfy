/**
 * The host callbacks a class definition can carry (the interfaces of the
 * `callbacks` package). A callback is host code the binding only calls, so
 * each is modelled as a pure function of the arguments the binding passes
 * it, with the context and the exception out-parameter dropped. A callback
 * that returns a `JSValueRef` or `JSObjectRef` returns here the native
 * address the binding extracts from it with `p(...)`: 0 stands for `null`.
 */
module Callbacks {
  import opened Base
  import opened JSTypes

  /** `JSObjectHasPropertyCallback.hasProperty(object, propertyName)`. */
  type HasPropertyHook = (Long, string) -> bool

  /** `JSObjectGetPropertyCallback.getProperty(object, propertyName)`: 0 when it declines. */
  type GetPropertyHook = (Long, string) -> Long

  /** `JSObjectSetPropertyCallback.setProperty(object, propertyName, value)`. */
  type SetPropertyHook = (Long, string, Long) -> bool

  /** `JSObjectDeletePropertyCallback.deleteProperty(object, propertyName)`. */
  type DeletePropertyHook = (Long, string) -> bool

  /** `JSObjectGetPropertyNamesCallback.getPropertyNames(object, accumulator)`: the names it adds. */
  type GetPropertyNamesHook = Long -> seq<string>

  /** `JSObjectCallAsFunctionCallback.callAsFunction(function, thisObject, arguments)`. */
  type CallAsFunctionHook = (Long, Long, seq<Long>) -> Long

  /** `JSObjectCallAsConstructorCallback.callAsConstructor(constructor, arguments)`. */
  type CallAsConstructorHook = (Long, seq<Long>) -> Long

  /** `JSObjectHasInstanceCallback.hasInstance(constructor, possibleInstance)`. */
  type HasInstanceHook = (Long, Long) -> bool

  /** `JSObjectConvertToTypeCallback.convertToType(object, type)`: 0 when it declines. */
  type ConvertToTypeHook = (Long, JSType) -> Long

  /**
   * `JSObjectInitializeCallback` and `JSObjectFinalizeCallback` return
   * nothing; what matters is which one runs, on which object, in which
   * order. They are identified by a number and their runs are logged.
   */
  type LifecycleHook = nat

  datatype LifecycleEvent =
    | Initialized(hook: LifecycleHook, target: Long)
    | Finalized(hook: LifecycleHook, target: Long)
}

/** `JSType`: the type tag of a JavaScript value, and its decoding from the native `int`. */
module JSTypes {
  import opened Base

  datatype JSType = Undefined | Null | Boolean | Number | String | Object

  /** The native constant of each type. */
  function Code(t: JSType): Int32
  {
    match t
    case Undefined => 0
    case Null => 1
    case Boolean => 2
    case Number => 3
    case String => 4
    case Object => 5
  }

  /** `JSType.request(value)`: the type with that code; any other code throws. */
  function Request(value: Int32): (r: Result<JSType>)
    ensures r.Success? <==> 0 <= value <= 5
    ensures r.Failure? ==> r.error == JavaScriptException("Unsupported JSType: " + Decimal(value))
  {
    match value
    case 0 => Success(Undefined)
    case 1 => Success(Null)
    case 2 => Success(Boolean)
    case 3 => Success(Number)
    case 4 => Success(String)
    case 5 => Success(Object)
    case _ => Failure(JavaScriptException("Unsupported JSType: " + Decimal(value)))
  }

  /** Decoding inverts the code of every type. */
  lemma RequestCode(t: JSType)
    ensures Request(Code(t)) == Success(t)
  {
  }

  /** A successful decoding is the type whose code was given. */
  lemma CodeRequest(value: Int32)
    requires Request(value).Success?
    ensures Code(Request(value).value) == value
  {
  }

  /** Distinct types have distinct codes. */
  lemma CodeInjective(s: JSType, t: JSType)
    requires Code(s) == Code(t)
    ensures s == t
  {
    RequestCode(s);
    RequestCode(t);
  }
}

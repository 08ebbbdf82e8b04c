/** Decoded JSON values as the handlers see them after `response.json()`, with the two Python
    operations applied to them: `dict.get(key, default)` and `float(x)`. */
module Json {
  import opened Wrappers
  import PyText

  /** A JSON value: `null`, a boolean, a number (int or float; kept as a real), a string,
      a list or an object. */
  datatype Value =
    | Null
    | Bool(b: bool)
    | Num(n: real)
    | Str(s: string)
    | List(elems: seq<Value>)
    | Object(fields: map<string, Value>)

  /** The exceptions the modelled code can raise. */
  datatype Raised = ValueError | AttributeError | TypeError

  /** The outcome of a Python expression: a value or a raised exception. */
  datatype Eval<+T> = Ok(value: T) | Raise(error: Raised)

  /** `obj.get(key, default)`: only objects have `.get`; on anything else it is an
      `AttributeError`. */
  function Get(obj: Value, key: string, default: Value): (r: Eval<Value>)
    ensures r.Raise? <==> !obj.Object?
    ensures r.Raise? ==> r.error == AttributeError
    ensures obj.Object? && key in obj.fields ==> r == Ok(obj.fields[key])
    ensures obj.Object? && key !in obj.fields ==> r == Ok(default)
  {
    if obj.Object? then Ok(if key in obj.fields then obj.fields[key] else default)
    else Raise(AttributeError)
  }

  /** `float(x)`: numbers convert exactly, booleans to 1 or 0, strings through the decimal
      parser (`ValueError` when it rejects them), and `None`, lists and dicts raise
      `TypeError`. */
  function ToFloat(x: Value): (r: Eval<real>)
    ensures r.Raise? && r.error == TypeError <==> x.Null? || x.List? || x.Object?
    ensures r.Raise? && r.error == ValueError <==> x.Str? && PyText.ParseFloat(x.s).None?
    ensures r.Raise? ==> r.error != AttributeError
    ensures x.Num? ==> r == Ok(x.n)
  {
    match x
    case Num(n) => Ok(n)
    case Bool(b) => Ok(if b then 1.0 else 0.0)
    case Str(s) =>
      (match PyText.ParseFloat(s)
       case Some(v) => Ok(v)
       case None => Raise(ValueError))
    case _ => Raise(TypeError)
  }
}

/** Values shared by the Python back end and the TypeScript front end. */
module Common {

  datatype Option<+T> = None | Some(value: T)

  /** What a Python operation does: return a value or raise an exception. */
  datatype Outcome<+T> = Returned(value: T) | Raised(error: Exception)

  /** The exceptions the modelled code can raise or catch. */
  datatype Exception =
    | IndexError
    | AttributeError(name: string)
    | TypeError
    | Error(message: string)

  /**
   * A Python value as the handlers see it: decoded JSON, a dictionary built
   * by the code, a classifier label or a probability. `Opaque` stands for
   * the values the model passes along as tokens, such as the probability a
   * classifier returns: values the handlers never compare with 0 or with a
   * string, never test for truth and never fail to serialise. The model
   * treats such a token as truthy and as different from 0. Floating-point
   * numbers and numpy arrays themselves are not modelled.
   */
  datatype Value =
    | Null
    | Bool(b: bool)
    | Int(i: int)
    | Str(s: string)
    | List(items: seq<Value>)
    | Object(fields: map<string, Value>)
    | Opaque(token: nat)

  /** Python truthiness, as `if data:` and `if not data:` test it. */
  predicate Truthy(v: Value)
  {
    match v
    case Null => false
    case Bool(b) => b
    case Int(i) => i != 0
    case Str(s) => s != ""
    case List(items) => items != []
    case Object(fields) => fields != map[]
    case Opaque(_) => true
  }

  /** Python's `v == 0`: true of the integer 0 and of False, which equals 0. */
  predicate EqualsZero(v: Value)
  {
    v == Int(0) || v == Bool(false)
  }

  /** Python's `v == "threat"`. */
  predicate IsThreatLabel(v: Value)
  {
    v == Str("threat")
  }

  /** `d.get(key)` on a dictionary: the stored value, or None when the key is absent. */
  function Get(d: map<string, Value>, key: string): (r: Value)
    ensures key in d ==> r == d[key]
    ensures key !in d ==> r == Null
  {
    if key in d then d[key] else Null
  }

  /** What `make_prediction` returns: a label and a probability. */
  datatype Prediction = Prediction(prediction: Value, probability: Value)
}

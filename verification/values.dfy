/**
 The JavaScript values that travel through the flag API: payload fields,
 uids, and the opaque objects the stores hand back. Numbers are integers
 only; objects are compared structurally, which is enough here because
 every strict comparison the API makes is against a primitive: the
 caller's uid or the invalid-data message.
 */
module JsValues {

  /** A JavaScript value. `Obj` stands for any object (a plain record, a Date,
      a flag or a collection returned by a store), described by its own
      enumerable properties. */
  datatype Value =
    | Undefined
    | Null
    | Bool(b: bool)
    | Num(n: int)
    | Str(s: string)
    | Obj(props: map<string, Value>)

  /** A uid is `string | number`: the string "1" and the number 1 are
      different uids. */
  datatype Uid = UStr(s: string) | UNum(n: int)

  /** A request payload: an open-ended record from property name to value. */
  type Payload = map<string, Value>

  /** The outcome of an awaited step: a value, or a thrown error identified by
      its message. */
  datatype Result<+T> = Ok(value: T) | Err(msg: string)

  /** The uid as the JavaScript value it is. */
  function UidValue(u: Uid): Value
  {
    match u
    case UStr(s) => Str(s)
    case UNum(n) => Num(n)
  }

  /** `!!v`: the JavaScript truthiness of a value. */
  predicate Truthy(v: Value)
  {
    match v
    case Undefined => false
    case Null => false
    case Bool(b) => b
    case Num(n) => n != 0
    case Str(s) => s != ""
    case Obj(_) => true
  }

  /** Reading `data[key]`: a property the payload lacks reads as undefined. */
  function Get(data: Payload, key: string): Value
  {
    if key in data then data[key] else Undefined
  }

  /** The message of the TypeError a JavaScript engine throws when a property
      is read from `null` or `undefined`. */
  function ReadFailure(base: string, key: string): string
  {
    "Cannot read properties of " + base + " (reading '" + key + "')"
  }

  /** Reading `v.key`: throws on null and undefined, reads undefined from a
      primitive, and reads the property (or undefined) from an object. */
  function ReadProperty(v: Value, key: string): (r: Result<Value>)
    ensures r.Err? <==> v == Undefined || v == Null
    ensures v.Obj? && key in v.props ==> r == Ok(v.props[key])
    ensures (v.Obj? && key !in v.props) || v.Bool? || v.Num? || v.Str? ==> r == Ok(Undefined)
  {
    match v
    case Undefined => Err(ReadFailure("undefined", key))
    case Null => Err(ReadFailure("null", key))
    case Obj(props) => Ok(if key in props then props[key] else Undefined)
    case _ => Ok(Undefined)
  }

  /** `u === v` where `u` is a caller's uid: true exactly when `v` is a
      primitive of the same type holding the same value. */
  predicate StrictEquals(u: Uid, v: Value)
  {
    match u
    case UStr(s) => v.Str? && v.s == s
    case UNum(n) => v.Num? && v.n == n
  }

  /** `required.every(prop => !!data[prop])`, walked from the front. */
  function EveryTruthy(data: Payload, props: seq<string>): (r: bool)
    ensures r <==> forall i :: 0 <= i < |props| ==> Truthy(Get(data, props[i]))
    ensures !r ==> exists i :: 0 <= i < |props| && !Truthy(Get(data, props[i]))
  {
    if props == [] then true
    else Truthy(Get(data, props[0])) && EveryTruthy(data, props[1..])
  }

  /** `delete data[key]`: the record with that one property gone. */
  function Without(data: Payload, key: string): (r: Payload)
    ensures key !in r
    ensures r.Keys == data.Keys - {key}
    ensures forall k :: k in r ==> r[k] == data[k]
  {
    data - {key}
  }

  /** Exactly the values the JavaScript falsy list names are falsy (the
      model has no NaN, -0 or bigint). */
  lemma FalsyValues(v: Value)
    ensures !Truthy(v) <==> v in {Undefined, Null, Bool(false), Num(0), Str("")}
  {
  }

  /** Strict equality against a uid is equality with the uid's own value, so
      a string uid never matches a number uid and vice versa. */
  lemma StrictEqualsIsIdentity(u: Uid, v: Value)
    ensures StrictEquals(u, v) <==> v == UidValue(u)
  {
  }
}

/** Request bodies as the validation layer receives them: a JSON object whose
    members are scalars, and the field rules the request models apply to it. */
module Json {
  import opened Wrappers

  /** The JSON scalars a request field can carry. */
  datatype Value = Null | Bool(b: bool) | Int(i: int) | Str(s: string)

  /** A request body: member name to value. */
  type Object = map<string, Value>

  datatype ValidationError =
    | ExtraField          // a member outside the model's declared fields
    | MissingField(key: string)
    | WrongType(key: string)
    | OutOfRange(key: string)

  /** A field declared `str`. */
  function AsStr(v: Value): (r: Option<string>)
    ensures r.Some? <==> v.Str?
    ensures r.Some? ==> v == Str(r.value)
  {
    if v.Str? then Some(v.s) else None
  }

  /** A field declared `int`. */
  function AsInt(v: Value): (r: Option<int>)
    ensures r.Some? <==> v.Int?
    ensures r.Some? ==> v == Int(r.value)
  {
    if v.Int? then Some(v.i) else None
  }

  /** A field with no default: the member must be present and decode; an
      explicit null is a type error, not a missing value. */
  function Required<T>(body: Object, key: string, decode: Value -> Option<T>): (r: Result<T, ValidationError>)
    ensures r.Success? <==> key in body && decode(body[key]).Some?
    ensures r.Success? ==> decode(body[key]) == Some(r.value)
    ensures key !in body ==> r == Failure(MissingField(key))
  {
    if key !in body then Failure(MissingField(key))
    else match decode(body[key])
      case Some(v) => Success(v)
      case None => Failure(WrongType(key))
  }

  /** A field declared `T | None = None`: an absent member and an explicit
      null both give `None`. */
  function Optional<T>(body: Object, key: string, decode: Value -> Option<T>): (r: Result<Option<T>, ValidationError>)
    ensures r.Success? <==> key !in body || body[key] == Null || decode(body[key]).Some?
    ensures r == Success(None) <==> key !in body || body[key] == Null
    ensures r.Success? && r.value.Some? ==> decode(body[key]) == r.value
  {
    if key !in body || body[key] == Null then Success(None)
    else match decode(body[key])
      case Some(v) => Success(Some(v))
      case None => Failure(WrongType(key))
  }

  /** A field declared `T | None = None` in an update model, read back with
      `model_dump(exclude_unset=True)`: an absent member is left out of the
      dict, while an explicit null is kept as a supplied `None`. */
  function Patch<T>(body: Object, key: string, decode: Value -> Option<T>): (r: Result<Supplied<Option<T>>, ValidationError>)
    ensures key !in body ==> r == Success(Omitted)
    ensures key in body ==> (r.Success? <==> body[key] == Null || decode(body[key]).Some?)
    ensures key in body && body[key] == Null ==> r == Success(Given(None))
    ensures r.Success? && r.value.Given? && r.value.value.Some? ==> key in body && decode(body[key]) == r.value.value
  {
    if key !in body then Success(Omitted)
    else if body[key] == Null then Success(Given(None))
    else match decode(body[key])
      case Some(v) => Success(Given(Some(v)))
      case None => Failure(WrongType(key))
  }
}

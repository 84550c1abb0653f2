/** The Character record shapes: the type enum, the stored row, the create and
    update request models, and the public response model. */
module CharacterModels {
  import opened Wrappers
  import opened Json

  /** A character is a hero or a villain, and nothing else. */
  datatype CharacterType = Hero | Villain

  /** The enum member's value, which is what request bodies carry. */
  function TypeValue(t: CharacterType): string {
    match t
    case Hero => "Hero"
    case Villain => "Villain"
  }

  /** The enum member's name, which is what the `character` table stores and
      what a query on `character_type` compares against. */
  function TypeName(t: CharacterType): string {
    match t
    case Hero => "hero"
    case Villain => "villain"
  }

  /** Validation of a `character_type` member: only the two values are accepted. */
  function DecodeType(v: Value): (r: Option<CharacterType>)
    ensures r.Some? <==> v == Str("Hero") || v == Str("Villain")
    ensures r.Some? ==> v == Str(TypeValue(r.value))
  {
    if v == Str("Hero") then Some(Hero)
    else if v == Str("Villain") then Some(Villain)
    else None
  }

  /** Every character type is written and read back as itself. */
  lemma TypeRoundTrip(t: CharacterType)
    ensures DecodeType(Str(TypeValue(t))) == Some(t)
  {
  }

  /** The fields every character has; `name` and `character_type` are
      required, `secret_name` and `age` may be null. The stored row is this
      record under its `character_id` key. */
  datatype CharacterBase = CharacterBase(
    name: string,
    secretName: Option<string>,
    age: Option<int>,
    characterType: CharacterType)

  /** The response model: the base fields plus an always-present integer id. */
  datatype CharacterPublic = CharacterPublic(
    characterId: int,
    name: string,
    secretName: Option<string>,
    age: Option<int>,
    characterType: CharacterType)

  function Publish(id: int, c: CharacterBase): CharacterPublic {
    CharacterPublic(id, c.name, c.secretName, c.age, c.characterType)
  }

  function Fields(p: CharacterPublic): CharacterBase {
    CharacterBase(p.name, p.secretName, p.age, p.characterType)
  }

  /** The members a create or update body may carry; `character_id` is not
      one of them, so a client cannot choose the id. */
  const DeclaredFields: set<string> := {"name", "secret_name", "age", "character_type"}

  /** Validation of a create body against the create model, which forbids
      extra members. */
  function ParseCharacterCreate(body: Object): (r: Result<CharacterBase, ValidationError>)
    ensures r.Success? <==>
      && body.Keys <= DeclaredFields
      && "name" in body && body["name"].Str?
      && "character_type" in body && DecodeType(body["character_type"]).Some?
      && ("secret_name" in body ==> body["secret_name"].Null? || body["secret_name"].Str?)
      && ("age" in body ==> body["age"].Null? || body["age"].Int?)
    ensures r.Success? ==>
      && body["name"] == Str(r.value.name)
      && body["character_type"] == Str(TypeValue(r.value.characterType))
      && (r.value.secretName.None? <==> "secret_name" !in body || body["secret_name"] == Null)
      && (r.value.secretName.Some? ==> body["secret_name"] == Str(r.value.secretName.value))
      && (r.value.age.None? <==> "age" !in body || body["age"] == Null)
      && (r.value.age.Some? ==> body["age"] == Int(r.value.age.value))
  {
    if !(body.Keys <= DeclaredFields) then Failure(ExtraField)
    else
      match (Required(body, "name", AsStr), Optional(body, "secret_name", AsStr),
             Optional(body, "age", AsInt), Required(body, "character_type", DecodeType))
      case (Success(n), Success(sn), Success(a), Success(t)) => Success(CharacterBase(n, sn, a, t))
      case (Failure(e), _, _, _) => Failure(e)
      case (_, Failure(e), _, _) => Failure(e)
      case (_, _, Failure(e), _) => Failure(e)
      case (_, _, _, Failure(e)) => Failure(e)
  }

  /** The body a client sends to create `c`, with null for missing optionals. */
  function CreateBody(c: CharacterBase): Object {
    map[
      "name" := Str(c.name),
      "secret_name" := (if c.secretName.Some? then Str(c.secretName.value) else Null),
      "age" := (if c.age.Some? then Int(c.age.value) else Null),
      "character_type" := Str(TypeValue(c.characterType))]
  }

  /** Every character can be sent and is validated back to itself. */
  lemma CreateBodyRoundTrip(c: CharacterBase)
    ensures ParseCharacterCreate(CreateBody(c)) == Success(c)
  {
  }

  /** A body carrying `character_id` is refused whatever else it holds. */
  lemma CreateRejectsClientId(body: Object)
    requires "character_id" in body
    ensures ParseCharacterCreate(body).Failure?
  {
  }

  /** `name` and `character_type` alone make a valid body; the optional
      fields then default to null. */
  lemma CreateOptionalsDefault(name: string, t: CharacterType)
    ensures ParseCharacterCreate(map["name" := Str(name), "character_type" := Str(TypeValue(t))])
         == Success(CharacterBase(name, None, None, t))
  {
  }

  /** The update model: all four fields optional, extra members forbidden.
      The dict handed to the data-access layer holds only the keys the client
      sent, so each field is either omitted or given (possibly as null). */
  datatype CharacterUpdate = CharacterUpdate(
    name: Supplied<Option<string>>,
    secretName: Supplied<Option<string>>,
    age: Supplied<Option<int>>,
    characterType: Supplied<Option<CharacterType>>)

  /** The dict of an empty update body. */
  const NoChanges: CharacterUpdate := CharacterUpdate(Omitted, Omitted, Omitted, Omitted)

  function ParseCharacterUpdate(body: Object): (r: Result<CharacterUpdate, ValidationError>)
    ensures r.Success? <==>
      && body.Keys <= DeclaredFields
      && ("name" in body ==> body["name"].Null? || body["name"].Str?)
      && ("secret_name" in body ==> body["secret_name"].Null? || body["secret_name"].Str?)
      && ("age" in body ==> body["age"].Null? || body["age"].Int?)
      && ("character_type" in body ==> body["character_type"].Null? || DecodeType(body["character_type"]).Some?)
    ensures r.Success? ==>
      && (r.value.name.Omitted? <==> "name" !in body)
      && (r.value.secretName.Omitted? <==> "secret_name" !in body)
      && (r.value.age.Omitted? <==> "age" !in body)
      && (r.value.characterType.Omitted? <==> "character_type" !in body)
      && (r.value.name == Given(None) <==> "name" in body && body["name"] == Null)
      && (r.value.secretName == Given(None) <==> "secret_name" in body && body["secret_name"] == Null)
      && (r.value.age == Given(None) <==> "age" in body && body["age"] == Null)
      && (r.value.characterType == Given(None) <==> "character_type" in body && body["character_type"] == Null)
      && (r.value.name.Given? && r.value.name.value.Some? ==> body["name"] == Str(r.value.name.value.value))
      && (r.value.secretName.Given? && r.value.secretName.value.Some? ==>
            body["secret_name"] == Str(r.value.secretName.value.value))
      && (r.value.age.Given? && r.value.age.value.Some? ==> body["age"] == Int(r.value.age.value.value))
      && (r.value.characterType.Given? && r.value.characterType.value.Some? ==>
            body["character_type"] == Str(TypeValue(r.value.characterType.value.value)))
  {
    if !(body.Keys <= DeclaredFields) then Failure(ExtraField)
    else
      match (Patch(body, "name", AsStr), Patch(body, "secret_name", AsStr),
             Patch(body, "age", AsInt), Patch(body, "character_type", DecodeType))
      case (Success(n), Success(sn), Success(a), Success(t)) => Success(CharacterUpdate(n, sn, a, t))
      case (Failure(e), _, _, _) => Failure(e)
      case (_, Failure(e), _, _) => Failure(e)
      case (_, _, Failure(e), _) => Failure(e)
      case (_, _, _, Failure(e)) => Failure(e)
  }

  /** The member a client sends for one supplied key: null for a supplied
      `None`, the encoded value otherwise. */
  function Member<T>(field: Supplied<Option<T>>, encode: T -> Value): Value
    requires field.Given?
  {
    if field.value.Some? then encode(field.value.value) else Null
  }

  function StrValue(s: string): Value { Str(s) }
  function IntValue(i: int): Value { Int(i) }
  function TypeMember(t: CharacterType): Value { Str(TypeValue(t)) }

  /** Adds the member for `field` under `key` when the key was supplied. */
  function WithMember<T>(body: Object, key: string, field: Supplied<Option<T>>, encode: T -> Value): (r: Object)
    ensures key in r <==> key in body || field.Given?
    ensures field.Given? ==> r[key] == Member(field, encode)
    ensures forall k :: k in body && k != key ==> k in r && r[k] == body[k]
    ensures forall k :: k in r && k != key ==> k in body
  {
    if field.Given? then body[key := Member(field, encode)] else body
  }

  /** The body a client sends to make the update `u`: one member per
      supplied key, and none for an omitted one. */
  function UpdateBody(u: CharacterUpdate): Object {
    var b := WithMember(map[], "name", u.name, StrValue);
    var b := WithMember(b, "secret_name", u.secretName, StrValue);
    var b := WithMember(b, "age", u.age, IntValue);
    WithMember(b, "character_type", u.characterType, TypeMember)
  }

  /** Reading back one supplied key gives the field that was sent, provided
      decoding undoes encoding. */
  lemma PatchRoundTrip<T>(body: Object, key: string, field: Supplied<Option<T>>,
                          encode: T -> Value, decode: Value -> Option<T>)
    requires key in body <==> field.Given?
    requires field.Given? ==> body[key] == Member(field, encode)
    requires field.Given? && field.value.Some? ==>
      encode(field.value.value) != Null && decode(encode(field.value.value)) == Some(field.value.value)
    ensures Patch(body, key, decode) == Success(field)
  {
  }

  /** Every update dict can be sent and is validated back to itself. */
  lemma UpdateBodyRoundTrip(u: CharacterUpdate)
    ensures ParseCharacterUpdate(UpdateBody(u)) == Success(u)
  {
    var body := UpdateBody(u);
    assert body.Keys <= DeclaredFields;
    PatchRoundTrip(body, "name", u.name, StrValue, AsStr);
    PatchRoundTrip(body, "secret_name", u.secretName, StrValue, AsStr);
    PatchRoundTrip(body, "age", u.age, IntValue, AsInt);
    if u.characterType.Given? && u.characterType.value.Some? {
      TypeRoundTrip(u.characterType.value.value);
    }
    PatchRoundTrip(body, "character_type", u.characterType, TypeMember, DecodeType);
  }

  /** An empty update body is valid and supplies nothing. */
  lemma EmptyUpdateBody()
    ensures ParseCharacterUpdate(map[]) == Success(NoChanges)
  {
  }
}

/** The Powers record shapes: the stored row, the create and update request
    models, and the public response model. */
module PowerModels {
  import opened Wrappers
  import opened Json

  /** The inclusive bounds the base model puts on `power_damage`. */
  const MinDamage: int := 0
  const MaxDamage: int := 1000

  predicate DamageInRange(d: int) {
    MinDamage <= d <= MaxDamage
  }

  /** The fields of a power. The stored row is this record under its
      `power_id` key; `power_name` carries a unique constraint, which the
      store enforces (see `Db.Valid`). */
  datatype PowersBase = PowersBase(powerName: string, powerDamage: int)

  /** The response model: the base fields plus an always-present integer id. */
  datatype PowerPublic = PowerPublic(powerId: int, powerName: string, powerDamage: int)

  function Publish(id: int, p: PowersBase): PowerPublic {
    PowerPublic(id, p.powerName, p.powerDamage)
  }

  function Fields(p: PowerPublic): PowersBase {
    PowersBase(p.powerName, p.powerDamage)
  }

  /** The members a create or update body may carry; `power_id` is not one. */
  const DeclaredFields: set<string> := {"power_name", "power_damage"}

  /** Validation of a create body: both fields required, the damage within
      0..1000, extra members forbidden. */
  function ParsePowerCreate(body: Object): (r: Result<PowersBase, ValidationError>)
    ensures r.Success? <==>
      && body.Keys <= DeclaredFields
      && "power_name" in body && body["power_name"].Str?
      && "power_damage" in body && body["power_damage"].Int?
      && DamageInRange(body["power_damage"].i)
    ensures r.Success? ==>
      && body == map["power_name" := Str(r.value.powerName), "power_damage" := Int(r.value.powerDamage)]
      && DamageInRange(r.value.powerDamage)
  {
    if !(body.Keys <= DeclaredFields) then Failure(ExtraField)
    else
      match (Required(body, "power_name", AsStr), Required(body, "power_damage", AsInt))
      case (Success(n), Success(d)) =>
        if DamageInRange(d) then Success(PowersBase(n, d)) else Failure(OutOfRange("power_damage"))
      case (Failure(e), _) => Failure(e)
      case (_, Failure(e)) => Failure(e)
  }

  function CreateBody(p: PowersBase): Object {
    map["power_name" := Str(p.powerName), "power_damage" := Int(p.powerDamage)]
  }

  /** A power whose damage is in range is sent and validated back to itself;
      one whose damage is out of range is refused. */
  lemma CreateBodyRoundTrip(p: PowersBase)
    ensures DamageInRange(p.powerDamage) ==> ParsePowerCreate(CreateBody(p)) == Success(p)
    ensures !DamageInRange(p.powerDamage) ==> ParsePowerCreate(CreateBody(p)).Failure?
  {
  }

  /** The update model: both fields optional, extra members forbidden, and no
      range check on the damage. */
  datatype PowerUpdate = PowerUpdate(
    powerName: Supplied<Option<string>>,
    powerDamage: Supplied<Option<int>>)

  const NoChanges: PowerUpdate := PowerUpdate(Omitted, Omitted)

  function ParsePowerUpdate(body: Object): (r: Result<PowerUpdate, ValidationError>)
    ensures r.Success? <==>
      && body.Keys <= DeclaredFields
      && ("power_name" in body ==> body["power_name"].Null? || body["power_name"].Str?)
      && ("power_damage" in body ==> body["power_damage"].Null? || body["power_damage"].Int?)
    ensures r.Success? ==>
      && (r.value.powerName.Omitted? <==> "power_name" !in body)
      && (r.value.powerDamage.Omitted? <==> "power_damage" !in body)
      && (r.value.powerName == Given(None) <==> "power_name" in body && body["power_name"] == Null)
      && (r.value.powerDamage == Given(None) <==> "power_damage" in body && body["power_damage"] == Null)
      && (r.value.powerName.Given? && r.value.powerName.value.Some? ==>
            body["power_name"] == Str(r.value.powerName.value.value))
      && (r.value.powerDamage.Given? && r.value.powerDamage.value.Some? ==>
            body["power_damage"] == Int(r.value.powerDamage.value.value))
  {
    if !(body.Keys <= DeclaredFields) then Failure(ExtraField)
    else
      match (Patch(body, "power_name", AsStr), Patch(body, "power_damage", AsInt))
      case (Success(n), Success(d)) => Success(PowerUpdate(n, d))
      case (Failure(e), _) => Failure(e)
      case (_, Failure(e)) => Failure(e)
  }

  /** The update model accepts any integer damage, in range or not. */
  lemma UpdateAcceptsAnyDamage(d: int)
    ensures ParsePowerUpdate(map["power_damage" := Int(d)]) == Success(PowerUpdate(Omitted, Given(Some(d))))
  {
  }
}

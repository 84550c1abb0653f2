/** The Powers data-access operations. */
module PowersCrud {
  import opened Wrappers
  import opened Ids
  import opened PowerModels
  import opened Db

  /** Every stored power, as public rows. */
  function AllPowers(s: Store): (r: set<PowerPublic>)
    ensures forall p :: p in r <==> p.powerId in s.powers && s.powers[p.powerId] == Fields(p)
  {
    set id | id in s.powers :: Publish(id, s.powers[id])
  }

  /** Inserting a power. The layer does not check the name itself; a name
      already in use breaks the unique constraint at commit, which raises, and
      the transaction is rolled back. */
  function CreatePower(s: Store, power: PowersBase): (r: Step<Write<PowerPublic>>)
    ensures power.powerName in PowerNames(s) ==> r == Step(s, Rejected)
    ensures power.powerName !in PowerNames(s) ==>
      && r.out.Done? && r.out.value.powerId !in s.powers && r.out.value.powerId >= 1
      && Fields(r.out.value) == power
      && r.store == s.(powers := s.powers[r.out.value.powerId := power])
    ensures Valid(s) ==> Valid(r.store)
  {
    if power.powerName in PowerNames(s) then Step(s, Rejected)
    else
      var id := NextId(s.powers.Keys);
      Step(s.(powers := s.powers[id := power]), Done(Publish(id, power)))
  }

  /** The names of the stored powers. */
  function PowerNames(s: Store): (r: set<string>)
    ensures forall n :: n in r <==> exists k :: k in s.powers && s.powers[k].powerName == n
  {
    set k | k in s.powers :: s.powers[k].powerName
  }

  /** Reading powers, as written: the branches are the wrong way round. A
      truthy id returns the whole table; a falsy one looks up that falsy
      value, which for `None` matches nothing and for `0` matches power 0. */
  function ReadPowers(s: Store, powerId: Option<int>): (r: Read<PowerPublic>)
    ensures Truthy(powerId) ==>
      r.Listed? && forall p :: p in r.items <==> p.powerId in s.powers && s.powers[p.powerId] == Fields(p)
    ensures powerId == None ==> r == Missing
    ensures powerId == Some(0) ==> (r.Found? <==> 0 in s.powers)
    ensures !Truthy(powerId) ==> !r.Listed?
    ensures r.Found? ==> r.item.powerId == 0 && s.powers[0] == Fields(r.item)
  {
    if Truthy(powerId) then Listed(AllPowers(s))
    else if powerId.Some? && powerId.value in s.powers then Found(Publish(powerId.value, s.powers[powerId.value]))
    else Missing
  }

  /** Reading powers as documented: the whole table without an id, the one
      power with that id (or `None`) otherwise. */
  function ReadPowersIntended(s: Store, powerId: Option<int>): (r: Read<PowerPublic>)
    ensures !Truthy(powerId) ==>
      r.Listed? && forall p :: p in r.items <==> p.powerId in s.powers && s.powers[p.powerId] == Fields(p)
    ensures Truthy(powerId) ==> !r.Listed? && (r.Found? <==> powerId.value in s.powers)
    ensures r.Found? ==> r.item.powerId == powerId.value && s.powers[r.item.powerId] == Fields(r.item)
  {
    if !Truthy(powerId) then Listed(AllPowers(s))
    else if powerId.value in s.powers then Found(Publish(powerId.value, s.powers[powerId.value]))
    else Missing
  }

  /** With two stored powers, asking for one of them returns both as
      written, and only the one asked for as intended. */
  lemma ReadPowersInverted()
    ensures var s := Empty.(powers := map[1 := PowersBase("Flight", 10), 2 := PowersBase("Telepathy", 20)]);
      && ReadPowers(s, Some(1)) == Listed({PowerPublic(1, "Flight", 10), PowerPublic(2, "Telepathy", 20)})
      && ReadPowersIntended(s, Some(1)) == Found(PowerPublic(1, "Flight", 10))
  {
  }

  /** The stored row `after` is `before` with each supplied key overwritten. */
  predicate Patched(before: PowersBase, upd: PowerUpdate, after: PowersBase) {
    && Follows(Some(before.powerName), upd.powerName, Some(after.powerName))
    && Follows(Some(before.powerDamage), upd.powerDamage, Some(after.powerDamage))
  }

  /** Updating a power from the dict of supplied keys. A null name or damage
      breaks a NOT NULL constraint, and a name another power has breaks the
      unique constraint; either way the commit raises and nothing is stored.
      There is no range check: the damage may leave 0..1000. */
  function UpdatePower(s: Store, powerId: int, upd: PowerUpdate): (r: Step<Write<PowerPublic>>)
    ensures powerId !in s.powers ==> r == Step(s, Absent)
    ensures powerId in s.powers && Clashes(s, powerId, upd) ==> r == Step(s, Rejected)
    ensures powerId in s.powers && !Clashes(s, powerId, upd) ==>
      && r.out.Done? && r.out.value.powerId == powerId
      && Patched(s.powers[powerId], upd, Fields(r.out.value))
      && r.store == s.(powers := s.powers[powerId := Fields(r.out.value)])
    ensures Valid(s) ==> Valid(r.store)
  {
    if powerId !in s.powers then Step(s, Absent)
    else if Clashes(s, powerId, upd) then Step(s, Rejected)
    else
      var p := s.powers[powerId];
      var name := if upd.powerName.Given? then upd.powerName.value.value else p.powerName;
      var damage := if upd.powerDamage.Given? then upd.powerDamage.value.value else p.powerDamage;
      var updated := PowersBase(name, damage);
      Step(s.(powers := s.powers[powerId := updated]), Done(Publish(powerId, updated)))
  }

  /** The update would break a constraint of the `powers` table. */
  predicate Clashes(s: Store, powerId: int, upd: PowerUpdate) {
    || upd.powerName == Given(None)
    || upd.powerDamage == Given(None)
    || (upd.powerName.Given? && upd.powerName.value.Some? && NameInUse(s.powers, upd.powerName.value.value, powerId))
  }

  /** Deleting a power returns its last state and removes exactly its row;
      the join pairs that name it stay behind. */
  function DeletePower(s: Store, powerId: int): (r: Step<Option<PowerPublic>>)
    ensures powerId !in s.powers ==> r == Step(s, None)
    ensures powerId in s.powers ==>
      && r.out.Some? && r.out.value.powerId == powerId
      && Fields(r.out.value) == s.powers[powerId]
      && r.store.powers.Keys == s.powers.Keys - {powerId}
      && (forall k :: k in r.store.powers ==> r.store.powers[k] == s.powers[k])
      && r.store.characters == s.characters && r.store.links == s.links && r.store.heroes == s.heroes
    ensures Valid(s) ==> Valid(r.store)
  {
    if powerId !in s.powers then Step(s, None)
    else Step(s.(powers := s.powers - {powerId}), Some(Publish(powerId, s.powers[powerId])))
  }

  /** Creating two powers with the same name: the first succeeds, the second
      is refused and changes nothing. */
  lemma CreateSameNameTwice(s: Store, a: PowersBase, b: PowersBase)
    requires a.powerName !in PowerNames(s) && b.powerName == a.powerName
    ensures var first := CreatePower(s, a);
      && first.out.Done?
      && CreatePower(first.store, b) == Step(first.store, Rejected)
  {
    var first := CreatePower(s, a);
    assert a.powerName == first.store.powers[first.out.value.powerId].powerName;
  }

  /** A power created from a validated create body has its damage in 0..1000. */
  lemma CreatedDamageInRange(s: Store, body: Json.Object)
    requires ParsePowerCreate(body).Success?
    ensures var r := CreatePower(s, ParsePowerCreate(body).value);
      r.out.Done? ==> DamageInRange(r.store.powers[r.out.value.powerId].powerDamage)
  {
  }

  /** An update, on the other hand, can store any damage: the range is not
      an invariant of the table. */
  lemma UpdateLeavesRange(s: Store, powerId: int)
    requires powerId in s.powers
    ensures var r := UpdatePower(s, powerId, ParsePowerUpdate(map["power_damage" := Json.Int(MaxDamage + 1)]).value);
      r.out.Done? && !DamageInRange(r.store.powers[powerId].powerDamage)
  {
  }

  /** An empty update body leaves the power as it was. */
  lemma UpdateEmptyIsIdentity(s: Store, powerId: int)
    requires powerId in s.powers
    ensures UpdatePower(s, powerId, NoChanges) == Step(s, Done(Publish(powerId, s.powers[powerId])))
  {
  }

  /** After a delete, reading the deleted id as written returns the whole
      remaining table, while the intended single read finds nothing. */
  lemma DeleteThenRead(s: Store, powerId: int)
    requires powerId != 0
    ensures var after := DeletePower(s, powerId).store;
      ReadPowers(after, Some(powerId)) == Listed(AllPowers(after))
    ensures ReadPowersIntended(DeletePower(s, powerId).store, Some(powerId)) == Missing
  {
  }
}

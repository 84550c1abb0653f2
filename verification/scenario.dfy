/** Whole-store consequences of chaining several data-access calls. */
module Scenario {
  import opened Wrappers
  import opened Json
  import opened CharacterModels
  import opened PowerModels
  import opened Db
  import CharacterCrud
  import PowersCrud
  import CharacterPowerCrud

  /** From an empty database: create a power and a character from their
      request bodies, give the power to the character, list it, take it away
      and list again. */
  lemma AssignListRemove()
    ensures
      var power := ParsePowerCreate(map["power_name" := Str("Web Shooting"), "power_damage" := Int(320)]);
      var spider := ParseCharacterCreate(map["name" := Str("Spiderman"), "character_type" := Str("Hero")]);
      && power == Success(PowersBase("Web Shooting", 320))
      && spider == Success(CharacterBase("Spiderman", None, None, Hero))
      && var p := PowersCrud.CreatePower(Empty, power.value);
      && p.out == Done(PowerPublic(1, "Web Shooting", 320))
      && var c := CharacterCrud.CreateCharacter(p.store, spider.value);
      && c.out.characterId == 1
      && var a := CharacterPowerCrud.AssignPowerToCharacter(c.store, 1, 1);
      && a.out == Some(true)
      && CharacterPowerCrud.ReadCharactersPowers(a.store, 1) == Some({PowerPublic(1, "Web Shooting", 320)})
      && var d := CharacterPowerCrud.DeleteCharacterPower(a.store, 1, 1);
      && d.out
      && CharacterPowerCrud.ReadCharactersPowers(d.store, 1) == Some({})
  {
    CreateOptionalsDefault("Spiderman", Hero);
    var p := PowersCrud.CreatePower(Empty, PowersBase("Web Shooting", 320));
    var c := CharacterCrud.CreateCharacter(p.store, CharacterBase("Spiderman", None, None, Hero));
    var a := CharacterPowerCrud.AssignPowerToCharacter(c.store, 1, 1);
    var listed := CharacterPowerCrud.ReadCharactersPowers(a.store, 1).value;
    assert PowerPublic(1, "Web Shooting", 320) in listed;
    assert listed == {PowerPublic(1, "Web Shooting", 320)};
    var d := CharacterPowerCrud.DeleteCharacterPower(a.store, 1, 1);
    var after := CharacterPowerCrud.ReadCharactersPowers(d.store, 1).value;
    assert after == {};
  }

  /** Deletes leave join pairs behind, and the next character created may be
      given the deleted one's id: assigning it the deleted character's power
      is refused as already assigned, removing that power succeeds, and under
      the explicit join it starts out listing that power. */
  lemma ReusedIdInheritsPowers()
    ensures
      var web := PowersBase("Web Shooting", 320);
      var s := Empty.(characters := map[1 := CharacterBase("Spiderman", None, None, Hero)],
                      powers := map[1 := web], links := {(1, 1)});
      var d := CharacterCrud.DeleteCharacter(s, 1);
      var c := CharacterCrud.CreateCharacter(d.store, CharacterBase("Venom", None, None, Villain));
      && c.out.characterId == 1
      && CharacterPowerCrud.AssignPowerToCharacter(c.store, 1, 1).out == Some(false)
      && CharacterPowerCrud.DeleteCharacterPower(c.store, 1, 1).out
      && CharacterPowerCrud.ReadCharactersPowers(c.store, 1) == Some({PowerPublic(1, "Web Shooting", 320)})
  {
    var web := PowersBase("Web Shooting", 320);
    var s := Empty.(characters := map[1 := CharacterBase("Spiderman", None, None, Hero)],
                    powers := map[1 := web], links := {(1, 1)});
    var d := CharacterCrud.DeleteCharacter(s, 1);
    assert d.store.characters.Keys == {};
    var c := CharacterCrud.CreateCharacter(d.store, CharacterBase("Venom", None, None, Villain));
    var listed := CharacterPowerCrud.ReadCharactersPowers(c.store, 1).value;
    assert PowerPublic(1, "Web Shooting", 320) in listed;
    assert listed == {PowerPublic(1, "Web Shooting", 320)};
  }
}

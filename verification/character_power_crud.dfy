/** Assigning powers to characters through the `characterpower` join table. */
module CharacterPowerCrud {
  import opened Wrappers
  import opened PowerModels
  import opened Db

  /** Giving a power to a character: `None` if either is missing, `False` if
      the pair is already there (the composite primary key refuses the
      insert and the transaction is rolled back), `True` once the pair is
      stored. */
  function AssignPowerToCharacter(s: Store, characterId: int, powerId: int): (r: Step<Option<bool>>)
    ensures r.out.None? <==> characterId !in s.characters || powerId !in s.powers
    ensures r.out != Some(true) ==> r.store == s
    ensures r.out == Some(false) <==> characterId in s.characters && powerId in s.powers && (characterId, powerId) in s.links
    ensures r.out == Some(true) ==>
      && (characterId, powerId) !in s.links
      && r.store == s.(links := s.links + {(characterId, powerId)})
  {
    if characterId !in s.characters || powerId !in s.powers then Step(s, None)
    else if (characterId, powerId) in s.links then Step(s, Some(false))
    else Step(s.(links := s.links + {(characterId, powerId)}), Some(true))
  }

  /** A character's powers, found by joining through the pair set: `None`
      if the character is missing, otherwise exactly the stored powers
      paired with it. A pair whose power is gone contributes nothing. */
  function ReadCharactersPowers(s: Store, characterId: int): (r: Option<set<PowerPublic>>)
    ensures r.None? <==> characterId !in s.characters
    ensures r.Some? ==> forall p :: p in r.value <==>
      && (characterId, p.powerId) in s.links
      && p.powerId in s.powers && s.powers[p.powerId] == Fields(p)
  {
    if characterId !in s.characters then None
    else Some(set k | k in s.powers && (characterId, k) in s.links :: Publish(k, s.powers[k]))
  }

  /** Taking a power away from a character: `False` if the pair is not
      stored (whether or not the character and power exist), otherwise the
      pair is removed and nothing else changes. */
  function DeleteCharacterPower(s: Store, characterId: int, powerId: int): (r: Step<bool>)
    ensures !r.out <==> (characterId, powerId) !in s.links
    ensures !r.out ==> r.store == s
    ensures r.out ==>
      && r.store.links == s.links - {(characterId, powerId)}
      && r.store.characters == s.characters && r.store.powers == s.powers && r.store.heroes == s.heroes
  {
    if (characterId, powerId) !in s.links then Step(s, false)
    else Step(s.(links := s.links - {(characterId, powerId)}), true)
  }

  /** Assigning the same pair twice: the second call reports `False`. */
  lemma AssignTwice(s: Store, characterId: int, powerId: int)
    requires AssignPowerToCharacter(s, characterId, powerId).out == Some(true)
    ensures var first := AssignPowerToCharacter(s, characterId, powerId);
      AssignPowerToCharacter(first.store, characterId, powerId) == Step(first.store, Some(false))
  {
  }

  /** A successful assignment followed by removing the same pair restores
      the store exactly. */
  lemma AssignThenUnassign(s: Store, characterId: int, powerId: int)
    requires AssignPowerToCharacter(s, characterId, powerId).out == Some(true)
    ensures var first := AssignPowerToCharacter(s, characterId, powerId);
      DeleteCharacterPower(first.store, characterId, powerId) == Step(s, true)
  {
  }

  /** After an assignment that did not report a missing row, the power is
      among the character's powers, and every power listed before still is. */
  lemma AssignThenList(s: Store, characterId: int, powerId: int)
    requires AssignPowerToCharacter(s, characterId, powerId).out.Some?
    ensures var after := AssignPowerToCharacter(s, characterId, powerId).store;
      && ReadCharactersPowers(after, characterId).Some?
      && ReadCharactersPowers(after, characterId).value
         == ReadCharactersPowers(s, characterId).value + {Publish(powerId, s.powers[powerId])}
  {
  }

  /** After removing a pair, no power with that id is listed for the character. */
  lemma UnassignThenList(s: Store, characterId: int, powerId: int)
    requires characterId in s.characters
    ensures var after := DeleteCharacterPower(s, characterId, powerId).store;
      forall p :: p in ReadCharactersPowers(after, characterId).value ==> p.powerId != powerId
  {
  }
}

/** The Character data-access operations. */
module CharacterCrud {
  import opened Wrappers
  import opened Ids
  import opened CharacterModels
  import opened Db

  /** Every stored character, as public rows. */
  function AllCharacters(s: Store): (r: set<CharacterPublic>)
    ensures forall c :: c in r <==> c.characterId in s.characters && s.characters[c.characterId] == Fields(c)
  {
    set id | id in s.characters :: Publish(id, s.characters[id])
  }

  /** Inserting a character: the engine assigns an id no stored character has,
      and the row comes back with it. */
  function CreateCharacter(s: Store, c: CharacterBase): (r: Step<CharacterPublic>)
    ensures r.out.characterId !in s.characters && r.out.characterId >= 1
    ensures Fields(r.out) == c
    ensures r.store == s.(characters := s.characters[r.out.characterId := c])
  {
    var id := NextId(s.characters.Keys);
    Step(s.(characters := s.characters[id := c]), Publish(id, c))
  }

  /** Reading characters: with a falsy id (`None` or `0`) the whole table,
      otherwise the one character with that id, or `None`. */
  function ReadCharacters(s: Store, characterId: Option<int>): (r: Read<CharacterPublic>)
    ensures !Truthy(characterId) ==>
      r.Listed? && forall c :: c in r.items <==> c.characterId in s.characters && s.characters[c.characterId] == Fields(c)
    ensures Truthy(characterId) ==> !r.Listed?
    ensures Truthy(characterId) ==> (r.Found? <==> characterId.value in s.characters)
    ensures r.Found? ==> r.item.characterId == characterId.value && s.characters[r.item.characterId] == Fields(r.item)
  {
    if !Truthy(characterId) then Listed(AllCharacters(s))
    else if characterId.value in s.characters then Found(Publish(characterId.value, s.characters[characterId.value]))
    else Missing
  }

  /** The stored row `after` is `before` patched by `args` as the source
      does it: `name`, `secret_name` and `age` take the supplied value when
      the key was sent, and `character_type` never changes. */
  predicate PatchedAsWritten(before: CharacterBase, args: CharacterUpdate, after: CharacterBase) {
    && Follows(Some(before.name), args.name, Some(after.name))
    && Follows(before.secretName, args.secretName, after.secretName)
    && Follows(before.age, args.age, after.age)
    && after.characterType == before.characterType
  }

  /** Updating a character from the dict of supplied keys. A null `name`
      breaks the column's NOT NULL constraint, so the commit fails and
      nothing is stored. */
  function UpdateCharacter(s: Store, characterId: int, args: CharacterUpdate): (r: Step<Write<CharacterPublic>>)
    ensures characterId !in s.characters ==> r == Step(s, Absent)
    ensures characterId in s.characters && args.name == Given(None) ==> r == Step(s, Rejected)
    ensures characterId in s.characters && args.name != Given(None) ==>
      && r.out.Done? && r.out.value.characterId == characterId
      && PatchedAsWritten(s.characters[characterId], args, Fields(r.out.value))
      && r.store == s.(characters := s.characters[characterId := Fields(r.out.value)])
  {
    if characterId !in s.characters then Step(s, Absent)
    else if args.name == Given(None) then Step(s, Rejected)
    else
      var c := s.characters[characterId];
      var name := if args.name.Given? then args.name.value.value else c.name;
      var secretName := if args.secretName.Given? then args.secretName.value else c.secretName;
      var age := if args.age.Given? then args.age.value else c.age;
      var updated := CharacterBase(name, secretName, age, c.characterType);
      Step(s.(characters := s.characters[characterId := updated]), Done(Publish(characterId, updated)))
  }

  /** The update the request model and the router's documentation promise:
      `character_type` is patched like the other fields (a null type breaks
      its NOT NULL constraint, like a null name). */
  predicate Patched(before: CharacterBase, args: CharacterUpdate, after: CharacterBase) {
    && Follows(Some(before.name), args.name, Some(after.name))
    && Follows(before.secretName, args.secretName, after.secretName)
    && Follows(before.age, args.age, after.age)
    && Follows(Some(before.characterType), args.characterType, Some(after.characterType))
  }

  function UpdateCharacterIntended(s: Store, characterId: int, args: CharacterUpdate): (r: Step<Write<CharacterPublic>>)
    ensures characterId !in s.characters ==> r == Step(s, Absent)
    ensures characterId in s.characters && (args.name == Given(None) || args.characterType == Given(None)) ==>
      r == Step(s, Rejected)
    ensures characterId in s.characters && args.name != Given(None) && args.characterType != Given(None) ==>
      && r.out.Done? && r.out.value.characterId == characterId
      && Patched(s.characters[characterId], args, Fields(r.out.value))
      && r.store == s.(characters := s.characters[characterId := Fields(r.out.value)])
  {
    if characterId !in s.characters then Step(s, Absent)
    else if args.name == Given(None) || args.characterType == Given(None) then Step(s, Rejected)
    else
      var c := s.characters[characterId];
      var name := if args.name.Given? then args.name.value.value else c.name;
      var secretName := if args.secretName.Given? then args.secretName.value else c.secretName;
      var age := if args.age.Given? then args.age.value else c.age;
      var t := if args.characterType.Given? then args.characterType.value.value else c.characterType;
      var updated := CharacterBase(name, secretName, age, t);
      Step(s.(characters := s.characters[characterId := updated]), Done(Publish(characterId, updated)))
  }

  /** As written, a supplied `character_type` is dropped: the update succeeds
      and the character keeps its old type. */
  lemma UpdateDropsType(s: Store, characterId: int, t: CharacterType)
    requires characterId in s.characters && s.characters[characterId].characterType != t
    ensures var r := UpdateCharacter(s, characterId, CharacterUpdate(Omitted, Omitted, Omitted, Given(Some(t))));
      r.out.Done? && r.out.value.characterType != t
    ensures var r := UpdateCharacterIntended(s, characterId, CharacterUpdate(Omitted, Omitted, Omitted, Given(Some(t))));
      r.out.Done? && r.out.value.characterType == t
  {
  }

  /** An empty update body leaves the record as it was (both versions). */
  lemma UpdateEmptyIsIdentity(s: Store, characterId: int)
    requires characterId in s.characters
    ensures UpdateCharacter(s, characterId, NoChanges) == Step(s, Done(Publish(characterId, s.characters[characterId])))
    ensures UpdateCharacterIntended(s, characterId, NoChanges) == UpdateCharacter(s, characterId, NoChanges)
  {
  }

  /** Deleting a character returns its last state and removes exactly its
      row; the join pairs that name it stay behind. */
  function DeleteCharacter(s: Store, characterId: int): (r: Step<Option<CharacterPublic>>)
    ensures characterId !in s.characters ==> r == Step(s, None)
    ensures characterId in s.characters ==>
      && r.out.Some? && r.out.value.characterId == characterId
      && Fields(r.out.value) == s.characters[characterId]
      && r.store.characters.Keys == s.characters.Keys - {characterId}
      && (forall k :: k in r.store.characters ==> r.store.characters[k] == s.characters[k])
      && r.store.powers == s.powers && r.store.links == s.links && r.store.heroes == s.heroes
  {
    if characterId !in s.characters then Step(s, None)
    else Step(s.(characters := s.characters - {characterId}), Some(Publish(characterId, s.characters[characterId])))
  }

  /** Listing the characters of one category. The category is compared with
      the enum member names `hero` and `villain` (not the values `Hero` and
      `Villain` that request bodies carry); anything else gives `None`. */
  function GetHeroesOrVillains(s: Store, characterType: string): (r: Option<set<CharacterPublic>>)
    ensures r.Some? <==> characterType == "hero" || characterType == "villain"
    ensures r.Some? ==> forall c :: c in r.value <==>
      && c.characterId in s.characters && s.characters[c.characterId] == Fields(c)
      && TypeName(c.characterType) == characterType
  {
    if characterType != "hero" && characterType != "villain" then None
    else Some(set id | id in s.characters && TypeName(s.characters[id].characterType) == characterType
                :: Publish(id, s.characters[id]))
  }

  /** A created character can be read back by its id. */
  lemma CreateThenRead(s: Store, c: CharacterBase)
    ensures var r := CreateCharacter(s, c);
      ReadCharacters(r.store, Some(r.out.characterId)) == Found(r.out)
  {
  }

  /** After a delete, reading the id gives `None`; reading id 0 lists the table. */
  lemma DeleteThenRead(s: Store, characterId: int)
    ensures characterId != 0 ==> ReadCharacters(DeleteCharacter(s, characterId).store, Some(characterId)) == Missing
    ensures characterId == 0 ==> ReadCharacters(DeleteCharacter(s, characterId).store, Some(characterId)).Listed?
  {
  }

  /** The hero and villain listings split the whole table between them. */
  lemma CategoriesPartition(s: Store)
    ensures GetHeroesOrVillains(s, "hero").value + GetHeroesOrVillains(s, "villain").value == AllCharacters(s)
    ensures GetHeroesOrVillains(s, "hero").value !! GetHeroesOrVillains(s, "villain").value
  {
  }
}

/** The legacy Hero data-access operations: the Character operations without
    a type. */
module HeroCrud {
  import opened Wrappers
  import opened Ids
  import opened HeroModels
  import opened Db

  /** Every stored hero, as public rows. */
  function AllHeroes(s: Store): (r: set<HeroPublic>)
    ensures forall h :: h in r <==> h.id in s.heroes && s.heroes[h.id] == Fields(h)
  {
    set id | id in s.heroes :: Publish(id, s.heroes[id])
  }

  /** Inserting a hero under an id no stored hero has. */
  function CreateHero(s: Store, h: HeroBase): (r: Step<HeroPublic>)
    ensures r.out.id !in s.heroes && r.out.id >= 1
    ensures Fields(r.out) == h
    ensures r.store == s.(heroes := s.heroes[r.out.id := h])
  {
    var id := NextId(s.heroes.Keys);
    Step(s.(heroes := s.heroes[id := h]), Publish(id, h))
  }

  /** Reading heroes: with a falsy id (`None` or `0`) the whole table,
      otherwise the one hero with that id, or `None`. */
  function ReadHeroes(s: Store, heroId: Option<int>): (r: Read<HeroPublic>)
    ensures !Truthy(heroId) ==>
      r.Listed? && forall h :: h in r.items <==> h.id in s.heroes && s.heroes[h.id] == Fields(h)
    ensures Truthy(heroId) ==> !r.Listed?
    ensures Truthy(heroId) ==> (r.Found? <==> heroId.value in s.heroes)
    ensures r.Found? ==> r.item.id == heroId.value && s.heroes[r.item.id] == Fields(r.item)
  {
    if !Truthy(heroId) then Listed(AllHeroes(s))
    else if heroId.value in s.heroes then Found(Publish(heroId.value, s.heroes[heroId.value]))
    else Missing
  }

  predicate Patched(before: HeroBase, args: HeroUpdate, after: HeroBase) {
    && Follows(Some(before.name), args.name, Some(after.name))
    && Follows(before.secretName, args.secretName, after.secretName)
    && Follows(before.age, args.age, after.age)
  }

  /** Updating a hero from the dict of supplied keys; a null `name` breaks
      its NOT NULL constraint and nothing is stored. */
  function UpdateHero(s: Store, heroId: int, args: HeroUpdate): (r: Step<Write<HeroPublic>>)
    ensures heroId !in s.heroes ==> r == Step(s, Absent)
    ensures heroId in s.heroes && args.name == Given(None) ==> r == Step(s, Rejected)
    ensures heroId in s.heroes && args.name != Given(None) ==>
      && r.out.Done? && r.out.value.id == heroId
      && Patched(s.heroes[heroId], args, Fields(r.out.value))
      && r.store == s.(heroes := s.heroes[heroId := Fields(r.out.value)])
  {
    if heroId !in s.heroes then Step(s, Absent)
    else if args.name == Given(None) then Step(s, Rejected)
    else
      var h := s.heroes[heroId];
      var name := if args.name.Given? then args.name.value.value else h.name;
      var secretName := if args.secretName.Given? then args.secretName.value else h.secretName;
      var age := if args.age.Given? then args.age.value else h.age;
      var updated := HeroBase(name, secretName, age);
      Step(s.(heroes := s.heroes[heroId := updated]), Done(Publish(heroId, updated)))
  }

  /** An empty update body leaves the hero as it was. */
  lemma UpdateEmptyIsIdentity(s: Store, heroId: int)
    requires heroId in s.heroes
    ensures UpdateHero(s, heroId, NoChanges) == Step(s, Done(Publish(heroId, s.heroes[heroId])))
  {
  }

  /** Deleting a hero returns its last state and removes exactly its row. */
  function DeleteHero(s: Store, heroId: int): (r: Step<Option<HeroPublic>>)
    ensures heroId !in s.heroes ==> r == Step(s, None)
    ensures heroId in s.heroes ==>
      && r.out.Some? && r.out.value.id == heroId
      && Fields(r.out.value) == s.heroes[heroId]
      && r.store.heroes.Keys == s.heroes.Keys - {heroId}
      && (forall k :: k in r.store.heroes ==> r.store.heroes[k] == s.heroes[k])
      && r.store.characters == s.characters && r.store.powers == s.powers && r.store.links == s.links
  {
    if heroId !in s.heroes then Step(s, None)
    else Step(s.(heroes := s.heroes - {heroId}), Some(Publish(heroId, s.heroes[heroId])))
  }

  /** A created hero can be read back; a deleted one cannot. */
  lemma CreateThenReadThenDelete(s: Store, h: HeroBase)
    ensures var c := CreateHero(s, h);
      && ReadHeroes(c.store, Some(c.out.id)) == Found(c.out)
      && DeleteHero(c.store, c.out.id).out == Some(c.out)
      && ReadHeroes(DeleteHero(c.store, c.out.id).store, Some(c.out.id)) == Missing
  {
  }
}

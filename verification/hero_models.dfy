/** The legacy Hero record shapes: like a character without a type. */
module HeroModels {
  import opened Wrappers

  datatype HeroBase = HeroBase(name: string, secretName: Option<string>, age: Option<int>)

  /** The response model: the base fields plus an always-present integer id. */
  datatype HeroPublic = HeroPublic(id: int, name: string, secretName: Option<string>, age: Option<int>)

  function Publish(id: int, h: HeroBase): HeroPublic {
    HeroPublic(id, h.name, h.secretName, h.age)
  }

  function Fields(p: HeroPublic): HeroBase {
    HeroBase(p.name, p.secretName, p.age)
  }

  /** The dict of a hero update body: each key omitted or given. */
  datatype HeroUpdate = HeroUpdate(
    name: Supplied<Option<string>>,
    secretName: Supplied<Option<string>>,
    age: Supplied<Option<int>>)

  const NoChanges: HeroUpdate := HeroUpdate(Omitted, Omitted, Omitted)
}

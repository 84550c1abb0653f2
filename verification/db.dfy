/** The database as the data-access layer sees it: one map from surrogate key
    to row per table, and the `characterpower` join table as a set of
    (character_id, power_id) pairs. Each commit is atomic, so every CRUD call
    is a function from the store before to the store after. */
module Db {
  import C = CharacterModels
  import P = PowerModels
  import H = HeroModels

  datatype Store = Store(
    characters: map<int, C.CharacterBase>,
    powers: map<int, P.PowersBase>,
    links: set<(int, int)>,
    heroes: map<int, H.HeroBase>)

  /** The store after a call, and what the call returned. */
  datatype Step<T> = Step(store: Store, out: T)

  const Empty: Store := Store(map[], map[], {}, map[])

  /** Some stored power other than `except` is called `name`. */
  predicate NameInUse(powers: map<int, P.PowersBase>, name: string, except: int) {
    exists k :: k in powers && k != except && powers[k].powerName == name
  }

  /** The unique constraint on `power_name`. */
  predicate UniquePowerNames(powers: map<int, P.PowersBase>) {
    forall i, j :: i in powers && j in powers && i != j ==> powers[i].powerName != powers[j].powerName
  }

  /** The constraints the storage layer enforces on every committed state.
      The join table's foreign keys are not among them: deletes do not
      cascade, so a pair may outlive the character or the power it names. */
  predicate Valid(s: Store) {
    UniquePowerNames(s.powers)
  }
}

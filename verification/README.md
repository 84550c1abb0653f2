# Heroes and Villains: the data-access layer

This project models the CRUD layer of a small hero/villain catalogue service.
The layer handles characters (heroes or villains), powers with a damage
value, the many-to-many assignment of powers to characters, and the legacy
standalone heroes. The database is modelled as an in-memory store:

- one map per table from surrogate key to row: `characters`, `powers` and `heroes`;
- a set of `(character_id, power_id)` pairs for the `characterpower` join table.

Every data-access call that writes is a pure function
`Store -> Step(store', outcome)`. The reads (`ReadCharacters`, `ReadPowers`,
`ReadHeroes`, `ReadCharactersPowers`, `GetHeroesOrVillains`) are functions
`Store -> outcome` that leave the store as it was. Outcomes have the shape the
source returns:
- `None` / `False` / `True`;
- a row, as its public projection with the id filled in;
- a collection of rows.

Commits are atomic. When a commit raises an integrity error that the layer does
not catch, the model returns `Rejected` and leaves the store unchanged. This
covers a duplicate `power_name` and a null written into a NOT NULL column. A
duplicate join pair is different: `assign_power_to_character` catches the
error, rolls back and returns `False`, which the model returns as `Some(false)`
with the store unchanged.

The request models are modelled as validation functions over a JSON object of
scalars. Each one says when a create or update body is accepted and what it
turns into. An update body becomes a record that says, per field, whether the
key was sent and with what value (possibly null). This is what
`model_dump(exclude_unset=True)` hands to the data-access layer.

Modules (one per source file, plus shared ones):

- `Wrappers`: `Option`, `Result`, `Supplied` (one key of a partial-update dict), and the `Read` / `Write` outcome shapes.
- `Ids`: Python truthiness of an `int | None` id, and the fresh key an insert receives.
- `Json`: request bodies, and the pydantic field rules (required, optional, update field).
- `CharacterModels`, `PowerModels`, `HeroModels`: record shapes and request validation (`app/models/*.py`).
- `Db`: the store, and the unique constraint on `power_name`.
- `CharacterCrud`, `PowersCrud`, `HeroCrud`, `CharacterPowerCrud`: the operations (`app/crud/*.py`).
- `Scenario`: properties of sequences of calls.

Facts about the source that shape the model:

- `read_characters` is called with no offset and no limit (app/routers/characters.py:97), so a listing holds every row.
- `create_power` does not catch the unique-constraint error (app/crud/powers.py:28-30). The commit raises, and the model records this as `Rejected` with the store unchanged.
- `get_heroes_or_villains` accepts only `hero` and `villain` (app/crud/characters.py:147). These are the enum member names, which the column stores. Request bodies carry the values `Hero` and `Villain` (app/models/characters.py:11-13).
- `read_powers` keeps its inverted branch (see Findings).

## Model

| member | source | states |
|---|---|---|
| Ids.NextId | app/crud/characters.py:29-32 | the key given to an inserted row is at least 1 and larger than, hence different from, every key in use |
| CharacterModels.DecodeType | app/models/characters.py:11-13 | a `character_type` member is accepted exactly when it is `"Hero"` or `"Villain"`, and decodes to the type whose value it is |
| CharacterModels.TypeRoundTrip | app/models/characters.py:11-13 | each of the two types is written and read back as itself |
| CharacterModels.ParseCharacterCreate | app/models/characters.py:15-29 | a create body is accepted iff it has no member outside the four declared fields, a string `name`, a valid `character_type`, and `secret_name`/`age` absent, null or of the right type; the record then holds exactly those values, with absent or null optionals as `None` |
| CharacterModels.CreateBodyRoundTrip | app/models/characters.py:15-29 | every character record, sent as a create body, is validated back to itself |
| CharacterModels.CreateRejectsClientId | app/models/characters.py:23-29 | a create body containing `character_id` is always refused, so a client cannot choose the id |
| CharacterModels.CreateOptionalsDefault | app/models/characters.py:16-20 | `name` and `character_type` alone form a valid body, and `secret_name` and `age` default to null |
| CharacterModels.ParseCharacterUpdate | app/models/characters.py:33-38 | an update body is accepted iff it has no extra member and each present member is null or well typed; for each of the four fields, the key is supplied in the resulting dict iff the body has it, an explicit null stays a supplied null, and a supplied value is the body's value |
| CharacterModels.UpdateBodyRoundTrip | app/models/characters.py:33-38 | every update dict, sent as the body with one member per supplied key (null for a supplied `None`), is validated back to itself |
| CharacterModels.EmptyUpdateBody | app/models/characters.py:33-38 | the empty update body is valid and supplies no key |
| PowerModels.ParsePowerCreate | app/models/powers.py:15-26 | a create body is accepted iff it is exactly a string `power_name` and an integer `power_damage` within 0..1000 |
| PowerModels.CreateBodyRoundTrip | app/models/powers.py:15-26 | a power whose damage is in range round-trips through a create body; one out of range is refused |
| PowerModels.ParsePowerUpdate | app/models/powers.py:35-39 | an update body is accepted iff it has no extra member and each present member is null or well typed; there is no range condition |
| PowerModels.UpdateAcceptsAnyDamage | app/models/powers.py:35-39 | an update body with any integer damage, in range or not, is accepted and supplies exactly that damage |
| CharacterCrud.AllCharacters | app/crud/characters.py:56-58 | the listing holds a public row exactly for each stored character, with its own id and fields |
| CharacterCrud.CreateCharacter | app/crud/characters.py:21-32 | the new character is stored under a key no character had, returned with that id, and nothing else in the store changes |
| CharacterCrud.ReadCharacters | app/crud/characters.py:39-64 | with `None` or `0` the result is the whole table (even if a character 0 exists); with any other id it is that character or `None`, never a list |
| CharacterCrud.UpdateCharacter | app/crud/characters.py:70-100 | missing id: `None`, store unchanged; null name: rejected, store unchanged; otherwise `name`, `secret_name` and `age` take the supplied value only when the key was sent, while `character_type` and the id never change, and only that row changes |
| CharacterCrud.UpdateCharacterIntended | app/models/characters.py:33-38 | the corrected update also patches `character_type` when supplied (a null type is rejected); otherwise as above |
| CharacterCrud.UpdateDropsType | app/crud/characters.py:89-94 | as written, supplying a different `character_type` succeeds but leaves the old type; the corrected update stores the new one |
| CharacterCrud.UpdateEmptyIsIdentity | app/crud/characters.py:89-94 | an update with no key supplied returns the stored character and leaves the store identical |
| CharacterCrud.DeleteCharacter | app/crud/characters.py:106-127 | missing id: `None`, store unchanged; otherwise the last state is returned, exactly that key is removed, the other characters keep their rows, and powers, pairs and heroes are untouched |
| CharacterCrud.GetHeroesOrVillains | app/crud/characters.py:133-156 | the result is `None` unless the category is exactly `hero` or `villain`; then it is exactly the stored characters whose type has that name |
| CharacterCrud.CreateThenRead | app/crud/characters.py:29-32 | reading a just-created character's id returns the created row |
| CharacterCrud.DeleteThenRead | app/crud/characters.py:119-127 | after deleting id k, reading k gives `None` when k is not 0, and the whole table when k is 0 |
| CharacterCrud.CategoriesPartition | app/crud/characters.py:147-156 | the hero listing and the villain listing are disjoint and together make up the whole table |
| PowersCrud.AllPowers | app/crud/powers.py:53-54 | the listing holds a public row exactly for each stored power |
| PowersCrud.CreatePower | app/crud/powers.py:16-32 | a name already stored: rejected, store unchanged; otherwise the power is stored under a fresh key and returned with it; the unique-name constraint is preserved |
| PowersCrud.ReadPowers | app/crud/powers.py:39-59 | as written: a truthy id returns the whole table; `None` returns `None`; `0` returns power 0 if it exists and `None` otherwise |
| PowersCrud.ReadPowersIntended | app/crud/powers.py:44-50 | as documented: no id gives the whole table, an id gives that power or `None` |
| PowersCrud.ReadPowersInverted | app/crud/powers.py:53-57 | with powers 1 and 2 stored, asking for power 1 returns both as written and only power 1 as intended |
| PowersCrud.UpdatePower | app/crud/powers.py:66-96 | missing id: `None`, store unchanged; a null name or damage, or a name another power has: rejected, store unchanged; otherwise only the supplied keys are overwritten, the id is kept, only that row changes, and names stay unique |
| PowersCrud.DeletePower | app/crud/powers.py:103-125 | missing id: `None`, store unchanged; otherwise the last state is returned and exactly that power is removed; characters, pairs and heroes are untouched |
| PowersCrud.CreateSameNameTwice | app/models/powers.py:16 | creating two powers with the same unused name: the first succeeds and the second is rejected with the store unchanged |
| PowersCrud.CreatedDamageInRange | app/models/powers.py:17 | a power created from a validated create body is stored with damage in 0..1000 |
| PowersCrud.UpdateLeavesRange | app/crud/powers.py:89-96 | a validated update body can store damage 1001, so the range is not an invariant of the table |
| PowersCrud.UpdateEmptyIsIdentity | app/crud/powers.py:89-96 | an update with no key supplied returns the stored power and leaves the store identical |
| PowersCrud.DeleteThenRead | app/crud/powers.py:115-125 | after deleting a non-zero id k, the source's `read_powers(k)` returns the whole remaining table (its inverted branch), while the corrected single-power read `ReadPowersIntended` finds nothing |
| HeroCrud.AllHeroes | app/crud/heroes.py:34-36 | the listing holds a public row exactly for each stored hero |
| HeroCrud.CreateHero | app/crud/heroes.py:10-21 | the hero is stored under a key no hero had and returned with it; nothing else changes |
| HeroCrud.ReadHeroes | app/crud/heroes.py:25-42 | with `None` or `0` the whole table; otherwise that hero or `None` |
| HeroCrud.UpdateHero | app/crud/heroes.py:46-76 | missing id: `None`, store unchanged; null name: rejected, store unchanged; otherwise `name`, `secret_name` and `age` change only when supplied, the id is kept, and only that row changes |
| HeroCrud.UpdateEmptyIsIdentity | app/crud/heroes.py:65-70 | an update with no key supplied is the identity on the row and the store |
| HeroCrud.DeleteHero | app/crud/heroes.py:80-101 | missing id: `None`, store unchanged; otherwise the last state is returned and exactly that key is removed |
| HeroCrud.CreateThenReadThenDelete | app/crud/heroes.py:18-40 | a created hero reads back as created, deleting it returns it, and afterwards reading its id gives `None` |
| CharacterPowerCrud.AssignPowerToCharacter | app/crud/character_power.py:21-53 | `None` iff the character or the power is missing; `False` iff both exist and the pair is already stored; the store changes only on `True`, when exactly the new pair is added |
| CharacterPowerCrud.ReadCharactersPowers | app/crud/character_power.py:60-80 | `None` iff the character is missing; otherwise exactly the stored powers paired with it |
| CharacterPowerCrud.DeleteCharacterPower | app/crud/character_power.py:87-119 | `False` iff the pair is not stored, whether or not its character and power exist, with the store unchanged; otherwise exactly that pair is removed and the tables are untouched |
| CharacterPowerCrud.AssignTwice | app/crud/character_power.py:45-53 | assigning a pair that was just assigned reports `False` and changes nothing |
| CharacterPowerCrud.AssignThenUnassign | app/crud/character_power.py:45-119 | a successful assignment followed by removing the same pair restores the original store exactly |
| CharacterPowerCrud.AssignThenList | app/crud/character_power.py:70-80 | after an assignment that found both rows, the character's powers are the previous ones plus the assigned power |
| CharacterPowerCrud.UnassignThenList | app/crud/character_power.py:101-119 | after removing a pair, no power with that id is listed for the character |
| Scenario.AssignListRemove | app/crud/character_power.py:21-119 | on an empty store: the create bodies validate; power and character get id 1; assignment succeeds; the listing is exactly that power; removal succeeds; the listing is then empty |
| Scenario.ReusedIdInheritsPowers | app/crud/characters.py:119-127 | a deleted character's pairs stay behind, so a character created next under the reused id is refused the deleted one's power as already assigned (409), removing that power from it succeeds, and it starts out listing that power |

## Left out

- The HTTP routers, the mapping of outcomes to status codes, authentication (JWT issuing and checking, bcrypt hashing), users, login, the villain module and application start-up. They are framework glue or foreign libraries.
- Sessions, `refresh`, engine and environment set-up. Each call is one atomic commit.
- An integrity error that the layer does not catch reaches the caller as an exception. The model records only that nothing was stored (`Rejected`).
- `offset` / `limit` pagination in `read_characters`. Row order is engine-defined, so listings are sets.
- Ids.NextId: the key an engine assigns is its own choice. The model uses one more than the largest key in use (at least 1), as SQLite does for an integer primary key whose keys are positive. A PostgreSQL sequence would not reuse keys. The two Scenario lemmas use the concrete keys: 1 for the first row of an empty table, and the reused key. Apart from them, the proofs rely only on the key being fresh and positive.
- CharacterCrud.CreateCharacter, PowersCrud.CreatePower, HeroCrud.CreateHero: these take the record without an id. Every caller passes an object whose id is unset, because the create models forbid `character_id`, `power_id` and `id`. An insert with an id already set is not modelled.
- Foreign keys of the join table are not enforced. An engine that enforces them would refuse to delete a character or power that still has pairs.
- PowersCrud.CreatePower, PowersCrud.UpdatePower: the unique constraint on `power_name` is taken from the table model. The migration creates the `powers` table without it, and the model does not cover a database built only from that migration.
- CharacterPowerCrud.ReadCharactersPowers: the source reads `character.powers`, but the `Character` table model declares no such relationship. The model states the intended join through the pair set.
- Scenario.ReusedIdInheritsPowers: the listing clause rests on the explicit-join reading of `character.powers`. As written that attribute is undefined and the read raises; with an ORM many-to-many relationship, deleting the character would also delete its link rows.
- Request validation accepts only exact JSON types: no numeric strings, no whole floats, no booleans as integers. JSON arrays, objects and floats are not modelled. It states when a body is accepted, not which error list pydantic reports.
- Update dicts are typed records. Keys outside the declared fields cannot appear in them, and the CRUD code would ignore such keys anyway.
- CharacterCrud.CreateCharacter: does not model the width of the SQL INTEGER `age` column. An age beyond the engine's integer range passes validation, and then the commit raises. The model reports success, because the width is the engine's choice (64 bits in SQLite, 32 in a PostgreSQL `integer`).
- CharacterCrud.UpdateCharacter: likewise, a supplied `age` beyond the column's integer range is stored rather than rejected.
- HeroCrud.CreateHero: likewise for the hero `age` column.
- HeroCrud.UpdateHero: likewise for a supplied hero `age`.
- PowersCrud.CreatePower: validated damage lies in 0..1000, so its width never matters on create. Ids are unbounded, and the engine's limit on the key range is not modelled.
- PowersCrud.UpdatePower: a supplied `power_damage` beyond the column's integer range is stored rather than rejected, because the update model has no bound.
- No string normalisation, collation or case folding in name comparison.

## Findings

| source | as written | input that shows it | evidently intended | confidence | as-written member | corrected member |
|---|---|---|---|---|---|---|
| app/crud/powers.py:53-57 | a truthy `power_id` selects every power; a falsy one filters on that falsy id | powers 1 and 2 stored, `read_powers(power_id=1)` returns both | filter by the id when one is given, list all when none is | high, not executed | PowersCrud.ReadPowersInverted | PowersCrud.ReadPowersIntended |
| app/crud/characters.py:89-94 | `character_type` in the update dict is never applied | a hero updated with `{"character_type": "Villain"}` stays a hero, and the call reports success | patch `character_type` like the other fields, as the update model and the endpoint's documentation describe | high, not executed | CharacterCrud.UpdateDropsType | CharacterCrud.UpdateCharacterIntended |

# Zoo accommodation rules in Dafny

A model of the zoo simulation's decision core: the rule engine that decides
whether an animal may move into an enclosure, the two operations that change an
enclosure's occupancy (admission and removal), the registry of enclosures and
the total daily food demand.

- `domain.dfy` (module `Domain`): `Species`, `Animal`, `Enclosure`, `Zoo`, and a
  left-to-right weighted sum `Total` used for food and area.
- `rules.dfy` (module `Rules`): the `Verdict` datatype (`Ok`, `BiomeMismatch`,
  `MissingWater`, `InsufficientSpace`, `PredatorMixing`,
  `HerbivoreWithPredator`) in place of the original's message strings, and
  `CanAccommodate`, which tries biome, water, space and social compatibility in
  that order and reports the first failure.
- `occupancy.dfy` (module `Occupancy`): `Admit` and `Remove`, each returning
  `(succeeded, enclosure afterwards)`, the id lookup `IndexOf`, and lemmas on
  round trips, order, the implied capacity and runs of same-species admissions.
- `registry.dfy` (module `Registry`): `AddEnclosure`, the nested fold
  `CalculateTotalFood` and lemmas on how admissions and removals move the total.
- `scenario.dfy` (module `Scenario`): the sample script and a few other concrete
  runs, as lemmas.

Animals are compared by an `id` field, which stands for object identity:
`IndexOf` finds the first resident with the given id. Where a lemma needs "same
id, same animal" (which reference identity gives for free), it requires
`Identifies(residents, a)`.

The capacity rule is kept as written: the projected head count times the
NEWCOMER's area is compared with the REMAINING square, not the sum of the
residents' areas with the designed area. So into an empty enclosure of area `S`,
a run of animals of one species with area `Q` admits the `(N+1)`-th exactly when
`(2N + 1) * Q <= S`, not when `(N + 1) * Q <= S` (`NextOfSameSpecies`,
`SameSpeciesRun`). The 1000-square savanna therefore takes three giraffes of 200,
not five (`ThreeGiraffesFillSavanna`).

The designed capacity of an enclosure is not stored; `Occupancy.Capacity` is
the remaining square plus the residents' areas, and admission and removal both
keep it.

## Model

| member | source | states |
|---|---|---|
| Rules.SomeOtherSpecies | main.ts:42 | the `some` scan is true iff some resident's species name differs from the given name |
| Rules.EveryHerbivore | main.ts:47 | the `every` scan is true iff no resident's species is a predator |
| Rules.CanAccommodate | main.ts:30-53 | `Ok` iff biome, water, space and social rules all hold; each failure verdict iff its rule fails and every earlier rule holds; predator and herbivore failures split on the newcomer's diet |
| Rules.CanAccommodateIsFirstFailure | main.ts:30-53 | the verdict equals the failure of the first rule, in the order biome, water, space, social, that does not hold |
| Rules.BiomeMismatchDominates | main.ts:31-33 | a biome mismatch is reported whatever the water, remaining square and residents |
| Rules.MissingWaterBeforeSpaceAndSocial | main.ts:34-36 | with the biome right, a species needing water in a dry enclosure is refused for water whatever the square and residents |
| Rules.PredatorSocialRule | main.ts:41-45 | once biome, water and space hold, a predator is refused iff some resident has another species name, and admitted iff all residents share its name |
| Rules.HerbivoreSocialRule | main.ts:46-50 | once biome, water and space hold, a herbivore is refused iff some resident is a predator |
| Rules.EmptyEnclosureOnlyPhysicalRules | main.ts:37-51 | an empty enclosure admits exactly when the biome matches, water is there if needed and one animal's area fits |
| Occupancy.IndexOf | main.ts:68 | returns -1 iff no resident has the id, otherwise the first position that has it |
| Occupancy.Admit | main.ts:55-65 | succeeds iff the check says `Ok`; on refusal the enclosure is unchanged; on success the animal is appended after the unchanged residents, the square drops by its area and stays at least head count times that area |
| Occupancy.Remove | main.ts:67-75 | succeeds iff some resident has the id; otherwise nothing changes; on success exactly the first such resident is cut out and the animal's area is given back |
| Occupancy.AdmitKeepsCapacity | main.ts:61-62 | remaining square plus residents' areas is the same before and after any admission attempt |
| Occupancy.RemoveKeepsCapacity | main.ts:70-71 | remaining square plus residents' areas is the same before and after a removal, when the id names one animal |
| Occupancy.RemoveKeepsOthersInOrder | main.ts:68-70 | removal shortens the residents by one, keeps those before the removed one in place, shifts those after it up by one, and drops exactly that resident from the multiset |
| Occupancy.AdmitThenRemove | main.ts:55-75 | admitting an animal that is not yet resident and then removing it restores the enclosure exactly and reports success |
| Occupancy.AdmitThenRemoveDuplicate | main.ts:55-75 | admitting an already resident animal and removing it restores the square but takes out the earlier copy, so the animal ends up last |
| Occupancy.NextOfSameSpecies | main.ts:37-40 | with `k` residents of the newcomer's species and the square they leave of area `S`, admission succeeds iff `(2k + 1) * area <= S` |
| Occupancy.SameSpeciesRun | main.ts:37-62 | admitting a run of same-species animals one by one admits all of them when the last passes the capacity rule, and the square shrinks by one area per animal |
| Registry.AddEnclosure | main.ts:26-28 | registration appends the enclosure after the existing ones, unchanged |
| Registry.CalculateTotalFood | main.ts:77-81 | the nested fold equals the plain sum of food over every resident of every registered enclosure |
| Registry.AddEnclosureFood | main.ts:26-28 | registering an enclosure adds exactly its residents' food to the total |
| Registry.NoAnimalsNoFood | main.ts:77-81 | a zoo with no enclosures or only empty ones needs 0 food |
| Registry.ZooFoodUpdate | main.ts:77-81 | changing one registered enclosure changes the total by the difference of that enclosure's food alone |
| Registry.AdmitFood | main.ts:55-81 | admitting into a registered enclosure raises the total by the newcomer's food if admitted and by nothing otherwise |
| Registry.RemoveFood | main.ts:67-81 | removing from a registered enclosure lowers the total by the animal's food if it was there and by nothing otherwise |
| Scenario.SampleScript | main.ts:84-136 | the giraffe enters the savanna leaving 800, the lion is refused for missing water with nothing changed, and the zoo's food total is 10 |
| Scenario.FoodOfTwo | main.ts:77-81 | residents eating 10 and 15 give a total of 25 |
| Scenario.ThreeGiraffesFillSavanna | main.ts:37-40 | three giraffes fill the 1000-square savanna to 400 and a fourth is refused for space |
| Scenario.PredatorIsolation | main.ts:41-51 | a lion's enclosure admits another lion but refuses a giraffe and a cheetah; a lion cannot join a giraffe |
| Scenario.DoubleAdmission | main.ts:55-75 | the same giraffe can be admitted twice, and one removal takes out only one copy |

## Left out

- The console messages on refusal, on admission and for the food total: output only, no effect on state.
- The message strings themselves: the verdict datatype names the failed rule instead. Every message is non-empty, so the original's truthiness test on the reason agrees with `Verdict != Ok`.
- The sample script is not a component; it appears only as the lemmas of `scenario.dfy`, with names translated to ASCII.
- Floating-point semantics of `square` and `foodAmount`: modelled as unbounded integers (`nat` for a species' area); the code never relies on fractions.
- The `food` text of a species: never used in any computation.
- Object identity: an animal carries an `id`, and lookup is by id. Two distinct objects with equal fields correspond to distinct ids.
- Aliasing: the zoo holds enclosure values, so one enclosure object registered twice, and the way mutating an enclosure shows through the zoo, are modelled by updating the enclosure's entry (`ZooFoodUpdate`, `AdmitFood`, `RemoveFood`) rather than by shared references.
- The check's purity is by construction: `CanAccommodate` is a function and cannot change its arguments.

/** The admission rule engine: may this animal move into this enclosure?

    Four rules are tried in a fixed order (biome, water, space, social) and the
    first that fails is the answer. The check only reads its arguments. */
module Rules {
  import opened Domain

  /** Outcome of the admission check: admissible, or the first rule that failed. */
  datatype Verdict =
    | Ok
    | BiomeMismatch
    | MissingWater
    | InsufficientSpace
    | PredatorMixing
    | HerbivoreWithPredator

  /** The species lives in the enclosure's biome. */
  predicate BiomeFits(s: Species, e: Enclosure)
  {
    s.biome == e.biome
  }

  /** The enclosure has water, or the species does not need it. */
  predicate WaterFits(s: Species, e: Enclosure)
  {
    s.needsWater ==> e.hasWater
  }

  /** One more animal, counted at the newcomer's own area, fits in the REMAINING square. */
  predicate SpaceFits(s: Species, e: Enclosure)
  {
    (|e.animals| + 1) * s.square <= e.square
  }

  /** A newcomer may live beside a resident: a predator only beside its own
      species (by name), a herbivore only beside non-predators. */
  predicate Compatible(newcomer: Species, resident: Species)
  {
    if newcomer.isPredator then resident.name == newcomer.name else !resident.isPredator
  }

  /** The newcomer is compatible with every resident. */
  predicate SociallyFits(s: Species, e: Enclosure)
  {
    forall i :: 0 <= i < |e.animals| ==> Compatible(s, e.animals[i].species)
  }

  /** `animals.some(a => a.species.name !== name)`. */
  function SomeOtherSpecies(animals: seq<Animal>, name: string): (b: bool)
    ensures b <==> exists i :: 0 <= i < |animals| && animals[i].species.name != name
  {
    if animals == [] then false
    else
      var rest := SomeOtherSpecies(animals[1..], name);
      assert rest <==> exists i :: 1 <= i < |animals| && animals[i].species.name != name by {
        forall i | 1 <= i < |animals| ensures animals[1..][i - 1] == animals[i] { }
      }
      animals[0].species.name != name || rest
  }

  /** `animals.every(a => !a.species.isPredator)`. */
  function EveryHerbivore(animals: seq<Animal>): (b: bool)
    ensures b <==> forall i :: 0 <= i < |animals| ==> !animals[i].species.isPredator
  {
    if animals == [] then true
    else
      var rest := EveryHerbivore(animals[1..]);
      assert rest <==> forall i :: 1 <= i < |animals| ==> !animals[i].species.isPredator by {
        forall i | 1 <= i < |animals| ensures animals[1..][i - 1] == animals[i] { }
      }
      !animals[0].species.isPredator && rest
  }

  /** The admission check, rule by rule, stopping at the first failure. */
  function CanAccommodate(a: Animal, e: Enclosure): (v: Verdict)
    ensures v == Ok <==>
      BiomeFits(a.species, e) && WaterFits(a.species, e) && SpaceFits(a.species, e) && SociallyFits(a.species, e)
    ensures v == BiomeMismatch <==> !BiomeFits(a.species, e)
    ensures v == MissingWater <==> BiomeFits(a.species, e) && !WaterFits(a.species, e)
    ensures v == InsufficientSpace <==>
      BiomeFits(a.species, e) && WaterFits(a.species, e) && !SpaceFits(a.species, e)
    ensures v == PredatorMixing <==>
      BiomeFits(a.species, e) && WaterFits(a.species, e) && SpaceFits(a.species, e)
      && a.species.isPredator && !SociallyFits(a.species, e)
    ensures v == HerbivoreWithPredator <==>
      BiomeFits(a.species, e) && WaterFits(a.species, e) && SpaceFits(a.species, e)
      && !a.species.isPredator && !SociallyFits(a.species, e)
  {
    var s := a.species;
    if s.biome != e.biome then BiomeMismatch
    else if s.needsWater && !e.hasWater then MissingWater
    else if (|e.animals| + 1) * s.square > e.square then InsufficientSpace
    else if s.isPredator then
      (if SomeOtherSpecies(e.animals, s.name) then PredatorMixing else Ok)
    else if !EveryHerbivore(e.animals) then HerbivoreWithPredator
    else Ok
  }

  /** A rule as a (holds, verdict-when-it-fails) pair. */
  datatype Check = Check(holds: bool, failure: Verdict)

  /** The rules in the order the engine tries them. */
  function Checks(s: Species, e: Enclosure): seq<Check>
  {
    [ Check(BiomeFits(s, e), BiomeMismatch),
      Check(WaterFits(s, e), MissingWater),
      Check(SpaceFits(s, e), InsufficientSpace),
      Check(SociallyFits(s, e), if s.isPredator then PredatorMixing else HerbivoreWithPredator) ]
  }

  /** The failure of the first check that does not hold, or `Ok`. */
  function FirstFailure(cs: seq<Check>): Verdict
  {
    if cs == [] then Ok
    else if !cs[0].holds then cs[0].failure
    else FirstFailure(cs[1..])
  }

  /** The engine reports exactly the first failing rule in the fixed order. */
  lemma CanAccommodateIsFirstFailure(a: Animal, e: Enclosure)
    ensures CanAccommodate(a, e) == FirstFailure(Checks(a.species, e))
  {
    var cs := Checks(a.species, e);
    var c1 := cs[1..];
    assert c1 == [cs[1], cs[2], cs[3]];
    var c2 := c1[1..];
    assert c2 == [cs[2], cs[3]];
    var c3 := c2[1..];
    assert c3 == [cs[3]];
    assert c3[1..] == [];
    assert FirstFailure(c3) == (if cs[3].holds then Ok else cs[3].failure);
    assert FirstFailure(c2) == (if cs[2].holds then FirstFailure(c3) else cs[2].failure);
    assert FirstFailure(c1) == (if cs[1].holds then FirstFailure(c2) else cs[1].failure);
    assert FirstFailure(cs) == (if cs[0].holds then FirstFailure(c1) else cs[0].failure);
  }

  /** A biome mismatch is reported whatever the water, space and residents. */
  lemma BiomeMismatchDominates(a: Animal, e: Enclosure, water: bool, square: int, residents: seq<Animal>)
    requires a.species.biome != e.biome
    ensures CanAccommodate(a, e.(hasWater := water, square := square, animals := residents)) == BiomeMismatch
  {
  }

  /** With the biome right, missing water is reported even when the space or
      social rule would also fail. */
  lemma MissingWaterBeforeSpaceAndSocial(a: Animal, e: Enclosure, square: int, residents: seq<Animal>)
    requires a.species.biome == e.biome && a.species.needsWater && !e.hasWater
    ensures CanAccommodate(a, e.(square := square, animals := residents)) == MissingWater
  {
  }

  /** Any resident of another species keeps a predator out; residents of its
      own species do not. */
  lemma PredatorSocialRule(a: Animal, e: Enclosure)
    requires BiomeFits(a.species, e) && WaterFits(a.species, e) && SpaceFits(a.species, e)
    requires a.species.isPredator
    ensures CanAccommodate(a, e) == PredatorMixing <==>
      exists i :: 0 <= i < |e.animals| && e.animals[i].species.name != a.species.name
    ensures CanAccommodate(a, e) == Ok <==>
      forall i :: 0 <= i < |e.animals| ==> e.animals[i].species.name == a.species.name
  {
  }

  /** Any predator resident keeps a herbivore out. */
  lemma HerbivoreSocialRule(a: Animal, e: Enclosure)
    requires BiomeFits(a.species, e) && WaterFits(a.species, e) && SpaceFits(a.species, e)
    requires !a.species.isPredator
    ensures CanAccommodate(a, e) == HerbivoreWithPredator <==>
      exists i :: 0 <= i < |e.animals| && e.animals[i].species.isPredator
    ensures CanAccommodate(a, e) == Ok <==>
      forall i :: 0 <= i < |e.animals| ==> !e.animals[i].species.isPredator
  {
  }

  /** An empty enclosure passes the social rule for everyone: only biome, water
      and the area of a single animal decide. */
  lemma EmptyEnclosureOnlyPhysicalRules(a: Animal, e: Enclosure)
    requires e.animals == []
    ensures CanAccommodate(a, e) == Ok <==>
      a.species.biome == e.biome && (a.species.needsWater ==> e.hasWater) && a.species.square <= e.square
  {
  }
}

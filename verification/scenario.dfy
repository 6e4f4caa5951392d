/** Concrete runs of the model on the sample zoo: a savanna and a forest
    enclosure, a giraffe and a lion (names translated to ASCII). */
module Scenario {
  import opened Domain
  import opened Rules
  import opened Occupancy
  import opened Registry

  const giraffe := Species("Giraffe", "Savanna", false, 200, false)
  const lion := Species("Lion", "Savanna", true, 300, true)
  const cheetah := Species("Cheetah", "Savanna", false, 100, true)

  const melman := Animal(0, "Melman", 10, giraffe)
  const simba := Animal(1, "Simba", 15, lion)
  const nala := Animal(2, "Nala", 12, lion)
  const chester := Animal(3, "Chester", 5, cheetah)

  const savanna := Enclosure("Savanna", 1000, false, [])
  const forest := Enclosure("Forest", 800, true, [])

  /** The sample script: the giraffe moves in and leaves 800; the lion is then
      refused for want of water, before the social rule is ever consulted;
      the zoo eats 10 units a day. */
  lemma SampleScript()
    ensures Admit(melman, savanna) == (true, savanna.(animals := [melman], square := 800))
    ensures var s1 := Admit(melman, savanna).1;
      && CanAccommodate(simba, s1) == MissingWater
      && Admit(simba, s1) == (false, s1)
      && ZooFood(AddEnclosure(AddEnclosure([], s1), forest)) == 10
  {
    var s1 := Admit(melman, savanna).1;
    var z := AddEnclosure(AddEnclosure([], s1), forest);
    AddEnclosureFood([], s1);
    AddEnclosureFood(AddEnclosure([], s1), forest);
    assert [melman][..0] == [];
  }

  /** Two residents eating 10 and 15 make a total of 25. */
  lemma FoodOfTwo()
    ensures ZooFood([savanna.(animals := [melman, simba])]) == 25
  {
    var z := [savanna.(animals := [melman, simba])];
    assert [melman, simba][..1] == [melman];
    assert [melman][..0] == [];
    assert Residents(z) == [melman, simba] by {
      assert z[..0] == [];
    }
    assert Total([melman, simba], Food) == Total([melman], Food) + 15;
  }

  /** Only three giraffes fit in the 1000-square savanna: the fourth is refused
      for space although 400 square remain, because 4 * 200 > 400. */
  lemma ThreeGiraffesFillSavanna()
    ensures var g := [melman.(id := 10), melman.(id := 11), melman.(id := 12)];
      var full := AdmitEach(g, savanna);
      && full.animals == g
      && full.square == 400
      && CanAccommodate(melman.(id := 13), full) == InsufficientSpace
  {
    var g := [melman.(id := 10), melman.(id := 11), melman.(id := 12)];
    assert FilledWith(savanna, giraffe, 1000);
    SameSpeciesRun(g, savanna, giraffe, 1000);
    var full := AdmitEach(g, savanna);
    NextOfSameSpecies(melman.(id := 13), full, 1000);
  }

  /** A lion enclosure takes another lion but neither a giraffe nor a cheetah;
      a lion cannot join a watered giraffe enclosure either. */
  lemma PredatorIsolation()
    ensures var pride := Enclosure("Savanna", 1700, true, [simba]);
      && CanAccommodate(nala, pride) == Ok
      && CanAccommodate(melman, pride) == HerbivoreWithPredator
      && CanAccommodate(chester, pride) == PredatorMixing
    ensures CanAccommodate(simba, Enclosure("Savanna", 1800, true, [melman])) == PredatorMixing
  {
  }

  /** The same giraffe admitted twice is resident twice; one removal takes out
      only the first copy. */
  lemma DoubleAdmission()
    ensures var once := Admit(melman, savanna).1;
      var twice := Admit(melman, once);
      && twice == (true, savanna.(animals := [melman, melman], square := 600))
      && Remove(melman, twice.1) == (true, once)
  {
    var once := Admit(melman, savanna).1;
    var twice := Admit(melman, once).1;
    assert IndexOf(twice.animals, melman.id) == 0;
    assert twice.animals[1..] == [melman];
    assert once == savanna.(animals := [melman], square := 800);
    assert twice == savanna.(animals := [melman, melman], square := 600);
    assert twice.animals[..0] + twice.animals[1..] == once.animals;
  }
}

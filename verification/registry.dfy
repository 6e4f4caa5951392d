/** The zoo as a registry of enclosures, and the total daily food demand. */
module Registry {
  import opened Domain
  import opened Occupancy

  /** Register an enclosure: append it, no validation, no duplicate detection. */
  function AddEnclosure(z: Zoo, e: Enclosure): (z': Zoo)
    ensures |z'| == |z| + 1
    ensures z'[..|z|] == z && z'[|z|] == e
  {
    z + [e]
  }

  /** All residents of the zoo, enclosure after enclosure, each in arrival order. */
  function Residents(z: Zoo): seq<Animal>
  {
    if z == [] then [] else Residents(z[..|z| - 1]) + z[|z| - 1].animals
  }

  /** Daily food of one enclosure. */
  function EnclosureFood(e: Enclosure): int
  {
    Total(e.animals, Food)
  }

  /** Daily food of the whole zoo: the plain sum over every resident. */
  function ZooFood(z: Zoo): int
  {
    Total(Residents(z), Food)
  }

  /** `calculateTotalFood`: an outer fold over the enclosures whose step is an
      inner fold over one enclosure's animals. */
  method CalculateTotalFood(z: Zoo) returns (total: int)
    ensures total == ZooFood(z)
  {
    total := 0;
    var i := 0;
    while i < |z|
      invariant 0 <= i <= |z|
      invariant total == ZooFood(z[..i])
    {
      var animals := z[i].animals;
      var sum := 0;
      var j := 0;
      while j < |animals|
        invariant 0 <= j <= |animals|
        invariant sum == Total(animals[..j], Food)
      {
        assert animals[..j + 1][..j] == animals[..j];
        sum := sum + animals[j].foodAmount;
        j := j + 1;
      }
      assert animals[..j] == animals;
      assert z[..i + 1][..i] == z[..i];
      TotalAppend(Residents(z[..i]), animals, Food);
      total := total + sum;
      i := i + 1;
    }
    assert z[..i] == z;
  }

  /** Registering an enclosure adds exactly its residents' food to the total. */
  lemma AddEnclosureFood(z: Zoo, e: Enclosure)
    ensures ZooFood(AddEnclosure(z, e)) == ZooFood(z) + EnclosureFood(e)
  {
    var z' := AddEnclosure(z, e);
    assert z'[..|z'| - 1] == z;
    TotalAppend(Residents(z), e.animals, Food);
  }

  /** A zoo without enclosures, or whose enclosures are all empty, needs no food. */
  lemma {:induction false} NoAnimalsNoFood(z: Zoo)
    requires forall i :: 0 <= i < |z| ==> z[i].animals == []
    ensures ZooFood(z) == 0
    decreases |z|
  {
    if z != [] {
      var init := z[..|z| - 1];
      NoAnimalsNoFood(init);
      assert Residents(z) == Residents(init);
    }
  }

  /** Replacing one enclosure's state changes the total by the difference of
      that enclosure's food and nothing else. */
  lemma {:induction false} ZooFoodUpdate(z: Zoo, i: nat, e: Enclosure)
    requires i < |z|
    ensures ZooFood(z[i := e]) == ZooFood(z) - EnclosureFood(z[i]) + EnclosureFood(e)
    decreases |z|
  {
    var n := |z|;
    var z' := z[i := e];
    var init := z[..n - 1];
    TotalAppend(Residents(init), z[n - 1].animals, Food);
    if i == n - 1 {
      assert z'[..n - 1] == init;
      TotalAppend(Residents(init), e.animals, Food);
    } else {
      assert z'[..n - 1] == init[i := e];
      ZooFoodUpdate(init, i, e);
      TotalAppend(Residents(init[i := e]), z[n - 1].animals, Food);
    }
  }

  /** Admitting into the `i`-th registered enclosure raises the total by the
      newcomer's food when admitted and leaves it unchanged otherwise. */
  lemma AdmitFood(z: Zoo, i: nat, a: Animal)
    requires i < |z|
    ensures var (ok, e') := Admit(a, z[i]);
      ZooFood(z[i := e']) == ZooFood(z) + (if ok then a.foodAmount else 0)
  {
    var (ok, e') := Admit(a, z[i]);
    ZooFoodUpdate(z, i, e');
    if ok {
      TotalAppend(z[i].animals, [a], Food);
      TotalSingle(a, Food);
    }
  }

  /** Removing from the `i`-th registered enclosure lowers the total by the
      animal's food when it was there and leaves it unchanged otherwise. */
  lemma RemoveFood(z: Zoo, i: nat, a: Animal)
    requires i < |z|
    requires Identifies(z[i].animals, a)
    ensures var (ok, e') := Remove(a, z[i]);
      ZooFood(z[i := e']) == ZooFood(z) - (if ok then a.foodAmount else 0)
  {
    var (ok, e') := Remove(a, z[i]);
    ZooFoodUpdate(z, i, e');
    if ok {
      TotalWithout(z[i].animals, IndexOf(z[i].animals, a.id), Food);
    }
  }
}

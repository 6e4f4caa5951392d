/** Occupancy changes: admitting an animal into an enclosure and removing it.

    Both return whether they acted together with the enclosure as it is
    afterwards; a refused or failed call hands the enclosure back untouched. */
module Occupancy {
  import opened Domain
  import opened Rules

  /** `animals.indexOf(animal)`: the first position holding `id`, or -1. */
  function IndexOf(s: seq<Animal>, id: nat): (k: int)
    ensures -1 <= k < |s|
    ensures k == -1 <==> !HasId(s, id)
    ensures k != -1 ==> IsFirst(s, id, k)
  {
    if s == [] then -1
    else if s[0].id == id then 0
    else
      var k := IndexOf(s[1..], id);
      assert forall i :: 1 <= i < |s| ==> s[i] == s[1..][i - 1];
      if k == -1 then -1 else k + 1
  }

  /** Admit `a` if the rule engine allows it: append it and take its species'
      area off the remaining square. */
  function Admit(a: Animal, e: Enclosure): (res: (bool, Enclosure))
    ensures res.0 <==> CanAccommodate(a, e) == Ok
    ensures !res.0 ==> res.1 == e
    ensures res.0 ==> res.1.animals == e.animals + [a]
    ensures res.0 ==> res.1.square == e.square - a.species.square
    ensures res.1.biome == e.biome && res.1.hasWater == e.hasWater
    ensures res.0 ==> res.1.square >= |e.animals| * a.species.square >= 0
  {
    if CanAccommodate(a, e) != Ok then (false, e)
    else
      assert (|e.animals| + 1) * a.species.square == |e.animals| * a.species.square + a.species.square;
      (true, e.(animals := e.animals + [a], square := e.square - a.species.square))
  }

  /** Remove the first resident carrying `a`'s id and give back `a`'s area. */
  function Remove(a: Animal, e: Enclosure): (res: (bool, Enclosure))
    ensures res.0 <==> HasId(e.animals, a.id)
    ensures !res.0 ==> res.1 == e
    ensures res.0 ==> exists k :: (IsFirst(e.animals, a.id, k) &&
      res.1 == e.(animals := e.animals[..k] + e.animals[k + 1..], square := e.square + a.species.square))
  {
    var k := IndexOf(e.animals, a.id);
    if k > -1 then
      (true, e.(animals := e.animals[..k] + e.animals[k + 1..], square := e.square + a.species.square))
    else (false, e)
  }

  /** The designed capacity of the enclosure: remaining square plus the areas of
      all residents. It is not stored, only implied. */
  function Capacity(e: Enclosure): int
  {
    e.square + Total(e.animals, Area)
  }

  /** Admission, accepted or not, keeps the implied capacity. */
  lemma AdmitKeepsCapacity(a: Animal, e: Enclosure)
    ensures Capacity(Admit(a, e).1) == Capacity(e)
  {
    if Admit(a, e).0 {
      TotalAppend(e.animals, [a], Area);
      TotalSingle(a, Area);
    }
  }

  /** Removal keeps the implied capacity as long as the id names one animal. */
  lemma RemoveKeepsCapacity(a: Animal, e: Enclosure)
    requires Identifies(e.animals, a)
    ensures Capacity(Remove(a, e).1) == Capacity(e)
  {
    var k := IndexOf(e.animals, a.id);
    if k != -1 {
      TotalWithout(e.animals, k, Area);
    }
  }

  /** Removal takes out exactly the first resident with the id: those before it
      keep their positions, those after it move up by one. */
  lemma RemoveKeepsOthersInOrder(a: Animal, e: Enclosure)
    requires HasId(e.animals, a.id)
    ensures var k, r := IndexOf(e.animals, a.id), Remove(a, e).1.animals;
      && |r| == |e.animals| - 1
      && (forall i :: 0 <= i < k ==> r[i] == e.animals[i])
      && (forall i :: k <= i < |r| ==> r[i] == e.animals[i + 1])
      && multiset(r) + multiset{e.animals[k]} == multiset(e.animals)
  {
    var s := e.animals;
    var k := IndexOf(s, a.id);
    assert s == s[..k] + [s[k]] + s[k + 1..];
  }

  /** Admitting an animal not yet present and then removing it restores the
      enclosure exactly. */
  lemma {:induction false} AdmitThenRemove(a: Animal, e: Enclosure)
    requires CanAccommodate(a, e) == Ok
    requires !HasId(e.animals, a.id)
    ensures Remove(a, Admit(a, e).1) == (true, e)
  {
    var e' := Admit(a, e).1;
    var n := |e.animals|;
    assert e'.animals[n].id == a.id;
    assert IsFirst(e'.animals, a.id, n);
    assert IndexOf(e'.animals, a.id) == n;
    assert e'.animals[..n] == e.animals;
    assert e'.animals[n + 1..] == [];
    assert e'.animals[..n] + e'.animals[n + 1..] == e.animals;
    assert e'.square + a.species.square == e.square;
    assert e'.(animals := e.animals, square := e.square) == e;
  }

  /** Admitting an animal that is already resident and then removing it gives
      back the square and the residents as a multiset, but the earlier copy is
      the one removed: the animal moves to the end of the line. */
  lemma AdmitThenRemoveDuplicate(a: Animal, e: Enclosure)
    requires CanAccommodate(a, e) == Ok
    requires HasId(e.animals, a.id)
    ensures var k := IndexOf(e.animals, a.id);
      var r := Remove(a, Admit(a, e).1);
      && r.0
      && r.1.square == e.square
      && r.1.animals == e.animals[..k] + e.animals[k + 1..] + [a]
  {
    var k := IndexOf(e.animals, a.id);
    var s' := e.animals + [a];
    assert IsFirst(s', a.id, k);
    assert IndexOf(s', a.id) == k;
    assert s'[..k] == e.animals[..k];
    assert s'[k + 1..] == e.animals[k + 1..] + [a];
  }

  /** Multiplication by a non-negative area is monotone. */
  lemma MulMono(x: int, y: int, q: nat)
    requires x <= y
    ensures x * q <= y * q
  {
  }

  /** Admit the newcomers one after another, ignoring the outcome of each. */
  function AdmitEach(newcomers: seq<Animal>, e: Enclosure): Enclosure
    decreases |newcomers|
  {
    if newcomers == [] then e else AdmitEach(newcomers[1..], Admit(newcomers[0], e).1)
  }

  /** An enclosure whose residents are all of species `sp` and whose remaining
      square is what those residents leave of the designed area `area`. */
  predicate FilledWith(e: Enclosure, sp: Species, area: int)
  {
    && sp.biome == e.biome
    && (sp.needsWater ==> e.hasWater)
    && (forall i :: 0 <= i < |e.animals| ==> e.animals[i].species == sp)
    && e.square == area - |e.animals| * sp.square
  }

  /** The capacity rule counts the newcomer's area once per animal against the
      REMAINING square: with `k` residents of the same species already in, the
      next one fits exactly when `(2k + 1) * square <= area`. */
  lemma NextOfSameSpecies(a: Animal, e: Enclosure, area: int)
    requires FilledWith(e, a.species, area)
    ensures CanAccommodate(a, e) == Ok <==> (2 * |e.animals| + 1) * a.species.square <= area
  {
    var k, q := |e.animals|, a.species.square;
    assert (k + 1) * q + k * q == (2 * k + 1) * q;
    assert SociallyFits(a.species, e) by {
      forall i | 0 <= i < k ensures Compatible(a.species, e.animals[i].species) {
        assert e.animals[i].species == a.species;
      }
    }
  }

  /** A run of same-species newcomers is admitted in full as long as the last
      one passes the capacity rule; the square shrinks by one area each time. */
  lemma {:induction false} SameSpeciesRun(newcomers: seq<Animal>, e: Enclosure, sp: Species, area: int)
    requires FilledWith(e, sp, area)
    requires forall i :: 0 <= i < |newcomers| ==> newcomers[i].species == sp
    requires newcomers != [] ==> (2 * (|e.animals| + |newcomers|) - 1) * sp.square <= area
    ensures AdmitEach(newcomers, e).animals == e.animals + newcomers
    ensures FilledWith(AdmitEach(newcomers, e), sp, area)
    decreases |newcomers|
  {
    if newcomers == [] {
      assert e.animals + newcomers == e.animals;
    } else {
      var k, m := |e.animals|, |newcomers|;
      var a := newcomers[0];
      MulMono(2 * k + 1, 2 * (k + m) - 1, sp.square);
      NextOfSameSpecies(a, e, area);
      var e' := Admit(a, e).1;
      assert e'.animals == e.animals + [a];
      assert (k + 1) * sp.square == k * sp.square + sp.square;
      assert FilledWith(e', sp, area);
      SameSpeciesRun(newcomers[1..], e', sp, area);
      assert e.animals + [a] + newcomers[1..] == e.animals + newcomers;
    }
  }
}

/** The entities of the zoo: species, animals, enclosures and the zoo itself.

    Species are immutable descriptions shared by their animals. An animal is
    identified by its `id` (the stand-in for object identity in the original).
    An enclosure carries its current occupants and its REMAINING floor area in
    `square`; the designed capacity is not stored anywhere. */
module Domain {

  /** A species: habitat tag, water requirement, per-individual area, diet class.
      The descriptive `food` text of the original is never used and is omitted. */
  datatype Species = Species(
    name: string,
    biome: string,
    needsWater: bool,
    square: nat,
    isPredator: bool
  )

  /** An animal. Two animals are the same animal exactly when their ids agree. */
  datatype Animal = Animal(id: nat, name: string, foodAmount: int, species: Species)

  /** An enclosure. `square` is the area still free, `animals` the residents in
      arrival order. */
  datatype Enclosure = Enclosure(biome: string, square: int, hasWater: bool, animals: seq<Animal>)

  /** The zoo: its enclosures in registration order. */
  type Zoo = seq<Enclosure>

  /** Daily food units an animal consumes. */
  function Food(a: Animal): int { a.foodAmount }

  /** Floor area an animal of this species takes up. */
  function Area(a: Animal): int { a.species.square }

  /** Left-to-right sum of `weight` over a sequence of animals, the shape of a
      `reduce((sum, a) => sum + weight(a), 0)`. */
  function Total(s: seq<Animal>, weight: Animal -> int): int
  {
    if s == [] then 0 else Total(s[..|s| - 1], weight) + weight(s[|s| - 1])
  }

  /** Sums split over concatenation. */
  lemma {:induction false} TotalAppend(s: seq<Animal>, t: seq<Animal>, weight: Animal -> int)
    ensures Total(s + t, weight) == Total(s, weight) + Total(t, weight)
    decreases |t|
  {
    if t == [] {
      assert s + t == s;
    } else {
      var t' := t[..|t| - 1];
      assert (s + t)[..|s + t| - 1] == s + t';
      TotalAppend(s, t', weight);
    }
  }

  /** The sum over a single animal is its weight. */
  lemma TotalSingle(a: Animal, weight: Animal -> int)
    ensures Total([a], weight) == weight(a)
  {
    assert [a][..0] == [];
  }

  /** Removing the element at position `k` takes exactly its weight off the sum. */
  lemma {:induction false} TotalWithout(s: seq<Animal>, k: nat, weight: Animal -> int)
    requires k < |s|
    ensures Total(s[..k] + s[k + 1..], weight) + weight(s[k]) == Total(s, weight)
  {
    var p, q := s[..k], s[k + 1..];
    assert s == (p + [s[k]]) + q;
    TotalAppend(p + [s[k]], q, weight);
    TotalAppend(p, [s[k]], weight);
    TotalSingle(s[k], weight);
    TotalAppend(p, q, weight);
  }

  /** Some resident carries this id. */
  predicate HasId(s: seq<Animal>, id: nat)
  {
    exists i :: 0 <= i < |s| && s[i].id == id
  }

  /** Position `k` is the first one holding this id. */
  predicate IsFirst(s: seq<Animal>, id: nat, k: int)
  {
    && 0 <= k < |s|
    && s[k].id == id
    && forall j :: 0 <= j < k ==> s[j].id != id
  }

  /** Every animal of `s` carrying `a`'s id is `a` itself: what reference
      identity guarantees for free in the original. */
  predicate Identifies(s: seq<Animal>, a: Animal)
  {
    forall i :: 0 <= i < |s| && s[i].id == a.id ==> s[i] == a
  }
}

/**
  Flora: plants trees along an x-range, one candidate position per BLOCK_SIZE step,
  and keeps every tree it has ever planted.
 */
module Flora {
  import opened Constants
  import opened Scene
  import opened Tree

  /** The number of candidate positions `minX, minX + 30, ...` left of `maxX`. */
  function Candidates(minX: int, maxX: int): nat
    decreases maxX - minX
  {
    if minX >= maxX then 0 else 1 + Candidates(minX + 30, maxX)
  }

  /** `x` is one of the candidate positions `minX, minX + 30, ...` left of `maxX`. */
  predicate IsCandidate(minX: int, maxX: int, x: int)
  {
    minX <= x < maxX && (x - minX) % 30 == 0
  }

  /**
    The tree planter. Java keeps the planted trees in a `HashSet` of objects compared
    by identity, so every `add` succeeds: a multiset of tree values models it.
   */
  class Flora {
    /** `groundHeightCallback`: the terrain's ground height at an x. */
    const groundHeightCallback: int -> real
    const seed: int
    /** The seeded draw `new Random(Objects.hash(key, seed)).nextInt(11)`. */
    const rng: Rng
    /** `trees`: every tree planted so far. */
    var trees: multiset<Tree>

    constructor(groundHeightCallback: int -> real, seed: int, rng: Rng)
      ensures this.groundHeightCallback == groundHeightCallback
      ensures this.seed == seed && this.rng == rng
      ensures trees == multiset{}
    {
      this.groundHeightCallback := groundHeightCallback;
      this.seed := seed;
      this.rng := rng;
      trees := multiset{};
    }

    /** `shouldPlantTree`: a tree grows at `x` exactly when the draw keyed by `(x, seed)` is 1. */
    predicate ShouldPlantTree(x: int)
    {
      rng(x, seed) == 1
    }

    /** The tree planted at `x`: its trunk stands on the ground at `x`, not snapped to the grid. */
    function TreeFor(x: int): Tree
    {
      TreeAt(Vec2(x as real, groundHeightCallback(x)), seed, rng)
    }

    /** The trees one `createInRange(x, maxX)` call plants, as a multiset. */
    function Planted(x: int, maxX: int): multiset<Tree>
      decreases maxX - x
    {
      if x >= maxX then multiset{}
      else (if ShouldPlantTree(x) then multiset{TreeFor(x)} else multiset{}) + Planted(x + 30, maxX)
    }

    /**
      `createInRange`: plants a tree at every candidate position the draw selects, adds
      the new trees to `trees` and returns the whole accumulated collection.
     */
    method CreateInRange(minX: int, maxX: int) returns (result: multiset<Tree>)
      modifies this
      ensures trees == old(trees) + Planted(minX, maxX)
      ensures result == trees
      ensures old(trees) <= trees
      ensures minX >= maxX ==> trees == old(trees)
    {
      var i := minX;
      while i < maxX
        invariant trees + Planted(i, maxX) == old(trees) + Planted(minX, maxX)
        decreases maxX - i
      {
        if ShouldPlantTree(i) {
          var groundHeight := groundHeightCallback(i);
          var bottomLeftCorner := Vec2(i as real, groundHeight);
          var curTree := NewTree(bottomLeftCorner, seed, rng);
          trees := trees + multiset{curTree};
        }
        i := i + BLOCK_SIZE;
      }
      result := trees;
    }

    /**
      The trunk of the tree planted at `x` has its bottom-left corner at `(x, groundHeight(x))`:
      on the ground height itself, not snapped to the grid.
     */
    lemma TreeForTrunk(x: int)
      ensures TreeFor(x).trunk.topLeft.x == x as real
      ensures TreeFor(x).trunk.topLeft.y + TreeFor(x).trunk.dimensions.y == groundHeightCallback(x)
    {
      var bottomLeft := Vec2(x as real, groundHeightCallback(x));
      assert TreeFor(x).trunk == CreateTreeTrunk(bottomLeft);
    }

    /** Every planted tree stands at a selected candidate position of the range. */
    lemma {:induction false} PlantedSource(x: int, maxX: int, t: Tree) returns (c: int)
      requires t in Planted(x, maxX)
      ensures IsCandidate(x, maxX, c) && ShouldPlantTree(c) && t == TreeFor(c)
      decreases maxX - x
    {
      if ShouldPlantTree(x) && t == TreeFor(x) {
        c := x;
      } else {
        c := PlantedSource(x + 30, maxX, t);
      }
    }

    /** Every selected candidate position of the range gets its tree. */
    lemma {:induction false} PlantedHas(x: int, maxX: int, c: int)
      requires IsCandidate(x, maxX, c) && ShouldPlantTree(c)
      ensures TreeFor(c) in Planted(x, maxX)
      decreases maxX - x
    {
      if c != x {
        PlantedHas(x + 30, maxX, c);
      }
    }

    /**
      A tree is planted by `createInRange(minX, maxX)` exactly when it is the tree of a
      candidate position whose draw is 1.
     */
    lemma PlantedMembers(minX: int, maxX: int, t: Tree)
      ensures t in Planted(minX, maxX) <==>
        exists c :: IsCandidate(minX, maxX, c) && ShouldPlantTree(c) && t == TreeFor(c)
    {
      if t in Planted(minX, maxX) {
        var c := PlantedSource(minX, maxX, t);
      }
      if exists c :: IsCandidate(minX, maxX, c) && ShouldPlantTree(c) && t == TreeFor(c) {
        var c :| IsCandidate(minX, maxX, c) && ShouldPlantTree(c) && t == TreeFor(c);
        PlantedHas(minX, maxX, c);
      }
    }

    /**
      The tree of a candidate position is planted exactly when that position's own draw
      is 1: whether it grows depends on the position and the seed, not on the range.
     */
    lemma PlantedAt(minX: int, maxX: int, x: int)
      requires IsCandidate(minX, maxX, x)
      ensures TreeFor(x) in Planted(minX, maxX) <==> ShouldPlantTree(x)
    {
      if ShouldPlantTree(x) {
        PlantedHas(minX, maxX, x);
      }
      if TreeFor(x) in Planted(minX, maxX) {
        var c := PlantedSource(minX, maxX, TreeFor(x));
        TreeForTrunk(x);
        TreeForTrunk(c);
      }
    }

    /** All trees of the range stand at or right of its first candidate position. */
    lemma RightOf(x: int, maxX: int, t: Tree)
      requires t in Planted(x, maxX)
      ensures t.trunk.topLeft.x >= x as real
    {
      var c := PlantedSource(x, maxX, t);
      TreeForTrunk(c);
    }

    /** No tree is planted twice by one call: each has multiplicity at most one. */
    lemma {:induction false} PlantedOnce(x: int, maxX: int, t: Tree)
      ensures Planted(x, maxX)[t] <= 1
      decreases maxX - x
    {
      if x < maxX {
        PlantedOnce(x + 30, maxX, t);
        if ShouldPlantTree(x) && t == TreeFor(x) && t in Planted(x + 30, maxX) {
          RightOf(x + 30, maxX, t);
          TreeForTrunk(x);
        }
      }
    }

    /** One call plants at most one tree per candidate position. */
    lemma {:induction false} PlantedBound(x: int, maxX: int)
      ensures |Planted(x, maxX)| <= Candidates(x, maxX)
      decreases maxX - x
    {
      if x < maxX {
        PlantedBound(x + 30, maxX);
      }
    }
  }
}

/** Configuration constants and object tags shared by the world components. */
module Constants {

  /** Side of a ground block, leaf, fruit and trunk width, in pixels. */
  const BLOCK_SIZE: int := 30
  /** Height of a tree trunk, in pixels. */
  const TREE_TRUNK_HEIGHT: int := 180
  /** Side of the square tree top, in pixels. */
  const TREE_TOP_SIZE: int := 210
  /** Exclusive upper bound of every seeded draw. */
  const PORTABILITY_BOUND: int := 11

  const GROUND_TAG: string := "ground"
  const TREE_TRUNK_TAG: string := "trunk"
  const LEAF_TAG: string := "leaf"
  const FRUIT_TAG: string := "fruit"
  const AVATAR_TAG: string := "avatar"

  /** The tags of the generated world: the objects the window manager evicts. */
  predicate IsWorldTag(tag: string)
  {
    tag == GROUND_TAG || tag == TREE_TRUNK_TAG || tag == LEAF_TAG || tag == FRUIT_TAG
  }

  /** A value of `new Random(h).nextInt(PORTABILITY_BOUND)`. */
  type Draw = d: int | 0 <= d < 11

  /**
    The seeded draw used by tree planting and tree-top decisions:
    `rng(key, seed)` stands for `new Random(Objects.hash(key, seed)).nextInt(11)`,
    a deterministic function of the key and the seed.
   */
  type Rng = (int, int) -> Draw
}

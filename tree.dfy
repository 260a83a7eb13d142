/**
  A tree: a trunk standing on its bottom-left corner and a square top of
  leaves and fruits whose layout comes from seeded draws.
 */
module Tree {
  import opened Constants
  import opened Scene

  /** `treeTopHalfSize`, TREE_TOP_SIZE / 2: the tree-top offsets run over [-105, 105) in steps of BLOCK_SIZE. */
  const HALF: int := 105

  /** How many offsets a row or a column of the tree top has: TREE_TOP_SIZE / BLOCK_SIZE. */
  const TOP_CELLS: nat := 7

  /** How many anti-diagonals (values of `i + j`) the 7 x 7 grid has. */
  const DIAGONALS: nat := 13

  /** What `whatToCreate` answers: `LEAF`, `FRUIT` or `null`. */
  datatype Growth = LeafCell | FruitCell | Nothing

  /** An offset `(i, j)` from the trunk's top-left corner: `i` along x, `j` along y. */
  datatype Offset = Offset(dx: int, dy: int)

  /** `whatToCreate(key)`: the growth the seeded draw for `key` picks. */
  function WhatToCreate(key: int, seed: int, rng: Rng): Growth
  {
    var answer := rng(key, seed);
    if answer < 8 then LeafCell
    else if answer > 9 then FruitCell
    else Nothing
  }

  /**
    A draw below 8 gives a leaf, the draw 10 (the only one above 9 below the
    bound 11) a fruit, and 8 or 9 nothing.
   */
  lemma WhatToCreateDraws(key: int, seed: int, rng: Rng)
    ensures WhatToCreate(key, seed, rng) == LeafCell <==> rng(key, seed) < 8
    ensures WhatToCreate(key, seed, rng) == FruitCell <==> rng(key, seed) == PORTABILITY_BOUND - 1
    ensures WhatToCreate(key, seed, rng) == Nothing <==> 8 <= rng(key, seed) <= 9
  {
  }

  /** `createTreeTrunk`: a BLOCK_SIZE-wide trunk of height 180 whose bottom-left corner is `bottomLeft`. */
  function CreateTreeTrunk(bottomLeft: Vec2): (trunk: GameObject)
    ensures trunk.tag == TREE_TRUNK_TAG
    ensures trunk.dimensions == Vec2(BLOCK_SIZE as real, TREE_TRUNK_HEIGHT as real)
    ensures trunk.topLeft.x == bottomLeft.x
    ensures trunk.topLeft.y + trunk.dimensions.y == bottomLeft.y
  {
    GameObject(TREE_TRUNK_TAG, Vec2(bottomLeft.x, bottomLeft.y - TREE_TRUNK_HEIGHT as real),
               Vec2(BLOCK_SIZE as real, TREE_TRUNK_HEIGHT as real))
  }

  // ----- The grid of the tree top -----

  /** The `n`-th offset of a row or a column, -HALF + n * BLOCK_SIZE: -105, -75, ..., 75. */
  function GridOffset(n: int): int
  {
    n * 30 - 105
  }

  /**
    The loops `for (k = -HALF; k < HALF; k += BLOCK_SIZE)` visit exactly the offsets
    GridOffset(0) .. GridOffset(TOP_CELLS - 1): seven of them, from -105 to 75.
   */
  lemma GridOffsets(k: int)
    ensures HALF == TREE_TOP_SIZE / 2 && TOP_CELLS == TREE_TOP_SIZE / BLOCK_SIZE
    ensures GridOffset(0) == -HALF && GridOffset(TOP_CELLS - 1) == 75 && GridOffset(TOP_CELLS) == HALF
    ensures (-HALF <= k < HALF && (k + HALF) % BLOCK_SIZE == 0) <==>
            (exists n :: 0 <= n < TOP_CELLS && k == GridOffset(n))
  {
    if -HALF <= k < HALF && (k + HALF) % BLOCK_SIZE == 0 {
      var n := (k + HALF) / BLOCK_SIZE;
      assert k == GridOffset(n);
    }
  }

  /** The key `i + j` that `whatToCreate` draws for at every cell of anti-diagonal `d` (row m, column n with m + n == d). */
  function DiagonalKey(d: int): int
  {
    d * 30 - 210
  }

  /**
    The outcome of `whatToCreate` on each of the 13 anti-diagonals of the grid,
    for one seed. Everything about a tree top follows from this pattern.
   */
  function Pattern(seed: int, rng: Rng): (p: seq<Growth>)
    ensures |p| == DIAGONALS
  {
    seq(DIAGONALS, d requires 0 <= d < DIAGONALS => WhatToCreate(DiagonalKey(d), seed, rng))
  }

  /** The outcome of the pattern `p` at row `m`, column `n`. */
  function GrowthAt(p: seq<Growth>, m: int, n: int): Growth
  {
    if 0 <= m + n < |p| then p[m + n] else Nothing
  }

  /** The tag of the object a growth creates. */
  function GrowthTag(g: Growth): string
  {
    match g
    case LeafCell => LEAF_TAG
    case FruitCell => FRUIT_TAG
    case Nothing => ""
  }

  /** A leaf or fruit of the tree top: one block at `trunkTop + o`. */
  function Cell(kind: Growth, trunkTop: Vec2, o: Offset): GameObject
  {
    GameObject(GrowthTag(kind), trunkTop.Add(Vec2(o.dx as real, o.dy as real)), Vec2(BLOCK_SIZE as real, BLOCK_SIZE as real))
  }

  /** The cell of `kind` at row `m`, column `n` of the top around `trunkTop`. */
  function CellAt(trunkTop: Vec2, m: int, n: int, kind: Growth): GameObject
  {
    Cell(kind, trunkTop, Offset(GridOffset(m), GridOffset(n)))
  }

  // ----- What the loops of createTreeTop create -----

  /**
    The column at which the inner loop of row `m` stops when it reaches column `n`:
    the first column from `n` on that gets nothing, or TOP_CELLS past the right edge.
   */
  function RowEnd(p: seq<Growth>, m: int, n: nat): nat
    decreases TOP_CELLS - n
  {
    if n >= TOP_CELLS || GrowthAt(p, m, n) == Nothing then n
    else RowEnd(p, m, n + 1)
  }

  /** The cells of `kind` that columns `0 .. n - 1` of row `m` hold, left to right. */
  function RowPrefix(trunkTop: Vec2, p: seq<Growth>, m: int, n: nat, kind: Growth): seq<GameObject>
  {
    if n == 0 then []
    else
      RowPrefix(trunkTop, p, m, n - 1, kind) +
      (if GrowthAt(p, m, n - 1) == kind then [CellAt(trunkTop, m, n - 1, kind)] else [])
  }

  /** The cells of `kind` the inner loop creates in row `m`: those left of where it stops. */
  function RowCells(trunkTop: Vec2, p: seq<Growth>, m: int, kind: Growth): seq<GameObject>
  {
    RowPrefix(trunkTop, p, m, RowEnd(p, m, 0), kind)
  }

  /** The cells of `kind` the outer loop creates in rows `0 .. m - 1`, in creation order. */
  function TopPrefix(trunkTop: Vec2, p: seq<Growth>, m: nat, kind: Growth): seq<GameObject>
  {
    if m == 0 then []
    else TopPrefix(trunkTop, p, m - 1, kind) + RowCells(trunkTop, p, m - 1, kind)
  }

  /** Every cell of `kind` in the tree top around `trunkTop`, in creation order. */
  function TopCells(trunkTop: Vec2, p: seq<Growth>, kind: Growth): seq<GameObject>
  {
    TopPrefix(trunkTop, p, TOP_CELLS, kind)
  }

  /** A tree: its trunk, its leaves and its fruits. */
  datatype Tree = Tree(trunk: GameObject, leaves: seq<GameObject>, fruits: seq<GameObject>)

  /** The tree the constructor `Tree(bottomLeft, seed)` builds. */
  function TreeAt(bottomLeft: Vec2, seed: int, rng: Rng): Tree
  {
    var trunk := CreateTreeTrunk(bottomLeft);
    var p := Pattern(seed, rng);
    Tree(trunk, TopCells(trunk.topLeft, p, LeafCell), TopCells(trunk.topLeft, p, FruitCell))
  }

  /**
    The inner loop of `createTreeTop` for row `i` (the `m`-th row): columns left to
    right, creating a leaf or a fruit per column and leaving the row at the first
    "nothing".
   */
  method CreateTreeTopRow(trunkTop: Vec2, i: int, seed: int, rng: Rng, ghost m: nat)
    returns (rowLeaves: seq<GameObject>, rowFruits: seq<GameObject>)
    requires m < TOP_CELLS && i == GridOffset(m)
    ensures rowLeaves == RowCells(trunkTop, Pattern(seed, rng), m, LeafCell)
    ensures rowFruits == RowCells(trunkTop, Pattern(seed, rng), m, FruitCell)
  {
    ghost var p := Pattern(seed, rng);
    rowLeaves, rowFruits := [], [];
    var j := -HALF;
    ghost var n: nat := 0;
    while j < HALF
      invariant n <= TOP_CELLS && j == GridOffset(n)
      invariant RowEnd(p, m, n) == RowEnd(p, m, 0)
      invariant rowLeaves == RowPrefix(trunkTop, p, m, n, LeafCell)
      invariant rowFruits == RowPrefix(trunkTop, p, m, n, FruitCell)
    {
      var toCreate := WhatToCreate(i + j, seed, rng);
      assert i + j == DiagonalKey(m + n);
      assert toCreate == GrowthAt(p, m, n);
      if toCreate == Nothing {
        break;
      }
      var curPosition := trunkTop.Add(Vec2(i as real, j as real));
      var block := GameObject(GrowthTag(toCreate), curPosition, Vec2(BLOCK_SIZE as real, BLOCK_SIZE as real));
      if toCreate == LeafCell {
        rowLeaves := rowLeaves + [block];
      } else {
        rowFruits := rowFruits + [block];
      }
      j, n := j + BLOCK_SIZE, n + 1;
    }
    assert RowEnd(p, m, n) == n;
  }

  /**
    `createTreeTop`: the rows of the 7 x 7 offsets around the trunk's top-left
    corner, top to bottom, each filled by its inner loop.
   */
  method CreateTreeTop(trunkTop: Vec2, seed: int, rng: Rng) returns (leaves: seq<GameObject>, fruits: seq<GameObject>)
    ensures leaves == TopCells(trunkTop, Pattern(seed, rng), LeafCell)
    ensures fruits == TopCells(trunkTop, Pattern(seed, rng), FruitCell)
  {
    ghost var p := Pattern(seed, rng);
    leaves, fruits := [], [];
    var i := -HALF;
    ghost var m: nat := 0;
    while i < HALF
      invariant m <= TOP_CELLS && i == GridOffset(m)
      invariant leaves == TopPrefix(trunkTop, p, m, LeafCell)
      invariant fruits == TopPrefix(trunkTop, p, m, FruitCell)
    {
      var rowLeaves, rowFruits := CreateTreeTopRow(trunkTop, i, seed, rng, m);
      leaves := leaves + rowLeaves;
      fruits := fruits + rowFruits;
      i, m := i + BLOCK_SIZE, m + 1;
    }
    assert m == TOP_CELLS;
  }

  /** The constructor `Tree(bottomLeft, seed)`: `createTreeTrunk` then `createTreeTop`. */
  method NewTree(bottomLeft: Vec2, seed: int, rng: Rng) returns (tree: Tree)
    ensures tree == TreeAt(bottomLeft, seed, rng)
  {
    var trunk := CreateTreeTrunk(bottomLeft);
    var leaves, fruits := CreateTreeTop(trunk.topLeft, seed, rng);
    tree := Tree(trunk, leaves, fruits);
  }

  // ----- Where each row stops -----

  lemma {:induction false} RowEndRun(p: seq<Growth>, m: int, n: nat)
    ensures n <= RowEnd(p, m, n) <= if n < TOP_CELLS then TOP_CELLS else n
    ensures forall k :: n <= k < RowEnd(p, m, n) ==> GrowthAt(p, m, k) != Nothing
    ensures RowEnd(p, m, n) < TOP_CELLS ==> GrowthAt(p, m, RowEnd(p, m, n)) == Nothing
    decreases TOP_CELLS - n
  {
    if n < TOP_CELLS && GrowthAt(p, m, n) != Nothing {
      RowEndRun(p, m, n + 1);
    }
  }

  /**
    In each row the inner loop stops at the first column that gets nothing: every
    column left of `RowEnd(p, m, 0)` gets a leaf or a fruit, and the one at
    `RowEnd(p, m, 0)`, if inside the top, gets nothing.
   */
  lemma RowStopsAtFirstNothing(p: seq<Growth>, m: int)
    ensures RowEnd(p, m, 0) <= TOP_CELLS
    ensures forall k :: 0 <= k < RowEnd(p, m, 0) ==> GrowthAt(p, m, k) != Nothing
    ensures RowEnd(p, m, 0) < TOP_CELLS ==> GrowthAt(p, m, RowEnd(p, m, 0)) == Nothing
  {
    RowEndRun(p, m, 0);
  }

  // ----- What the tree top holds -----

  /** Column `n` of row `m` gets a cell of `kind`: the pattern picks `kind` there and the row's loop reaches the column. */
  predicate Grows(p: seq<Growth>, m: int, n: int, kind: Growth)
  {
    0 <= m < TOP_CELLS && 0 <= n < RowEnd(p, m, 0) && GrowthAt(p, m, n) == kind
  }

  /** Where a cell of a row prefix comes from: a column before `n` whose outcome is `kind`. */
  lemma {:induction false} RowPrefixSource(trunkTop: Vec2, p: seq<Growth>, m: int, n: nat, kind: Growth, c: GameObject)
    returns (k: nat)
    requires c in RowPrefix(trunkTop, p, m, n, kind)
    ensures k < n && GrowthAt(p, m, k) == kind && c == CellAt(trunkTop, m, k, kind)
  {
    if c in RowPrefix(trunkTop, p, m, n - 1, kind) {
      k := RowPrefixSource(trunkTop, p, m, n - 1, kind, c);
    } else {
      k := n - 1;
    }
  }

  /** Every column before `n` whose outcome is `kind` contributes its cell to the row prefix. */
  lemma {:induction false} RowPrefixHas(trunkTop: Vec2, p: seq<Growth>, m: int, n: nat, k: nat, kind: Growth)
    requires k < n && GrowthAt(p, m, k) == kind
    ensures CellAt(trunkTop, m, k, kind) in RowPrefix(trunkTop, p, m, n, kind)
  {
    if k < n - 1 {
      RowPrefixHas(trunkTop, p, m, n - 1, k, kind);
    }
  }

  /** Where a cell of the first `rows` rows comes from: a grid cell that grows `kind`. */
  lemma {:induction false} TopPrefixSource(trunkTop: Vec2, p: seq<Growth>, rows: nat, kind: Growth, c: GameObject)
    returns (m: nat, n: nat)
    requires rows <= TOP_CELLS && c in TopPrefix(trunkTop, p, rows, kind)
    ensures m < rows && Grows(p, m, n, kind) && c == CellAt(trunkTop, m, n, kind)
  {
    if c in TopPrefix(trunkTop, p, rows - 1, kind) {
      m, n := TopPrefixSource(trunkTop, p, rows - 1, kind, c);
    } else {
      m := rows - 1;
      n := RowPrefixSource(trunkTop, p, m, RowEnd(p, m, 0), kind, c);
    }
  }

  /** Every grid cell of the first `rows` rows that grows `kind` is in the top. */
  lemma {:induction false} TopPrefixHas(trunkTop: Vec2, p: seq<Growth>, rows: nat, m: nat, n: nat, kind: Growth)
    requires m < rows <= TOP_CELLS && Grows(p, m, n, kind)
    ensures CellAt(trunkTop, m, n, kind) in TopPrefix(trunkTop, p, rows, kind)
  {
    if m < rows - 1 {
      TopPrefixHas(trunkTop, p, rows - 1, m, n, kind);
    } else {
      RowPrefixHas(trunkTop, p, m, RowEnd(p, m, 0), n, kind);
    }
  }

  /**
    The tree top holds a cell of `kind` exactly at the offsets `(i, j)` of the 7 x 7
    grid whose outcome is `kind` and that lie before the first "nothing" of their row.
   */
  lemma TopCellsMembers(trunkTop: Vec2, p: seq<Growth>, kind: Growth, c: GameObject)
    ensures c in TopCells(trunkTop, p, kind) <==>
            exists m, n :: Grows(p, m, n, kind) && c == CellAt(trunkTop, m, n, kind)
  {
    if c in TopCells(trunkTop, p, kind) {
      var m, n := TopPrefixSource(trunkTop, p, TOP_CELLS, kind, c);
    }
    if exists m, n :: Grows(p, m, n, kind) && c == CellAt(trunkTop, m, n, kind) {
      var m, n :| Grows(p, m, n, kind) && c == CellAt(trunkTop, m, n, kind);
      TopPrefixHas(trunkTop, p, TOP_CELLS, m, n, kind);
    }
  }

  /** Distinct grid cells are distinct objects: a cell's position fixes its row and column. */
  lemma CellAtInjective(trunkTop: Vec2, m: int, n: int, m': int, n': int, kind: Growth)
    requires CellAt(trunkTop, m, n, kind).topLeft == CellAt(trunkTop, m', n', kind).topLeft
    ensures m == m' && n == n'
  {
    assert GridOffset(m) as real == GridOffset(m') as real;
    assert GridOffset(n) as real == GridOffset(n') as real;
  }

  /** One direction of SameDiagonalSameGrowth. */
  lemma DiagonalCarries(trunkTop: Vec2, p: seq<Growth>, m: int, n: int, m': int, n': int, kind: Growth)
    requires m + n == m' + n'
    requires 0 <= m' < TOP_CELLS && 0 <= n' < RowEnd(p, m', 0)
    requires CellAt(trunkTop, m, n, kind) in TopCells(trunkTop, p, kind)
    ensures CellAt(trunkTop, m', n', kind) in TopCells(trunkTop, p, kind)
  {
    var r, k := TopPrefixSource(trunkTop, p, TOP_CELLS, kind, CellAt(trunkTop, m, n, kind));
    CellAtInjective(trunkTop, r, k, m, n, kind);
    TopPrefixHas(trunkTop, p, TOP_CELLS, m', n', kind);
  }

  /**
    The outcome at a grid cell depends only on `i + j`: two cells of the same
    anti-diagonal that their rows' loops reach hold the same kind.
   */
  lemma SameDiagonalSameGrowth(trunkTop: Vec2, p: seq<Growth>, m: int, n: int, m': int, n': int, kind: Growth)
    requires m + n == m' + n'
    requires 0 <= m < TOP_CELLS && 0 <= n < RowEnd(p, m, 0)
    requires 0 <= m' < TOP_CELLS && 0 <= n' < RowEnd(p, m', 0)
    ensures CellAt(trunkTop, m, n, kind) in TopCells(trunkTop, p, kind) <==>
            CellAt(trunkTop, m', n', kind) in TopCells(trunkTop, p, kind)
  {
    if CellAt(trunkTop, m, n, kind) in TopCells(trunkTop, p, kind) {
      DiagonalCarries(trunkTop, p, m, n, m', n', kind);
    }
    if CellAt(trunkTop, m', n', kind) in TopCells(trunkTop, p, kind) {
      DiagonalCarries(trunkTop, p, m', n', m, n, kind);
    }
  }

  /**
    Leaves are tagged "leaf" and fruits "fruit", and each is a BLOCK_SIZE square at
    trunk top + (i, j) for grid offsets i, j in -105 .. 75.
   */
  lemma TopCellsShape(trunkTop: Vec2, p: seq<Growth>, kind: Growth, c: GameObject)
    requires kind != Nothing && c in TopCells(trunkTop, p, kind)
    ensures c.tag == (if kind == LeafCell then LEAF_TAG else FRUIT_TAG)
    ensures c.dimensions == Vec2(BLOCK_SIZE as real, BLOCK_SIZE as real)
    ensures exists m, n :: 0 <= m < TOP_CELLS && 0 <= n < TOP_CELLS &&
              c.topLeft == trunkTop.Add(Vec2(GridOffset(m) as real, GridOffset(n) as real))
  {
    var m, n := TopPrefixSource(trunkTop, p, TOP_CELLS, kind, c);
    RowStopsAtFirstNothing(p, m);
  }

  /** No leaf and fruit share a position: the kind at an offset is fixed by its outcome. */
  lemma LeavesAndFruitsDisjoint(trunkTop: Vec2, p: seq<Growth>, leaf: GameObject, fruit: GameObject)
    requires leaf in TopCells(trunkTop, p, LeafCell)
    requires fruit in TopCells(trunkTop, p, FruitCell)
    ensures leaf.topLeft != fruit.topLeft
  {
    var m, n := TopPrefixSource(trunkTop, p, TOP_CELLS, LeafCell, leaf);
    var m', n' := TopPrefixSource(trunkTop, p, TOP_CELLS, FruitCell, fruit);
  }

  // ----- How many cells the tree top holds -----

  lemma {:induction false} RowPrefixCount(trunkTop: Vec2, p: seq<Growth>, m: int, n: nat)
    requires forall k :: 0 <= k < n ==> GrowthAt(p, m, k) != Nothing
    ensures |RowPrefix(trunkTop, p, m, n, LeafCell)| + |RowPrefix(trunkTop, p, m, n, FruitCell)| == n
  {
    if n > 0 {
      RowPrefixCount(trunkTop, p, m, n - 1);
    }
  }

  /** A row holds one leaf or fruit per column before its first "nothing". */
  lemma RowCount(trunkTop: Vec2, p: seq<Growth>, m: int)
    ensures |RowCells(trunkTop, p, m, LeafCell)| + |RowCells(trunkTop, p, m, FruitCell)| == RowEnd(p, m, 0) <= TOP_CELLS
  {
    RowStopsAtFirstNothing(p, m);
    RowPrefixCount(trunkTop, p, m, RowEnd(p, m, 0));
  }

  lemma {:induction false} TopPrefixCount(trunkTop: Vec2, p: seq<Growth>, rows: nat)
    ensures |TopPrefix(trunkTop, p, rows, LeafCell)| + |TopPrefix(trunkTop, p, rows, FruitCell)| <= rows * TOP_CELLS
  {
    if rows > 0 {
      TopPrefixCount(trunkTop, p, rows - 1);
      RowCount(trunkTop, p, rows - 1);
    }
  }

  /** A tree top holds at most 49 leaves and fruits together. */
  lemma TopCount(trunkTop: Vec2, p: seq<Growth>)
    ensures |TopCells(trunkTop, p, LeafCell)| + |TopCells(trunkTop, p, FruitCell)| <= TOP_CELLS * TOP_CELLS
  {
    TopPrefixCount(trunkTop, p, TOP_CELLS);
  }

  // ----- The layout does not depend on where the tree stands -----

  /** The objects of `s`, each moved by `d`. */
  function MovedAll(s: seq<GameObject>, d: Vec2): (r: seq<GameObject>)
    ensures |r| == |s|
  {
    if s == [] then [] else MovedAll(s[..|s| - 1], d) + [s[|s| - 1].Moved(d)]
  }

  lemma {:induction false} MovedAllConcat(s: seq<GameObject>, t: seq<GameObject>, d: Vec2)
    ensures MovedAll(s + t, d) == MovedAll(s, d) + MovedAll(t, d)
    decreases |t|
  {
    if t == [] {
      assert s + t == s;
    } else {
      var init := t[..|t| - 1];
      assert (s + t)[..|s + t| - 1] == s + init;
      assert (s + t)[|s + t| - 1] == t[|t| - 1];
      MovedAllConcat(s, init, d);
    }
  }

  /** Moving a cell by the distance between two trunk tops gives the same cell of the other tree. */
  lemma CellAtMoved(a: Vec2, b: Vec2, m: int, n: int, kind: Growth)
    ensures MovedAll([CellAt(a, m, n, kind)], Vec2(b.x - a.x, b.y - a.y)) == [CellAt(b, m, n, kind)]
  {
    var d := Vec2(b.x - a.x, b.y - a.y);
    assert [CellAt(a, m, n, kind)][..0] == [];
    assert CellAt(a, m, n, kind).Moved(d) == CellAt(b, m, n, kind);
  }

  lemma {:induction false} RowPrefixMoved(a: Vec2, b: Vec2, p: seq<Growth>, m: int, n: nat, kind: Growth)
    ensures MovedAll(RowPrefix(a, p, m, n, kind), Vec2(b.x - a.x, b.y - a.y)) == RowPrefix(b, p, m, n, kind)
  {
    if n > 0 {
      var d := Vec2(b.x - a.x, b.y - a.y);
      var pre := RowPrefix(a, p, m, n - 1, kind);
      RowPrefixMoved(a, b, p, m, n - 1, kind);
      if GrowthAt(p, m, n - 1) == kind {
        var cell := [CellAt(a, m, n - 1, kind)];
        assert RowPrefix(a, p, m, n, kind) == pre + cell;
        MovedAllConcat(pre, cell, d);
        CellAtMoved(a, b, m, n - 1, kind);
      } else {
        assert RowPrefix(a, p, m, n, kind) == pre;
      }
    }
  }

  lemma {:induction false} TopPrefixMoved(a: Vec2, b: Vec2, p: seq<Growth>, rows: nat, kind: Growth)
    ensures MovedAll(TopPrefix(a, p, rows, kind), Vec2(b.x - a.x, b.y - a.y)) == TopPrefix(b, p, rows, kind)
  {
    if rows > 0 {
      TopPrefixMoved(a, b, p, rows - 1, kind);
      RowPrefixMoved(a, b, p, rows - 1, RowEnd(p, rows - 1, 0), kind);
      MovedAllConcat(TopPrefix(a, p, rows - 1, kind), RowCells(a, p, rows - 1, kind), Vec2(b.x - a.x, b.y - a.y));
    }
  }

  /**
    Two trees with the same seed have the same top pattern wherever they stand:
    moving one trunk onto the other moves every leaf and fruit with it, in order.
   */
  lemma TopPositionIndependent(a: Vec2, b: Vec2, p: seq<Growth>, kind: Growth)
    ensures MovedAll(TopCells(a, p, kind), Vec2(b.x - a.x, b.y - a.y)) == TopCells(b, p, kind)
  {
    TopPrefixMoved(a, b, p, TOP_CELLS, kind);
  }
}

/**
  The terrain rasteriser: turns the ground-height function over an x-range
  into columns of stacked ground blocks on the BLOCK_SIZE grid.
  Grid arithmetic spells BLOCK_SIZE as the literal 30, which keeps it linear for the verifier.
 */
module Terrain {
  import opened Constants
  import opened JavaMath
  import opened Scene

  /** `BASIC_HEIGHT_PARAMETER`: the ground at x = 0 sits two thirds down the window. */
  const BASIC_HEIGHT_PARAMETER: real := 2.0 / 3.0

  /** `(minX / BLOCK_SIZE) * BLOCK_SIZE` with Java's truncating division. */
  function GridStart(minX: int): (start: int)
    ensures start % 30 == 0
    ensures minX >= 0 ==> 0 <= start <= minX < start + 30
    ensures minX < 0 ==> start - 30 < minX <= start <= 0
  {
    TruncDiv(minX, 30) * 30
  }

  /** `ceil(maxX / BLOCK_SIZE) * BLOCK_SIZE`: the least grid line not left of `maxX`. */
  function GridEnd(maxX: int): (end: int)
    ensures end % 30 == 0
    ensures end - 30 < maxX <= end
  {
    CeilDiv(maxX, 30) * 30
  }

  /** Offsets from a grid line are grid offsets exactly when they land on a grid line. */
  lemma OnSameGrid(a: int, b: int)
    requires a % 30 == 0
    ensures (b - a) % 30 == 0 <==> b % 30 == 0
  {
    var k := a / 30;
    assert a == 30 * k;
    assert (b - 30 * k) % 30 == b % 30;
  }

  /** For a negative `minX` the snap rounds toward zero, not down. */
  lemma NegativeStartRoundsUp()
    ensures GridStart(-500) == -480 && GridStart(500) == 480
    ensures GridEnd(-500) == -480 && GridEnd(500) == 510
  {
  }

  /** Block `a` comes strictly before block `b` in the rasteriser's output order. */
  predicate Before(a: GameObject, b: GameObject)
  {
    a.topLeft.x < b.topLeft.x || (a.topLeft.x == b.topLeft.x && a.topLeft.y > b.topLeft.y)
  }

  /**
    A terrain: the window height and the seeded noise `NoiseGenerator.noise(x, 210)`
    of one seed. Nothing in it changes after construction.
   */
  datatype Terrain = Terrain(windowY: real, noise: int -> real)
  {
    /** `groundHeightAt`: the y coordinate of the ground surface at `x`. */
    function GroundHeightAt(x: int): real
    {
      windowY * BASIC_HEIGHT_PARAMETER + noise(x)
    }

    /** `heightInBlocks` of column `x`: `ceil((windowY - groundHeightAt(x)) / 30) + 1`. */
    function ColumnBlockCount(x: int): int
    {
      Ceil((windowY - GroundHeightAt(x)) / 30.0) + 1
    }

    /** The ground block of column `x`, row `l`: its top-left corner is `l` blocks above the window bottom. */
    function GroundBlock(x: int, l: int): GameObject
    {
      GameObject(GROUND_TAG, Vec2(x as real, windowY - 30.0 * l as real), Vec2(30.0, 30.0))
    }

    /** `n` ground blocks of column `x` stacked without gaps, bottom row first (none when `n <= 0`). */
    function ColumnOf(x: int, n: int): seq<GameObject>
    {
      seq(Max(0, n), l => GroundBlock(x, l))
    }

    /** The blocks `createInRange` stacks in column `x`: `ColumnBlockCount(x)` of them. */
    function Column(x: int): seq<GameObject>
    {
      ColumnOf(x, ColumnBlockCount(x))
    }

    /**
      The blocks of the grid columns `x0, x0 + 30, ..., e - 30`, column by column,
      left to right (meant for `e - x0` a multiple of BLOCK_SIZE).
     */
    function Columns(x0: int, e: int): seq<GameObject>
      decreases e - x0
    {
      if e <= x0 then [] else Columns(x0, e - 30) + Column(e - 30)
    }

    /** The total number of blocks of the columns `x0, x0 + 30, ..., e - 30`. */
    function BlockTotal(x0: int, e: int): nat
      decreases e - x0
    {
      if e <= x0 then 0 else BlockTotal(x0, e - 30) + Max(0, ColumnBlockCount(e - 30))
    }

    /**
      `fillBlockColumn`: a column of `colBlockNum` ground blocks stacked without gaps,
      the first one with its top edge at the window bottom, each next one a block higher.
     */
    method FillBlockColumn(xCoordinate: int, colBlockNum: int) returns (blocksCol: seq<GameObject>)
      ensures blocksCol == ColumnOf(xCoordinate, colBlockNum)
      ensures |blocksCol| == Max(0, colBlockNum)
      ensures forall l :: 0 <= l < |blocksCol| ==>
        blocksCol[l].tag == GROUND_TAG && blocksCol[l].dimensions == Vec2(30.0, 30.0) &&
        blocksCol[l].topLeft == Vec2(xCoordinate as real, windowY - 30.0 * l as real)
    {
      blocksCol := [];
      var l := 0;
      while l < colBlockNum
        invariant 0 <= l == |blocksCol|
        invariant colBlockNum >= 0 ==> l <= colBlockNum
        invariant colBlockNum < 0 ==> l == 0
        invariant forall k :: 0 <= k < l ==> blocksCol[k] == GroundBlock(xCoordinate, k)
      {
        var topLeftCorner := Vec2(xCoordinate as real, windowY - (l * 30) as real);
        var curBlock := GameObject(GROUND_TAG, topLeftCorner, Vec2(BLOCK_SIZE as real, BLOCK_SIZE as real));
        blocksCol := blocksCol + [curBlock];
        l := l + 1;
      }
    }

    /**
      `createInRange`: the ground blocks of every grid column from the snapped
      `minX` up to (not including) the snapped `maxX`, columns left to right.
     */
    method CreateInRange(minX: int, maxX: int) returns (allBlocks: seq<GameObject>)
      ensures allBlocks == Columns(GridStart(minX), GridEnd(maxX))
      ensures GridStart(minX) >= GridEnd(maxX) ==> allBlocks == []
    {
      var start := GridStart(minX);
      var end := GridEnd(maxX);
      allBlocks := [];
      var x := start;
      while x < end
        invariant start < end ==> start <= x <= end
        invariant start >= end ==> x == start
        invariant (end - x) % 30 == 0
        invariant allBlocks == Columns(start, x)
        decreases end - x
      {
        // ceil((windowY - groundHeightAt(x)) / BLOCK_SIZE) + 1
        var heightInBlocks := ColumnBlockCount(x);
        var column := FillBlockColumn(x, heightInBlocks);
        assert Columns(start, x + 30) == Columns(start, x) + Column(x);
        allBlocks := allBlocks + column;
        x := x + BLOCK_SIZE;
      }
    }

    /** `b` is one of the rows column `c` has. */
    predicate InColumn(b: GameObject, c: int)
    {
      exists l :: 0 <= l < ColumnBlockCount(c) && b == GroundBlock(c, l)
    }

    /** Every block of the columns is a ground block of one of the grid columns, at a row that column has. */
    lemma {:induction false} ColumnsOnGrid(x0: int, e: int)
      requires (e - x0) % 30 == 0
      ensures forall b :: b in Columns(x0, e) ==>
        exists c :: x0 <= c < e && (c - x0) % 30 == 0 && InColumn(b, c)
      decreases e - x0
    {
      if x0 < e {
        ColumnsOnGrid(x0, e - 30);
        forall b | b in Columns(x0, e)
          ensures exists c :: x0 <= c < e && (c - x0) % 30 == 0 && InColumn(b, c)
        {
          if b in Column(e - 30) {
            var l :| 0 <= l < |Column(e - 30)| && Column(e - 30)[l] == b;
            assert InColumn(b, e - 30);
          } else {
            assert b in Columns(x0, e - 30);
          }
        }
      }
    }

    /** Every row of every grid column is present: ground has no gaps. */
    lemma {:induction false} ColumnsCover(x0: int, e: int, c: int, l: int)
      requires x0 <= c < e && (c - x0) % 30 == 0 && (e - x0) % 30 == 0
      requires 0 <= l < ColumnBlockCount(c)
      ensures GroundBlock(c, l) in Columns(x0, e)
      decreases e - x0
    {
      if c == e - 30 {
        assert Column(c)[l] == GroundBlock(c, l);
      } else {
        ColumnsCover(x0, e - 30, c, l);
      }
    }

    /**
      Grid alignment of `createInRange`: every block it emits is a ground block at a
      row of a column whose x is a multiple of BLOCK_SIZE inside the snapped range.
     */
    lemma RangeOnGrid(minX: int, maxX: int)
      ensures forall b :: b in Columns(GridStart(minX), GridEnd(maxX)) ==>
        b.tag == GROUND_TAG &&
        exists c :: c % 30 == 0 && GridStart(minX) <= c < GridEnd(maxX) && InColumn(b, c)
    {
      var start, end := GridStart(minX), GridEnd(maxX);
      OnSameGrid(start, end);
      ColumnsOnGrid(start, end);
      forall b | b in Columns(start, end)
        ensures b.tag == GROUND_TAG &&
          exists c :: c % 30 == 0 && start <= c < end && InColumn(b, c)
      {
        var c :| start <= c < end && (c - start) % 30 == 0 && InColumn(b, c);
        OnSameGrid(start, c);
        var l :| 0 <= l < ColumnBlockCount(c) && b == GroundBlock(c, l);
      }
    }

    /**
      Coverage of `createInRange`: every row of every grid column inside the snapped
      range is emitted; in particular each column reaching the window has its bottom block.
     */
    lemma RangeCovers(minX: int, maxX: int, c: int, l: int)
      requires c % 30 == 0 && GridStart(minX) <= c < GridEnd(maxX)
      requires 0 <= l < ColumnBlockCount(c)
      ensures GroundBlock(c, l) in Columns(GridStart(minX), GridEnd(maxX))
    {
      ColumnsCover(GridStart(minX), GridEnd(maxX), c, l);
    }

    /** The output has as many blocks as its columns' counts add up to. */
    lemma {:induction false} ColumnsLength(x0: int, e: int)
      ensures |Columns(x0, e)| == BlockTotal(x0, e)
      decreases e - x0
    {
      if x0 < e {
        ColumnsLength(x0, e - 30);
      }
    }

    /** No block of the columns left of `e` lies at or right of `e`. */
    lemma ColumnsLeftOf(x0: int, e: int)
      requires (e - x0) % 30 == 0
      ensures forall b :: b in Columns(x0, e) ==> b.topLeft.x < e as real
    {
      ColumnsOnGrid(x0, e);
      forall b | b in Columns(x0, e) ensures b.topLeft.x < e as real {
        var c :| x0 <= c < e && (c - x0) % 30 == 0 && InColumn(b, c);
      }
    }

    /**
      Output order: columns by increasing x and, within a column, rows bottom up;
      so no block is emitted twice.
     */
    lemma {:induction false} ColumnsSorted(x0: int, e: int)
      requires (e - x0) % 30 == 0
      ensures forall i, j :: 0 <= i < j < |Columns(x0, e)| ==> Before(Columns(x0, e)[i], Columns(x0, e)[j])
      decreases e - x0
    {
      if x0 < e {
        var rest, col := Columns(x0, e - 30), Column(e - 30);
        ColumnsSorted(x0, e - 30);
        ColumnsLeftOf(x0, e - 30);
        assert Columns(x0, e) == rest + col;
        forall i, j | 0 <= i < j < |rest + col|
          ensures Before((rest + col)[i], (rest + col)[j])
        {
          if j < |rest| {
            assert (rest + col)[i] == rest[i] && (rest + col)[j] == rest[j];
          } else if i < |rest| {
            assert (rest + col)[i] == rest[i] && rest[i] in rest;
            assert (rest + col)[j] == col[j - |rest|];
          } else {
            assert (rest + col)[i] == GroundBlock(e - 30, i - |rest|);
            assert (rest + col)[j] == GroundBlock(e - 30, j - |rest|);
          }
        }
      }
    }

    /** Blocks emitted by one call of `createInRange` are pairwise distinct. */
    lemma RangeDistinct(minX: int, maxX: int)
      ensures var blocks := Columns(GridStart(minX), GridEnd(maxX));
        forall i, j :: 0 <= i < j < |blocks| ==> blocks[i] != blocks[j]
    {
      ColumnsSorted(GridStart(minX), GridEnd(maxX));
    }

    /** Aligned column runs concatenate: `[x0, m)` followed by `[m, e)` is `[x0, e)`. */
    lemma {:induction false} ColumnsSplit(x0: int, m: int, e: int)
      requires x0 <= m <= e && (e - m) % 30 == 0
      ensures Columns(x0, m) + Columns(m, e) == Columns(x0, e)
      decreases e - m
    {
      if m < e {
        ColumnsSplit(x0, m, e - 30);
        assert Columns(m, e) == Columns(m, e - 30) + Column(e - 30);
      }
    }

    /**
      Two `createInRange` calls that meet at a grid line `b` tile the range: together
      they emit exactly what one call over the whole range emits.
     */
    lemma RangesTile(a: int, b: int, c: int)
      requires a <= b <= c && b % 30 == 0
      ensures Columns(GridStart(a), GridEnd(b)) + Columns(GridStart(b), GridEnd(c)) ==
              Columns(GridStart(a), GridEnd(c))
    {
      assert GridStart(b) == b && GridEnd(b) == b;
      ColumnsSplit(GridStart(a), b, GridEnd(c));
    }

    /**
      Two `createInRange` calls that meet at a positive `b` off the grid both emit the
      column the snap of `b` lands on: the seam column is produced twice.
     */
    lemma SeamColumnTwice(a: int, b: int, c: int, l: int)
      requires 0 < b < c && b % 30 != 0 && a <= GridStart(b)
      requires 0 <= l < ColumnBlockCount(GridStart(b))
      ensures GroundBlock(GridStart(b), l) in Columns(GridStart(a), GridEnd(b))
      ensures GroundBlock(GridStart(b), l) in Columns(GridStart(b), GridEnd(c))
    {
      var s := GridStart(b);
      assert GridStart(a) <= s by {
        if a >= 0 {
          assert GridStart(a) <= a;
        } else {
          assert GridStart(a) <= 0;
        }
      }
      assert s < GridEnd(b);
      RangeCovers(a, b, s, l);
      RangeCovers(b, c, s, l);
    }

    /** A flat height field (no noise) gives columns of one common height. */
    lemma FlatTerrain(x: int, y: int)
      requires forall z :: noise(z) == 0.0
      ensures ColumnBlockCount(x) == ColumnBlockCount(y)
    {
    }
  }
}

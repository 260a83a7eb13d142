/**
  The infinite-world window manager: two world edges that follow the avatar by
  `extraWorld` at a time, generating terrain ahead of it and evicting world objects
  that have fallen outside the edges.
 */
module PepseGameManager {
  import opened Constants
  import opened JavaMath
  import opened Scene
  import Terrain
  import Tree
  import Flora
  import Fruit
  import Avatar

  /** `extraWorld`: `(int) ceil(windowWidth / 2)`, the step by which the edges move. */
  function ExtraWorld(windowWidth: real): (extra: int)
    ensures windowWidth / 2.0 <= extra as real < windowWidth / 2.0 + 1.0
  {
    Ceil(windowWidth / 2.0)
  }

  /** The left and right world edges. */
  datatype Edges = Edges(left: real, right: real)

  /** `updateInfinityWorldEdges`: half a window beyond each side of the window. */
  function InitialEdges(windowWidth: real): (e: Edges)
    ensures e.right - e.left == 2.0 * windowWidth
    ensures e.left <= 0.0 <= windowWidth <= e.right || windowWidth < 0.0
  {
    Edges(-0.5 * windowWidth, windowWidth + 0.5 * windowWidth)
  }

  /** What one frame does to the world. */
  datatype Shift = Stay | ToRight | ToLeft

  /** The `update` decision: right when past `right - extra`, else left when before `left + extra`. */
  function ShiftFor(e: Edges, avatarX: real, extra: int): Shift
  {
    if avatarX > e.right - extra as real then ToRight
    else if avatarX < e.left + extra as real then ToLeft
    else Stay
  }

  /** The edges after a shift: both move by `extra` in the shift's direction. */
  function Shifted(e: Edges, s: Shift, extra: int): Edges
  {
    match s
    case Stay => e
    case ToRight => Edges(e.left + extra as real, e.right + extra as real)
    case ToLeft => Edges(e.left - extra as real, e.right - extra as real)
  }

  /** The edges after the frames whose avatar positions are `xs`, in order. */
  function Track(e: Edges, xs: seq<real>, extra: int): Edges
    decreases xs
  {
    if xs == [] then e else Track(Shifted(e, ShiftFor(e, xs[0], extra), extra), xs[1..], extra)
  }

  /**
    The ground blocks a shift generates (none for `Stay`): the terrain of the new strip,
    whose edges `createTerrainRange` casts with `(int)`.
   */
  function Chunk(t: Terrain.Terrain, e: Edges, s: Shift, extra: int): seq<GameObject>
  {
    match s
    case Stay => []
    case ToRight => t.Columns(Terrain.GridStart(Trunc(e.right)), Terrain.GridEnd(Trunc(e.right + extra as real)))
    case ToLeft => t.Columns(Terrain.GridStart(Trunc(e.left - extra as real)), Terrain.GridEnd(Trunc(e.left)))
  }

  /** `removeUnseenObjects` removes `o`: its center lies outside the edges and it is a world object. */
  predicate Unseen(o: GameObject, e: Edges)
  {
    (o.CenterX() < e.left || o.CenterX() > e.right) && IsWorldTag(o.tag)
  }

  /** The scene after `removeUnseenObjects`: the objects that are not unseen, in order. */
  function Evicted(scene: seq<GameObject>, e: Edges): seq<GameObject>
  {
    if scene == [] then []
    else
      var last := scene[|scene| - 1];
      Evicted(scene[..|scene| - 1], e) + (if Unseen(last, e) then [] else [last])
  }

  /** The objects `createFlora` adds for one tree: trunk, then leaves, then fruits. */
  function Parts(t: Tree.Tree): seq<GameObject>
  {
    [t.trunk] + t.leaves + t.fruits
  }

  /** The objects of the trees `ts`, tree by tree in that order. */
  function AllParts(ts: seq<Tree.Tree>): seq<GameObject>
  {
    if ts == [] then [] else AllParts(ts[..|ts| - 1]) + Parts(ts[|ts| - 1])
  }

  /**
    The game manager. `scene` is the engine's object collection, reduced to tag and
    geometry. Objects added while a frame runs wait in `pending` and join the scene
    when the frame ends, after that frame's eviction pass. What `initializeGame` sets
    once (window width, `extraWorld`, terrain, flora, avatar) is constant afterwards.
   */
  class GameManager {
    const windowWidth: real
    const extraWorld: int
    const terrain: Terrain.Terrain
    const gameFlora: Flora.Flora
    const gameAvatar: Avatar.Avatar
    var leftWorldEdge: real
    var rightWorldEdge: real
    var scene: seq<GameObject>
    var pending: seq<GameObject>
    /** The order in which `createFlora` visited the planted trees (a `HashSet` order). */
    ghost var floraOrder: seq<Tree.Tree>

    function WorldEdges(): Edges
      reads this
    {
      Edges(leftWorldEdge, rightWorldEdge)
    }

    /** Between frames: `extraWorld` fits the window, the edges are two windows apart, nothing waits. */
    predicate Valid()
      reads this
    {
      extraWorld == ExtraWorld(windowWidth) &&
      rightWorldEdge - leftWorldEdge == 2.0 * windowWidth &&
      pending == []
    }

    /**
      `initializeGame`, reduced to the world: window dimensions and `extraWorld`, the
      edges, the terrain of the initial range, the avatar, and the flora of
      `[0, windowWidth)`. The seed, the noise and the seeded draw come from outside.
     */
    constructor InitializeGame(windowWidth: real, windowHeight: real, seed: int, noise: int -> real, rng: Rng)
      ensures Valid()
      ensures this.windowWidth == windowWidth && WorldEdges() == InitialEdges(windowWidth)
      ensures terrain == Terrain.Terrain(windowHeight, noise)
      ensures fresh(gameAvatar) && gameAvatar.curEnergy == Avatar.MAX_ENERGY
      ensures fresh(gameFlora) && gameFlora.seed == seed && gameFlora.rng == rng
      ensures forall x :: gameFlora.groundHeightCallback(x) == terrain.GroundHeightAt(x)
      ensures gameFlora.trees == gameFlora.Planted(0, Trunc(windowWidth))
      ensures multiset(floraOrder) == gameFlora.trees
      ensures var e := InitialEdges(windowWidth);
        scene == terrain.Columns(Terrain.GridStart(Trunc(e.left)), Terrain.GridEnd(Trunc(e.right))) + AllParts(floraOrder)
    {
      // initializeWindowDimensions
      this.windowWidth := windowWidth;
      extraWorld := Ceil(windowWidth / 2.0);
      // createTerrain
      var t := Terrain.Terrain(windowHeight, noise);
      terrain := t;
      gameAvatar := new Avatar.Avatar();
      gameFlora := new Flora.Flora(x => t.GroundHeightAt(x), seed, rng);
      leftWorldEdge, rightWorldEdge := 0.0, 0.0;
      scene, pending := [], [];
      floraOrder := [];
      new;
      UpdateInfinityWorldEdges();
      CreateTerrainRange(leftWorldEdge, rightWorldEdge);
      AppendToEmpty(terrain.Columns(Terrain.GridStart(Trunc(leftWorldEdge)), Terrain.GridEnd(Trunc(rightWorldEdge))));
      CreateFlora(0.0, windowWidth);
      UnionWithEmpty(gameFlora.trees);
      AppendToEmpty(pending);
      FlushPending();
    }

    /** `updateInfinityWorldEdges`: the edges half a window beyond each side. */
    method UpdateInfinityWorldEdges()
      modifies this
      ensures WorldEdges() == InitialEdges(windowWidth)
      ensures scene == old(scene) && pending == old(pending) && floraOrder == old(floraOrder)
    {
      leftWorldEdge := -0.5 * windowWidth;
      rightWorldEdge := windowWidth + 0.5 * windowWidth;
    }

    /** `createTerrainRange`: the terrain blocks of the truncated range, added block by block. */
    method CreateTerrainRange(startRange: real, endRange: real)
      modifies this
      ensures pending == old(pending) + terrain.Columns(Terrain.GridStart(Trunc(startRange)), Terrain.GridEnd(Trunc(endRange)))
      ensures WorldEdges() == old(WorldEdges()) && scene == old(scene) && floraOrder == old(floraOrder)
    {
      var blocks := terrain.CreateInRange(Trunc(startRange), Trunc(endRange));
      var i := 0;
      while i < |blocks|
        invariant i <= |blocks|
        invariant pending == old(pending) + blocks[..i]
        invariant WorldEdges() == old(WorldEdges()) && scene == old(scene) && floraOrder == old(floraOrder)
      {
        pending := pending + [blocks[i]];
        i := i + 1;
      }
      assert blocks[..i] == blocks;
    }

    /** The body of `createFlora`'s loop for one tree: its trunk, its leaves, then its fruits. */
    method AddTreeParts(curTree: Tree.Tree)
      modifies this
      ensures pending == old(pending) + Parts(curTree)
      ensures WorldEdges() == old(WorldEdges()) && scene == old(scene) && floraOrder == old(floraOrder)
    {
      pending := pending + [curTree.trunk];
      var i := 0;
      while i < |curTree.leaves|
        invariant i <= |curTree.leaves|
        invariant pending == old(pending) + [curTree.trunk] + curTree.leaves[..i]
        invariant WorldEdges() == old(WorldEdges()) && scene == old(scene) && floraOrder == old(floraOrder)
      {
        pending := pending + [curTree.leaves[i]];
        i := i + 1;
      }
      assert curTree.leaves[..i] == curTree.leaves;
      i := 0;
      while i < |curTree.fruits|
        invariant i <= |curTree.fruits|
        invariant pending == old(pending) + [curTree.trunk] + curTree.leaves + curTree.fruits[..i]
        invariant WorldEdges() == old(WorldEdges()) && scene == old(scene) && floraOrder == old(floraOrder)
      {
        pending := pending + [curTree.fruits[i]];
        i := i + 1;
      }
      assert curTree.fruits[..i] == curTree.fruits;
    }

    /**
      `createFlora`: the flora plants the trees of the truncated range; every planted
      tree's trunk, leaves and fruits are added, tree after tree in the set's order.
     */
    method CreateFlora(startRange: real, endRange: real)
      modifies this, gameFlora
      ensures gameFlora.trees == old(gameFlora.trees) + gameFlora.Planted(Trunc(startRange), Trunc(endRange))
      ensures multiset(floraOrder) == gameFlora.trees
      ensures pending == old(pending) + AllParts(floraOrder)
      ensures WorldEdges() == old(WorldEdges()) && scene == old(scene)
    {
      var trees := gameFlora.CreateInRange(Trunc(startRange), Trunc(endRange));
      var remaining := trees;
      floraOrder := [];
      while remaining != multiset{}
        invariant remaining + multiset(floraOrder) == trees == gameFlora.trees
        invariant pending == old(pending) + AllParts(floraOrder)
        invariant WorldEdges() == old(WorldEdges()) && scene == old(scene)
        decreases |remaining|
      {
        var curTree :| curTree in remaining;
        AddTreeParts(curTree);
        AllPartsAppend(floraOrder, curTree);
        AppendAssoc(old(pending), AllParts(floraOrder), Parts(curTree));
        TakeOne(remaining, floraOrder, curTree);
        floraOrder := floraOrder + [curTree];
        remaining := remaining - multiset{curTree};
      }
    }

    /** The engine applies the additions made while the frame ran. */
    method FlushPending()
      modifies this
      ensures scene == old(scene) + old(pending) && pending == []
      ensures WorldEdges() == old(WorldEdges()) && floraOrder == old(floraOrder)
    {
      scene := scene + pending;
      pending := [];
    }

    /**
      `removeUnseenObjects`: removes every world object whose center lies outside the
      current edges; everything else stays, in order.
     */
    method RemoveUnseenObjects()
      modifies this
      ensures scene == Evicted(old(scene), WorldEdges())
      ensures WorldEdges() == old(WorldEdges()) && pending == old(pending) && floraOrder == old(floraOrder)
    {
      var kept: seq<GameObject> := [];
      var i := 0;
      while i < |scene|
        invariant i <= |scene|
        invariant kept == Evicted(scene[..i], WorldEdges())
      {
        var go := scene[i];
        assert scene[..i + 1][..i] == scene[..i];
        if !Unseen(go, WorldEdges()) {
          kept := kept + [go];
        }
        i := i + 1;
      }
      assert scene[..i] == scene;
      scene := kept;
    }

    /** `addToRight`: terrain for `[right, right + extra)`, eviction, then both edges move right. */
    method AddToRight()
      modifies this
      ensures pending == old(pending) + Chunk(terrain, old(WorldEdges()), ToRight, extraWorld)
      ensures scene == Evicted(old(scene), old(WorldEdges()))
      ensures WorldEdges() == Shifted(old(WorldEdges()), ToRight, extraWorld)
      ensures floraOrder == old(floraOrder)
    {
      CreateTerrainRange(rightWorldEdge, rightWorldEdge + extraWorld as real);
      RemoveUnseenObjects();
      rightWorldEdge := rightWorldEdge + extraWorld as real;
      leftWorldEdge := leftWorldEdge + extraWorld as real;
    }

    /** `addToLeft`: terrain for `[left - extra, left)`, eviction, then both edges move left. */
    method AddToLeft()
      modifies this
      ensures pending == old(pending) + Chunk(terrain, old(WorldEdges()), ToLeft, extraWorld)
      ensures scene == Evicted(old(scene), old(WorldEdges()))
      ensures WorldEdges() == Shifted(old(WorldEdges()), ToLeft, extraWorld)
      ensures floraOrder == old(floraOrder)
    {
      CreateTerrainRange(leftWorldEdge - extraWorld as real, leftWorldEdge);
      RemoveUnseenObjects();
      leftWorldEdge := leftWorldEdge - extraWorld as real;
      rightWorldEdge := rightWorldEdge - extraWorld as real;
    }

    /**
      `update`, for the avatar's top-left x this frame: at most one shift, chosen by
      `ShiftFor`; a shift evicts against the edges as they were and adds the new chunk.
     */
    method Update(avatarLocation: real)
      requires Valid()
      modifies this
      ensures Valid()
      ensures var s := ShiftFor(old(WorldEdges()), avatarLocation, extraWorld);
        WorldEdges() == Shifted(old(WorldEdges()), s, extraWorld) &&
        scene == (if s == Stay then old(scene) else Evicted(old(scene), old(WorldEdges())))
                 + Chunk(terrain, old(WorldEdges()), s, extraWorld)
      ensures floraOrder == old(floraOrder)
    {
      ghost var chunk := Chunk(terrain, WorldEdges(), ShiftFor(WorldEdges(), avatarLocation, extraWorld), extraWorld);
      AppendToEmpty(chunk);
      if avatarLocation > rightWorldEdge - extraWorld as real {
        AddToRight();
      } else if avatarLocation < leftWorldEdge + extraWorld as real {
        AddToLeft();
      }
      FlushPending();
    }

    /**
      The avatar touches `fruit`: the fruit's callback feeds the avatar's `updateEnergy`,
      so an uneaten fruit gives 10 (subject to the cap test) and an eaten one nothing.
     */
    method FruitCollision(fruit: Fruit.Fruit)
      modifies fruit, gameAvatar
      ensures fruit.ateMe
      ensures gameAvatar.curEnergy ==
        if old(fruit.ateMe) then old(gameAvatar.curEnergy)
        else Avatar.AddEnergy(old(gameAvatar.curEnergy), Fruit.ENERGY_TO_ADD_WHEN_EATEN)
      ensures gameAvatar.velocityX == old(gameAvatar.velocityX) && gameAvatar.velocityY == old(gameAvatar.velocityY)
    {
      var callbackArg := fruit.OnCollisionEnter(AVATAR_TAG);
      if callbackArg.Some? {
        gameAvatar.UpdateEnergy(callbackArg.value);
      }
    }
  }

  // Proof aids: small sequence and multiset identities, stated once so that the
  // methods above can use them without the solver rediscovering them.

  lemma AppendAssoc(a: seq<GameObject>, b: seq<GameObject>, c: seq<GameObject>)
    ensures a + (b + c) == (a + b) + c
  {
  }

  lemma AppendToEmpty(a: seq<GameObject>)
    ensures [] + a == a
  {
  }

  lemma UnionWithEmpty(m: multiset<Tree.Tree>)
    ensures multiset{} + m == m
  {
  }

  /** Visiting one more tree appends its parts. */
  lemma AllPartsAppend(ts: seq<Tree.Tree>, t: Tree.Tree)
    ensures AllParts(ts + [t]) == AllParts(ts) + Parts(t)
  {
    assert (ts + [t])[..|ts|] == ts;
  }

  /** Moving one tree from the unvisited multiset to the visit order keeps their union. */
  lemma TakeOne(remaining: multiset<Tree.Tree>, order: seq<Tree.Tree>, t: Tree.Tree)
    requires t in remaining
    ensures (remaining - multiset{t}) + multiset(order + [t]) == remaining + multiset(order)
  {
    assert multiset(order + [t]) == multiset(order) + multiset{t};
  }

  /** The window keeps its width: no sequence of frames changes `right - left`. */
  lemma {:induction false} TrackKeepsWidth(e: Edges, xs: seq<real>, extra: int)
    ensures Track(e, xs, extra).right - Track(e, xs, extra).left == e.right - e.left
    decreases xs
  {
    if xs != [] {
      TrackKeepsWidth(Shifted(e, ShiftFor(e, xs[0], extra), extra), xs[1..], extra);
    }
  }

  /**
    For a window at least one pixel wide the two thresholds do not overlap, so the
    `else` of `update` never hides a left shift that was also due.
   */
  lemma ThresholdsApart(e: Edges, windowWidth: real, avatarX: real)
    requires windowWidth >= 1.0 && e.right - e.left == 2.0 * windowWidth
    ensures !(avatarX > e.right - ExtraWorld(windowWidth) as real && avatarX < e.left + ExtraWorld(windowWidth) as real)
  {
    var extra := ExtraWorld(windowWidth);
    if windowWidth < 2.0 {
      assert extra as real < 2.0;
      assert extra == 1;
    }
    assert extra as real <= windowWidth;
  }

  /**
    A 1000-pixel window starts with edges -500 and 1500 and a step of 500; an avatar at
    x = 1050 is past 1500 - 500, so the world shifts right to the edges 0 and 2000, and
    the new strip is the terrain of the grid columns 1500 .. 1980 (the end 2000 snaps up to 2010).
   */
  lemma RightShiftExample(t: Terrain.Terrain)
    ensures ExtraWorld(1000.0) == 500 && InitialEdges(1000.0) == Edges(-500.0, 1500.0)
    ensures ShiftFor(InitialEdges(1000.0), 1050.0, 500) == ToRight
    ensures Shifted(InitialEdges(1000.0), ToRight, 500) == Edges(0.0, 2000.0)
    ensures Chunk(t, InitialEdges(1000.0), ToRight, 500) == t.Columns(1500, 2010)
  {
    assert Ceil(500.0) == 500;
    assert Trunc(1500.0) == 1500 && Trunc(2000.0) == 2000;
  }

  /**
    The initial terrain starts at the snap of the truncated left edge, which for a
    negative edge off the grid lies right of it: the strip between the left edge and
    the first column has no ground. For a 1000-pixel window that strip is [-500, -480).
   */
  lemma InitialTerrainLeftGap(t: Terrain.Terrain, windowWidth: real)
    requires windowWidth > 0.0
    ensures var e := InitialEdges(windowWidth);
      var s := Terrain.GridStart(Trunc(e.left));
      e.left <= s as real &&
      forall b :: b in t.Columns(s, Terrain.GridEnd(Trunc(e.right))) ==> b.topLeft.x >= s as real
    ensures InitialEdges(1000.0).left == -500.0 && Terrain.GridStart(Trunc(-500.0)) == -480
  {
    var e := InitialEdges(windowWidth);
    var s := Terrain.GridStart(Trunc(e.left));
    TruncTowardZero(e.left);
    t.RangeOnGrid(Trunc(e.left), Trunc(e.right));
    forall b | b in t.Columns(s, Terrain.GridEnd(Trunc(e.right)))
      ensures b.topLeft.x >= s as real
    {
      var c :| c % 30 == 0 && s <= c < Terrain.GridEnd(Trunc(e.right)) && t.InColumn(b, c);
      var l :| 0 <= l < t.ColumnBlockCount(c) && b == t.GroundBlock(c, l);
    }
    assert Trunc(-500.0) == -500;
  }

  /** A shift adds only ground blocks: trees are planted once, at initialisation. */
  lemma ShiftAddsOnlyGround(t: Terrain.Terrain, e: Edges, s: Shift, extra: int)
    ensures forall o :: o in Chunk(t, e, s, extra) ==> o.tag == GROUND_TAG
  {
    match s
    case Stay =>
    case ToRight => t.RangeOnGrid(Trunc(e.right), Trunc(e.right + extra as real));
    case ToLeft => t.RangeOnGrid(Trunc(e.left - extra as real), Trunc(e.left));
  }

  /**
    Tag-filtered eviction: an object's number of copies drops to zero when it is unseen
    and is unchanged otherwise.
   */
  lemma {:induction false} EvictedCount(scene: seq<GameObject>, e: Edges, o: GameObject)
    ensures multiset(Evicted(scene, e))[o] == if Unseen(o, e) then 0 else multiset(scene)[o]
    decreases |scene|
  {
    if scene != [] {
      var init, last := scene[..|scene| - 1], scene[|scene| - 1];
      EvictedCount(init, e, o);
      assert scene == init + [last];
      assert multiset(scene) == multiset(init) + multiset{last};
      assert Evicted(scene, e) == Evicted(init, e) + (if Unseen(last, e) then [] else [last]);
    }
  }

  /** After eviction no world object outside the edges is left, and every other object is kept. */
  lemma EvictedMembers(scene: seq<GameObject>, e: Edges, o: GameObject)
    ensures o in Evicted(scene, e) <==> o in scene && !Unseen(o, e)
  {
    EvictedCount(scene, e, o);
    assert o in Evicted(scene, e) <==> multiset(Evicted(scene, e))[o] > 0;
    assert o in scene <==> multiset(scene)[o] > 0;
  }
}

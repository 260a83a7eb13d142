/**
  The avatar's energy rules: walking and jumping cost energy, idling and fruit restore it.
  Key presses and the vertical velocity the physics engine produced come from outside.
 */
module Avatar {
  import opened Constants

  const VELOCITY_X: real := 400.0
  const VELOCITY_Y: real := -650.0
  const MAX_ENERGY: real := 100.0
  const WALKING_ENERGY: real := 0.5
  const JUMPING_ENERGY: real := 10.0
  const IDLE_ENERGY: real := 1.0
  /** The most energy can reach: below MAX_ENERGY plus the largest single addition (a fruit). */
  const ENERGY_CEILING: real := 110.0

  datatype Direction = Left | Right

  /** The keys held during one frame. */
  datatype Keys = Keys(left: bool, right: bool, space: bool)

  /** The part of the avatar the rules read and write: energy and velocity. */
  datatype Motion = Motion(energy: real, velocityX: real, velocityY: real)

  /** `updateEnergy`: adds `toAdd` only while energy is below MAX_ENERGY, so it can overshoot. */
  function AddEnergy(energy: real, toAdd: real): real
  {
    if energy < MAX_ENERGY then energy + toAdd else energy
  }

  /** `handleWalking`: sets the horizontal speed and pays for the step when on the ground. */
  function Walk(s: Motion, d: Direction): Motion
  {
    if s.energy < WALKING_ENERGY then s
    else
      Motion(if s.velocityY == 0.0 then s.energy - WALKING_ENERGY else s.energy,
             if d == Right then VELOCITY_X else -VELOCITY_X,
             s.velocityY)
  }

  /** `handleJumping`: takes off when standing with enough energy. */
  function Jump(s: Motion): Motion
  {
    if s.energy >= JUMPING_ENERGY && s.velocityY == 0.0
    then Motion(s.energy - JUMPING_ENERGY, s.velocityX, VELOCITY_Y)
    else s
  }

  /** One `update`: stop, walk on exactly one arrow, jump on space, regain when idle and still. */
  function Frame(s: Motion, k: Keys): Motion
  {
    var stopped := s.(velocityX := 0.0);
    var walked :=
      if k.left && !k.right then Walk(stopped, Left)
      else if k.right && !k.left then Walk(stopped, Right)
      else stopped;
    var jumped :=
      if k.space && walked.velocityY == 0.0 && walked.energy >= JUMPING_ENERGY then Jump(walked)
      else walked;
    if !k.right && !k.left && !k.space && jumped.velocityX == 0.0 && jumped.velocityY == 0.0
    then jumped.(energy := AddEnergy(jumped.energy, IDLE_ENERGY))
    else jumped
  }

  /** `shouldCollideWith`: the avatar collides with ground, trunks and fruit. */
  predicate ShouldCollideWith(tag: string)
  {
    tag == GROUND_TAG || tag == TREE_TRUNK_TAG || tag == FRUIT_TAG
  }

  /** The avatar as a mutable game object. */
  class Avatar {
    var curEnergy: real
    var velocityX: real
    /** Written by the physics engine between frames (gravity, landing) and by a jump. */
    var velocityY: real

    constructor()
      ensures curEnergy == MAX_ENERGY && velocityX == 0.0 && velocityY == 0.0
    {
      curEnergy := MAX_ENERGY;
      velocityX := 0.0;
      velocityY := 0.0;
    }

    function State(): Motion
      reads this
    {
      Motion(curEnergy, velocityX, velocityY)
    }

    method HandleWalking(direction: Direction)
      modifies this
      ensures State() == Walk(old(State()), direction)
    {
      if curEnergy < WALKING_ENERGY {
        return;
      }
      match direction {
        case Right => velocityX := VELOCITY_X;
        case Left => velocityX := -VELOCITY_X;
      }
      if velocityY == 0.0 {
        curEnergy := curEnergy - WALKING_ENERGY;
      }
    }

    method HandleJumping()
      modifies this
      ensures State() == Jump(old(State()))
    {
      if curEnergy >= JUMPING_ENERGY && velocityY == 0.0 {
        velocityY := VELOCITY_Y;
        curEnergy := curEnergy - JUMPING_ENERGY;
      }
    }

    method UpdateEnergy(toAdd: real)
      modifies this
      ensures State() == old(State()).(energy := AddEnergy(old(curEnergy), toAdd))
    {
      if curEnergy < MAX_ENERGY {
        curEnergy := curEnergy + toAdd;
      }
    }

    method Update(isLeftPressed: bool, isRightPressed: bool, isSpacePressed: bool)
      modifies this
      ensures State() == Frame(old(State()), Keys(isLeftPressed, isRightPressed, isSpacePressed))
    {
      velocityX := 0.0;
      if isLeftPressed && !isRightPressed {
        HandleWalking(Left);
      } else if isRightPressed && !isLeftPressed {
        HandleWalking(Right);
      }
      if isSpacePressed && velocityY == 0.0 && curEnergy >= JUMPING_ENERGY {
        HandleJumping();
      }
      if !isRightPressed && !isLeftPressed && !isSpacePressed && velocityX == 0.0 && velocityY == 0.0 {
        UpdateEnergy(IDLE_ENERGY);
      }
    }
  }

  /** Exactly one arrow key is held. */
  predicate OneArrow(k: Keys)
  {
    k.left != k.right
  }

  /** The frame charges the walking cost: one arrow, enough energy, standing still vertically. */
  predicate PaysWalk(s: Motion, k: Keys)
  {
    OneArrow(k) && s.energy >= WALKING_ENERGY && s.velocityY == 0.0
  }

  /** Energy left after the walking part of a frame. */
  function AfterWalk(s: Motion, k: Keys): real
  {
    if PaysWalk(s, k) then s.energy - WALKING_ENERGY else s.energy
  }

  /** The frame jumps: space held, standing, and enough energy left after walking. */
  predicate Jumps(s: Motion, k: Keys)
  {
    k.space && s.velocityY == 0.0 && AfterWalk(s, k) >= JUMPING_ENERGY
  }

  /** The frame regains idle energy: no key, standing, below MAX_ENERGY. */
  predicate Regains(s: Motion, k: Keys)
  {
    !k.left && !k.right && !k.space && s.velocityY == 0.0 && s.energy < MAX_ENERGY
  }

  /**
    The energy ledger of one frame, stated from the frame's inputs alone: pay 0.5 for
    walking, 10 for a jump, regain 1 when idle; nothing else touches energy.
   */
  lemma FrameLedger(s: Motion, k: Keys)
    ensures Frame(s, k).energy ==
      s.energy
      - (if PaysWalk(s, k) then WALKING_ENERGY else 0.0)
      - (if Jumps(s, k) then JUMPING_ENERGY else 0.0)
      + (if Regains(s, k) then IDLE_ENERGY else 0.0)
  {
  }

  /**
    The velocities after one frame: horizontal speed 400 toward the single held arrow
    when there is energy to walk, else 0; a jump sets the vertical speed to -650,
    otherwise it is left to the physics engine.
   */
  lemma FrameVelocity(s: Motion, k: Keys)
    ensures Frame(s, k).velocityX ==
      if OneArrow(k) && s.energy >= WALKING_ENERGY then (if k.right then VELOCITY_X else -VELOCITY_X) else 0.0
    ensures Frame(s, k).velocityY == if Jumps(s, k) then VELOCITY_Y else s.velocityY
  {
  }

  /** Holding both arrows walks nowhere and costs no walking energy. */
  lemma BothArrowsNoWalk(s: Motion, space: bool)
    ensures Frame(s, Keys(true, true, space)).velocityX == 0.0
    ensures Frame(s, Keys(true, true, space)).energy ==
      s.energy - (if space && s.velocityY == 0.0 && s.energy >= JUMPING_ENERGY then JUMPING_ENERGY else 0.0)
  {
    FrameLedger(s, Keys(true, true, space));
  }

  /** The cap applies only before adding: a fruit at 95 leaves the avatar at 105. */
  lemma EnergyOvershoots()
    ensures AddEnergy(95.0, 10.0) == 105.0
    ensures AddEnergy(100.0, 10.0) == 100.0
  {
  }

  /** The energy range the rules keep: never negative, never at ENERGY_CEILING. */
  predicate EnergyInRange(e: real)
  {
    0.0 <= e < ENERGY_CEILING
  }

  /** A frame keeps energy in range: every cost is guarded by having the energy to pay it. */
  lemma FrameKeepsRange(s: Motion, k: Keys)
    requires EnergyInRange(s.energy)
    ensures EnergyInRange(Frame(s, k).energy)
  {
    FrameLedger(s, k);
  }

  /** A fruit (or any addition up to 10) keeps energy in range. */
  lemma FruitKeepsRange(e: real, toAdd: real)
    requires EnergyInRange(e) && 0.0 <= toAdd <= 10.0
    ensures EnergyInRange(AddEnergy(e, toAdd))
  {
  }

  /** What can happen to the avatar's energy: a frame with given keys and vertical speed, or a fruit. */
  datatype AvatarEvent = Tick(keys: Keys, velocityY: real) | Eat

  /** The avatar's motion after a run of events. */
  function Run(s: Motion, events: seq<AvatarEvent>): Motion
    decreases events
  {
    if events == [] then s
    else
      var next := match events[0]
        case Tick(k, vy) => Frame(s.(velocityY := vy), k)
        case Eat => s.(energy := AddEnergy(s.energy, 10.0));
      Run(next, events[1..])
  }

  /** From the initial 100, energy stays in [0, 110) through any run of frames and fruit. */
  lemma {:induction false} RunKeepsRange(s: Motion, events: seq<AvatarEvent>)
    requires EnergyInRange(s.energy)
    ensures EnergyInRange(Run(s, events).energy)
    decreases events
  {
    if events != [] {
      match events[0]
      case Tick(k, vy) =>
        FrameKeepsRange(s.(velocityY := vy), k);
        RunKeepsRange(Frame(s.(velocityY := vy), k), events[1..]);
      case Eat =>
        FruitKeepsRange(s.energy, 10.0);
        RunKeepsRange(s.(energy := AddEnergy(s.energy, 10.0)), events[1..]);
    }
  }

  /** The avatar collides with exactly the world objects other than leaves. */
  lemma CollidesWithWorldButLeaves(tag: string)
    ensures ShouldCollideWith(tag) <==> IsWorldTag(tag) && tag != LEAF_TAG
    ensures !ShouldCollideWith(AVATAR_TAG)
  {
  }
}

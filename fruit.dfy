/**
  A fruit on a tree top: a one-shot energy source that the avatar eats on contact
  and that becomes edible again when it is reset.
 */
module Fruit {
  import opened Constants
  import opened Scene

  /** `ENERGY_TO_ADD_WHEN_EATEN`. */
  const ENERGY_TO_ADD_WHEN_EATEN: real := 10.0

  datatype Option<T> = None | Some(value: T)

  /** What can happen to a fruit: a collision with an object of some tag, or the scheduled reset. */
  datatype FruitEvent = Touch(otherTag: string) | Reset

  /** The eaten flag after an event and the energy handed to the callback, if any. */
  datatype Outcome = Outcome(ateMe: bool, granted: Option<real>)

  /** One event, as `onCollisionEnter` and `resetFruit` treat it. */
  function Step(ateMe: bool, e: FruitEvent): Outcome
  {
    match e
    case Touch(tag) =>
      if tag == AVATAR_TAG && !ateMe then Outcome(true, Some(ENERGY_TO_ADD_WHEN_EATEN))
      else Outcome(ateMe, None)
    case Reset => Outcome(false, None)
  }

  /** The energy granted in `g`, zero when nothing was granted. */
  function Amount(g: Option<real>): real
  {
    match g
    case None => 0.0
    case Some(v) => v
  }

  /** The eaten flag after a run of events. */
  function FinalState(ateMe: bool, events: seq<FruitEvent>): bool
    decreases events
  {
    if events == [] then ateMe else FinalState(Step(ateMe, events[0]).ateMe, events[1..])
  }

  /** The total energy a fruit grants over a run of events. */
  function Granted(ateMe: bool, events: seq<FruitEvent>): real
    decreases events
  {
    if events == [] then 0.0
    else
      var o := Step(ateMe, events[0]);
      Amount(o.granted) + Granted(o.ateMe, events[1..])
  }

  /** The number of resets in a run of events. */
  function Resets(events: seq<FruitEvent>): nat
  {
    if events == [] then 0 else (if events[0] == Reset then 1 else 0) + Resets(events[1..])
  }

  /**
    The fruit game object. Its position and size never change; `ateMe` is set when the
    avatar eats it and cleared when it is reset.
   */
  class Fruit {
    const topLeft: Vec2
    var ateMe: bool

    constructor(topLeftCorner: Vec2)
      ensures topLeft == topLeftCorner
      ensures !ateMe
      ensures Object().tag == FRUIT_TAG && Object().dimensions == Vec2(30.0, 30.0)
    {
      topLeft := topLeftCorner;
      ateMe := false;
    }

    /** The fruit as a scene object: tagged "fruit", one block in size. */
    function Object(): GameObject
    {
      GameObject(FRUIT_TAG, topLeft, Vec2(BLOCK_SIZE as real, BLOCK_SIZE as real))
    }

    /** `resetFruit`: the fruit is edible again. */
    method ResetFruit()
      modifies this
      ensures !ateMe
    {
      ateMe := false;
    }

    /**
      `onCollisionEnter`: the avatar eats an uneaten fruit, which hands
      ENERGY_TO_ADD_WHEN_EATEN to the energy callback; every other contact does nothing.
     */
    method OnCollisionEnter(otherTag: string) returns (callbackArg: Option<real>)
      modifies this
      ensures Outcome(ateMe, callbackArg) == Step(old(ateMe), Touch(otherTag))
    {
      callbackArg := None;
      if otherTag == AVATAR_TAG && !ateMe {
        ateMe := true;
        callbackArg := Some(ENERGY_TO_ADD_WHEN_EATEN);
      }
    }
  }

  /**
    A contact grants energy exactly when the other object is the avatar and the fruit is
    uneaten, and then grants exactly 10 and leaves it eaten; any other contact grants
    nothing and changes nothing.
   */
  lemma TouchOutcome(ateMe: bool, tag: string)
    ensures Step(ateMe, Touch(tag)).granted.Some? <==> tag == AVATAR_TAG && !ateMe
    ensures Step(ateMe, Touch(tag)).granted.Some? ==>
      Step(ateMe, Touch(tag)) == Outcome(true, Some(10.0))
    ensures Step(ateMe, Touch(tag)).granted.None? ==> Step(ateMe, Touch(tag)).ateMe == ateMe
  {
  }

  /** Once eaten, a fruit grants nothing more and stays eaten until it is reset. */
  lemma {:induction false} EatenUntilReset(events: seq<FruitEvent>)
    requires Resets(events) == 0
    ensures Granted(true, events) == 0.0
    ensures FinalState(true, events)
  {
    if events != [] {
      assert events[0] != Reset;
      EatenUntilReset(events[1..]);
    }
  }

  /**
    One-shot consumption: over any run, a fruit grants at most 10 per reset, plus 10
    if it starts uneaten.
   */
  lemma {:induction false} GrantedBound(ateMe: bool, events: seq<FruitEvent>)
    ensures 0.0 <= Granted(ateMe, events)
    ensures Granted(ateMe, events) <= 10.0 * ((Resets(events) + if ateMe then 0 else 1) as real)
    decreases events
  {
    if events != [] {
      var o := Step(ateMe, events[0]);
      GrantedBound(o.ateMe, events[1..]);
    }
  }
}

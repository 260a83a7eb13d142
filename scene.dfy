/** The engine's scene objects, reduced to what the world logic reads: tag and geometry. */
module Scene {

  /** A 2-D vector of the engine (`danogl.util.Vector2`). */
  datatype Vec2 = Vec2(x: real, y: real)
  {
    function Add(d: Vec2): Vec2 { Vec2(x + d.x, y + d.y) }
  }

  /** A game object: its tag, its top-left corner and its dimensions. */
  datatype GameObject = GameObject(tag: string, topLeft: Vec2, dimensions: Vec2)
  {
    /** `getCenter().x()`. */
    function CenterX(): real { topLeft.x + dimensions.x / 2.0 }

    /** The same object with its top-left corner moved by `d`. */
    function Moved(d: Vec2): GameObject { GameObject(tag, topLeft.Add(d), dimensions) }
  }
}

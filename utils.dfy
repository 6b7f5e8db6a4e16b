// Constants and plane geometry shared by every part of the game (utils.py).

module Utils {

  /** Play-field size in pixels. */
  const Width: int := 800
  const Height: int := 600

  /** Asteroid cap used by the server tick and by the local PvE tick. */
  const MaxAsteroids: int := 10

  /** Match length in seconds. */
  const GameTime: int := 60

  /** Time is modelled in integer milliseconds. */
  const MsPerSecond: int := 1000

  datatype Vec = Vec(x: int, y: int)

  function Add(a: Vec, b: Vec): Vec
  {
    Vec(a.x + b.x, a.y + b.y)
  }

  datatype Color = Color(r: int, g: int, b: int)

  const Grey: Color := Color(101, 101, 101)

  /** `math.hypot(a - b) < r`, stated on squares; exact for a positive radius. */
  predicate Within(a: Vec, b: Vec, r: int)
  {
    var dx, dy := a.x - b.x, a.y - b.y;
    0 < r && dx * dx + dy * dy < r * r
  }

  /** The half-open field [0, Width) x [0, Height) that wrapping lands in. */
  predicate InField(p: Vec)
  {
    0 <= p.x < Width && 0 <= p.y < Height
  }

  /** The closed field [0, Width] x [0, Height] that lasers must stay in. */
  predicate InClosedField(p: Vec)
  {
    0 <= p.x <= Width && 0 <= p.y <= Height
  }

  /**
   * Python's `%` with a positive modulus floors, so its result lies in
   * [0, m) even for a negative left operand; Dafny's Euclidean `%` agrees.
   */
  function Wrap(p: Vec): (r: Vec)
    ensures InField(r)
    ensures (r.x - p.x) % Width == 0 && (r.y - p.y) % Height == 0
  {
    Vec(p.x % Width, p.y % Height)
  }

  /** Python `int(x / 1000)`: division truncating toward zero. */
  function TruncSeconds(ms: int): (r: int)
    ensures ms >= 0 ==> 0 <= r * MsPerSecond <= ms < (r + 1) * MsPerSecond
    ensures ms < 0 ==> (r - 1) * MsPerSecond < ms <= r * MsPerSecond <= 0
  {
    if ms >= 0 then ms / MsPerSecond else -((-ms) / MsPerSecond)
  }
}

// AsteroidManager of asteroid.py: a list of asteroid records that wraps
// toroidally every tick and grows by one randomly rolled asteroid at a time.

module Asteroids {
  import opened Utils

  datatype Asteroid = Asteroid(pos: Vec, vel: Vec, radius: int, hp: int, color: Color)

  /** Every asteroid still has hit points; spawning and all removals keep this. */
  predicate HpPositive(s: seq<Asteroid>)
  {
    forall i :: 0 <= i < |s| ==> s[i].hp >= 1
  }

  /** One step: position advanced by velocity, each axis wrapped with Python's `%`. */
  function Moved(a: Asteroid): (r: Asteroid)
    ensures InField(r.pos) && r.(pos := a.pos) == a
    ensures (r.pos.x - (a.pos.x + a.vel.x)) % Width == 0 && (r.pos.y - (a.pos.y + a.vel.y)) % Height == 0
  {
    a.(pos := Wrap(Add(a.pos, a.vel)))
  }

  /** `update` on the whole list. */
  function MoveAll(s: seq<Asteroid>): (r: seq<Asteroid>)
    ensures |r| == |s|
    ensures forall i :: 0 <= i < |r| ==> InField(r[i].pos)
    ensures forall i :: 0 <= i < |r| ==>
      r[i].vel == s[i].vel && r[i].radius == s[i].radius && r[i].hp == s[i].hp && r[i].color == s[i].color
    ensures forall i :: 0 <= i < |r| ==>
      (r[i].pos.x - (s[i].pos.x + s[i].vel.x)) % Width == 0 &&
      (r[i].pos.y - (s[i].pos.y + s[i].vel.y)) % Height == 0
  {
    seq(|s|, i requires 0 <= i < |s| => Moved(s[i]))
  }

  /** The outcomes of the `random` calls made by one `spawn_asteroid`. */
  datatype Roll = Roll(size: int, x: int, y: int, negX: bool, negY: bool)

  /** `randint(20, 45)` for the size and `randint(0, WIDTH)`, `randint(0, HEIGHT)` for the position. */
  predicate RollInRange(roll: Roll)
  {
    20 <= roll.size <= 45 && 0 <= roll.x <= Width && 0 <= roll.y <= Height
  }

  /** `max(1, 3 - size // 7)`; Python's `//` floors, as Dafny's `/` does for a positive divisor. */
  function SpeedFor(size: int): (r: int)
    ensures r >= 1 && r >= 3 - size / 7 && (r == 1 || r == 3 - size / 7)
    ensures r == 1 <==> size >= 14
  {
    if 3 - size / 7 > 1 then 3 - size / 7 else 1
  }

  /** Every size the roll can produce moves at speed 1. */
  lemma SpeedIsOne(size: int)
    requires 20 <= size <= 45
    ensures SpeedFor(size) == 1
  {
  }

  /** The asteroid that `spawn_asteroid` builds from a roll. */
  function Spawned(roll: Roll): (a: Asteroid)
    requires RollInRange(roll)
    ensures 20 <= a.radius <= 45 && a.hp == 1 && a.color == Grey
    ensures InClosedField(a.pos) && a.pos == Vec(roll.x, roll.y)
    ensures a.vel.x == (if roll.negX then -1 else 1) && a.vel.y == (if roll.negY then -1 else 1)
  {
    var speed := SpeedFor(roll.size);
    SpeedIsOne(roll.size);
    Asteroid(Vec(roll.x, roll.y),
             Vec(if roll.negX then -speed else speed, if roll.negY then -speed else speed),
             roll.size, 1, Grey)
  }

  class AsteroidManager {
    /** Stored but never consulted; callers compare the count against the cap themselves. */
    const maxAsteroids: int
    var asteroids: seq<Asteroid>

    constructor (maxAsteroids: int)
      ensures this.maxAsteroids == maxAsteroids && asteroids == []
    {
      this.maxAsteroids := maxAsteroids;
      asteroids := [];
    }

    /** Appends one asteroid, whatever the current count. */
    method SpawnAsteroid(roll: Roll)
      requires RollInRange(roll)
      modifies this
      ensures asteroids == old(asteroids) + [Spawned(roll)]
      ensures HpPositive(old(asteroids)) ==> HpPositive(asteroids)
    {
      var speed := SpeedFor(roll.size);
      var ast := Asteroid(Vec(roll.x, roll.y),
                          Vec(if roll.negX then -speed else speed, if roll.negY then -speed else speed),
                          roll.size, 1, Grey);
      asteroids := asteroids + [ast];
    }

    /** Rewrites every asteroid's position in place. */
    method Update()
      modifies this
      ensures asteroids == MoveAll(old(asteroids))
    {
      var i := 0;
      while i < |asteroids|
        invariant 0 <= i <= |asteroids| == |old(asteroids)|
        invariant forall k :: 0 <= k < i ==> asteroids[k] == Moved(old(asteroids)[k])
        invariant forall k :: i <= k < |asteroids| ==> asteroids[k] == old(asteroids)[k]
      {
        var ast := asteroids[i];
        var x := (ast.pos.x + ast.vel.x) % Width;
        var y := (ast.pos.y + ast.vel.y) % Height;
        asteroids := asteroids[i := ast.(pos := Vec(x, y))];
        i := i + 1;
      }
    }
  }
}

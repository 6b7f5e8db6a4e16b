// The GameLogic object of gamelogic.py: it owns no state of its own besides
// the start time and the scores, and updates the ships, the asteroid list and
// the laser list it was given in place. Every method is proved against the
// pure tick in GameRules.

module Logic {
  import opened Utils
  import opened Seqs
  import Wrappers
  import SR = ShipRules
  import Ships
  import A = Asteroids
  import L = Lasers
  import Rules = GameRules

  /** No ship object occurs twice, so updating one leaves the others alone. */
  predicate Distinct(ships: seq<Ships.Ship>)
  {
    forall i, j :: 0 <= i < j < |ships| ==> ships[i] != ships[j]
  }

  /** The ships' fields as values, in list order. */
  function States(ships: seq<Ships.Ship>): (r: seq<SR.ShipState>)
    reads ships
    ensures |r| == |ships| && forall i :: 0 <= i < |ships| ==> r[i] == ships[i].Value()
  {
    seq(|ships|, i requires 0 <= i < |ships| reads ships => ships[i].Value())
  }

  class GameLogic {
    const ships: seq<Ships.Ship>
    const asteroidManager: A.AsteroidManager
    const laserManager: L.LaserManager
    var startTime: int
    /** Match length in seconds. */
    const maxTime: int
    var points: seq<int>

    /** Everything the tick reads and writes, as a value. */
    function World(): Rules.World
      reads this, ships, asteroidManager, laserManager
    {
      Rules.World(States(ships), asteroidManager.asteroids, laserManager.lasers, points, startTime)
    }

    /** What the in-place tick relies on: distinct ships, one score each, lasers owned by a player. */
    predicate Valid()
      reads this, laserManager
    {
      Distinct(ships) && |points| == |ships| && Rules.OwnersValid(laserManager.lasers, |points|)
    }

    /** `__init__`: the clock starts at construction and every ship has score zero. */
    constructor (ships: seq<Ships.Ship>, asteroidManager: A.AsteroidManager,
                 laserManager: L.LaserManager, now: int, maxTime: int)
      ensures this.ships == ships && this.asteroidManager == asteroidManager
      ensures this.laserManager == laserManager && this.maxTime == maxTime
      ensures startTime == now && points == Repeat(0, |ships|)
    {
      this.ships := ships;
      this.asteroidManager := asteroidManager;
      this.laserManager := laserManager;
      startTime := now;
      this.maxTime := maxTime;
      points := Repeat(0, |ships|);
    }

    /** `update`: one tick in place; the result is whether the match time is up. */
    method Update(now: int) returns (over: bool)
      requires Valid()
      modifies this, ships, asteroidManager, laserManager
      ensures Valid()
      ensures World() == Rules.Update(old(World()), now)
      ensures over == Rules.TimeUp(old(World()), now, maxTime)
    {
      ghost var w := World();
      asteroidManager.Update();
      laserManager.Update();
      Rules.MoveStep(w);
      assert World() == w.(asteroids := A.MoveAll(w.asteroids), lasers := L.Advanced(w.lasers));
      ShipPhase(now);
      LaserPhase(now);
      over := now - startTime >= maxTime * MsPerSecond;
    }

    /** The ship loop: each ship's timers, then its sweep over the live asteroid list. */
    method ShipPhase(now: int)
      requires Valid()
      modifies ships, asteroidManager
      ensures Valid()
      ensures World() == Rules.ShipPhase(old(World()), 0, now)
    {
      ghost var w := World();
      var i := 0;
      while i < |ships|
        invariant 0 <= i <= |ships|
        invariant Valid() && points == old(points) && startTime == old(startTime)
        invariant Rules.ShipPhase(World(), i, now) == Rules.ShipPhase(w, 0, now)
      {
        ShipTurn(i, now);
        i := i + 1;
      }
    }

    /** One iteration of the ship loop, for ship `i`. */
    method ShipTurn(i: nat, now: int)
      requires Valid() && i < |ships|
      modifies ships[i], asteroidManager
      ensures World() == Rules.ShipTurn(old(World()), i, now)
    {
      ghost var w := World();
      var ship := ships[i];
      if ship.isReloading {
        if now - ship.reloadStartTime >= SR.ReloadTime {
          ship.isReloading := false;
          ship.shots := SR.StartShots;
        }
      }
      if ship.isRespawning {
        if now - ship.respawnStartTime > SR.RespawnTime {
          ship.Reset(now);
        }
      } else {
        Sweep(ship, now);
      }
      forall k | 0 <= k < |ships| && k != i
        ensures States(ships)[k] == w.ships[k]
      {
        assert ships[k] != ship;
      }
    }

    /**
     * The ship-versus-asteroid loop over the live list: the index advances
     * after every asteroid, including one that was just removed.
     */
    method Sweep(ship: Ships.Ship, now: int)
      modifies ship, asteroidManager
      ensures (ship.Value(), asteroidManager.asteroids)
        == Rules.Sweep(old(ship.Value()), old(asteroidManager.asteroids), 0, now)
    {
      var j := 0;
      while j < |asteroidManager.asteroids|
        invariant 0 <= j
        invariant Rules.Sweep(ship.Value(), asteroidManager.asteroids, j, now)
          == Rules.Sweep(old(ship.Value()), old(asteroidManager.asteroids), 0, now)
        decreases |asteroidManager.asteroids| - j
      {
        var ast := asteroidManager.asteroids[j];
        if Within(Vec(ship.CenterX(), ship.CenterY()), ast.pos, SR.Radius + ast.radius) {
          ship.TakeDamage(now);
          ast := ast.(hp := ast.hp - 1);
          asteroidManager.asteroids := asteroidManager.asteroids[j := ast];
          if ast.hp <= 0 {
            asteroidManager.asteroids := RemoveFirst(asteroidManager.asteroids, ast);
          }
        }
        j := j + 1;
      }
    }

    /** The laser loop over a copy of the laser list. */
    method LaserPhase(now: int)
      requires Valid()
      modifies this, ships, asteroidManager, laserManager
      ensures Valid()
      ensures World() == Rules.LaserPhase(old(World()), old(laserManager.lasers), 0, now)
    {
      var copy := laserManager.lasers;
      ghost var w := World();
      var k := 0;
      assert copy[0..] == copy;
      while k < |copy|
        invariant 0 <= k <= |copy|
        invariant Valid() && |points| == |old(points)|
        invariant multiset(copy[k..]) <= multiset(laserManager.lasers)
        invariant Rules.OwnersValid(copy, |points|)
        invariant Rules.LaserPhase(World(), copy, k, now) == Rules.LaserPhase(w, copy, 0, now)
      {
        Rules.LaserPhaseStep(World(), copy, k, now);
        ResolveLaser(copy[k], now);
        k := k + 1;
      }
    }

    /** One laser: the ship loop, and the asteroid loop in its `else` branch. */
    method ResolveLaser(l: L.Laser, now: int)
      requires Distinct(ships) && |points| == |ships|
      requires l in laserManager.lasers && 0 <= l.owner < |points|
      modifies this, ships, asteroidManager, laserManager
      ensures Distinct(ships) && |points| == |ships|
      ensures World() == Rules.ResolveLaser(old(World()), l, now)
    {
      var hit := HitShips(l, now);
      if !hit {
        HitAsteroids(l, now);
      }
    }

    /** The ship loop of one laser; `hit` is whether it stopped at a ship (the `break`). */
    method HitShips(l: L.Laser, now: int) returns (hit: bool)
      requires Distinct(ships) && |points| == |ships|
      requires l in laserManager.lasers && 0 <= l.owner < |points|
      modifies this, ships, laserManager
      ensures |points| == |ships|
      ensures hit == Rules.FirstShipHit(old(World()).ships, l.pos, 0).Some?
      ensures World() == if hit then Rules.ResolveLaser(old(World()), l, now) else old(World())
    {
      ghost var w := World();
      var i := 0;
      while i < |ships|
        invariant 0 <= i <= |ships|
        invariant World() == w
        invariant Rules.FirstShipHit(w.ships, l.pos, i) == Rules.FirstShipHit(w.ships, l.pos, 0)
      {
        var ship := ships[i];
        if !ship.isRespawning && Within(l.pos, Vec(ship.CenterX(), ship.CenterY()), SR.Radius) {
          HitShip(i, l, now);
          return true;
        }
        i := i + 1;
      }
      return false;
    }

    /** The body of the ship loop once ship `i` is hit: damage, a point for another owner, the laser removed. */
    method HitShip(i: nat, l: L.Laser, now: int)
      requires Distinct(ships) && |points| == |ships| && i < |ships|
      requires l in laserManager.lasers && 0 <= l.owner < |points|
      requires Rules.FirstShipHit(States(ships), l.pos, 0) == Wrappers.Some(i)
      modifies this, ships[i], laserManager
      ensures |points| == |ships|
      ensures World() == Rules.ResolveLaser(old(World()), l, now)
    {
      ghost var w := World();
      var ship := ships[i];
      ship.TakeDamage(now);
      var owner := l.owner;
      if owner != ship.number {
        points := points[owner := points[owner] + 1];
      }
      laserManager.lasers := RemoveFirst(laserManager.lasers, l);
      forall k | 0 <= k < |ships|
        ensures States(ships)[k] == w.ships[i := SR.TakeDamage(w.ships[i], now)][k]
      {
        if k != i {
          assert ships[k] != ship;
        }
      }
      assert States(ships) == w.ships[i := SR.TakeDamage(w.ships[i], now)];
    }

    /** The `else` branch of the ship loop: the first asteroid the laser touches goes, and the laser with it. */
    method HitAsteroids(l: L.Laser, now: int)
      requires l in laserManager.lasers && 0 <= l.owner < |points|
      requires Rules.FirstShipHit(States(ships), l.pos, 0).None?
      modifies asteroidManager, laserManager
      ensures World() == Rules.ResolveLaser(old(World()), l, now)
    {
      ghost var w := World();
      var asts := asteroidManager.asteroids;
      var k := 0;
      while k < |asts|
        invariant 0 <= k <= |asts|
        invariant World() == w
        invariant Rules.FirstAsteroidHit(asts, l.pos, k) == Rules.FirstAsteroidHit(asts, l.pos, 0)
      {
        var ast := asts[k];
        if Within(l.pos, ast.pos, ast.radius) {
          asteroidManager.asteroids := RemoveFirst(asteroidManager.asteroids, ast);
          if l in laserManager.lasers {
            laserManager.lasers := RemoveFirst(laserManager.lasers, l);
          }
          return;
        }
        k := k + 1;
      }
    }

    /** `reset_game`: new start time, zero scores, both lists emptied; the ships are left to the caller. */
    method ResetGame(now: int)
      modifies this, asteroidManager, laserManager
      ensures World() == Rules.ResetGame(old(World()), now)
      ensures Distinct(ships) ==> Valid()
    {
      startTime := now;
      points := Repeat(0, |ships|);
      asteroidManager.asteroids := [];
      laserManager.lasers := [];
    }

    /** The server's `logic.start_time = time.time()` once both players are in: only the clock moves. */
    method StartClock(now: int)
      requires Valid()
      modifies this
      ensures Valid() && startTime == now
      ensures World() == old(World()).(startTime := now)
    {
      startTime := now;
    }

    /** `get_time_left`. */
    method GetTimeLeft(now: int) returns (left: int)
      ensures left == Rules.TimeLeft(World(), now, maxTime)
    {
      var elapsed := now - startTime;
      var seconds := if elapsed >= 0 then elapsed / MsPerSecond else -((-elapsed) / MsPerSecond);
      left := maxTime - seconds;
      if left < 0 {
        left := 0;
      }
    }
  }
}

// The single-player mode of pve.py: LocalPvELogic's tick over the player's
// ship and the bot's ship, and the bot's nearest-asteroid search. Unlike
// GameLogic it keeps no score, iterates copies of both lists, lets a laser
// that hit a ship go on to an asteroid, and wears asteroids down one hit
// point at a time.

module PvE {
  import opened Utils
  import opened Seqs
  import opened Wrappers
  import SR = ShipRules
  import Ships
  import A = Asteroids
  import L = Lasers
  import Rules = GameRules

  /** Everything the PvE tick reads and writes: the two ships (player first), the asteroids, the lasers. */
  datatype Arena = Arena(ships: seq<SR.ShipState>, asteroids: seq<A.Asteroid>, lasers: seq<L.Laser>)

  // ------------------------------------------------------------ ship sweep

  /**
   * The ship-versus-asteroid loop over a copy of the list: every asteroid is
   * examined once; one that touches the ship loses a hit point and is gone
   * at zero, every other one stays as it was, in order. The ship takes the
   * damage of the first touch only (the later ones fall in its
   * invincibility window).
   */
  function Wear(s: SR.ShipState, asts: seq<A.Asteroid>, now: int): (r: (SR.ShipState, seq<A.Asteroid>))
    decreases |asts|
    ensures r.0.rect == s.rect
    ensures r.0 == s || r.0 == SR.TakeDamage(s, now)
    ensures (exists m :: 0 <= m < |asts| && Rules.Overlaps(s, asts[m])) ==> r.0 == SR.TakeDamage(s, now)
    ensures (forall m :: 0 <= m < |asts| ==> !Rules.Overlaps(s, asts[m])) ==> r == (s, asts)
    ensures |r.1| <= |asts|
    ensures A.HpPositive(asts) ==> A.HpPositive(r.1)
  {
    if asts == [] then (s, [])
    else
      var init := asts[..|asts| - 1];
      var a := asts[|asts| - 1];
      assert asts == init + [a];
      var prev := Wear(s, init, now);
      SR.DamageIdempotentAtSameTime(s, now);
      assert forall m :: 0 <= m < |init| ==> init[m] == asts[m];
      if Rules.Overlaps(prev.0, a) then
        var worn := a.(hp := a.hp - 1);
        (SR.TakeDamage(prev.0, now), prev.1 + (if worn.hp > 0 then [worn] else []))
      else
        (prev.0, prev.1 + [a])
  }

  /**
   * No asteroid escapes the sweep: each one that does not touch the ship
   * survives unchanged, and each one that does survives with one hit point
   * less unless that was its last.
   */
  lemma {:induction false} WearVisitsEvery(s: SR.ShipState, asts: seq<A.Asteroid>, now: int)
    ensures forall a :: a in asts && !Rules.Overlaps(s, a) ==> a in Wear(s, asts, now).1
    ensures forall a :: a in asts && Rules.Overlaps(s, a) && a.hp > 1 ==> a.(hp := a.hp - 1) in Wear(s, asts, now).1
    decreases |asts|
  {
    if asts != [] {
      var init := asts[..|asts| - 1];
      assert asts == init + [asts[|asts| - 1]];
      WearVisitsEvery(s, init, now);
    }
  }

  /**
   * The source of the difference with GameLogic: two worn-out asteroids on
   * top of a ship are both removed here, where the live-list walk of
   * GameLogic skips the second.
   */
  lemma CopyWalkRemovesBoth()
    ensures var s := SR.Initial(0, 0);
      var a := A.Asteroid(SR.StartCenter(0), Vec(1, 1), 20, 1, Grey);
      var b := A.Asteroid(SR.StartCenter(0), Vec(-1, 1), 20, 1, Grey);
      Wear(s, [a, b], 1000) == (SR.TakeDamage(s, 1000), [])
      && Rules.Sweep(s, [a, b], 0, 1000).1 == [b]
  {
    var s := SR.Initial(0, 0);
    var a := A.Asteroid(SR.StartCenter(0), Vec(1, 1), 20, 1, Grey);
    var b := A.Asteroid(SR.StartCenter(0), Vec(-1, 1), 20, 1, Grey);
    assert [a, b][..1] == [a];
    assert [a][..0] == [];
    Rules.SkippedAsteroidKeepsHp();
  }

  /**
   * A worn-out asteroid rewritten in place behind survivors that all have hit
   * points is the first entry equal to it, so removing it by value takes out
   * exactly that entry.
   */
  lemma RemoveWornOut(done: seq<A.Asteroid>, a: A.Asteroid, rest: seq<A.Asteroid>, live: seq<A.Asteroid>)
    requires A.HpPositive(done) && a.hp <= 1
    requires live == done + [a] + rest
    ensures var worn := a.(hp := a.hp - 1);
      worn in live[|done| := worn] && RemoveFirst(live[|done| := worn], worn) == done + rest
  {
    var worn := a.(hp := a.hp - 1);
    var s := live[|done| := worn];
    assert s == done + [worn] + rest;
    assert s[|done|] == worn;
    assert forall j :: 0 <= j < |done| ==> s[j] == done[j];
    RemoveFirstIsRemoveAt(s, worn, |done|);
    assert RemoveAt(s, |done|) == done + rest;
  }

  /**
   * The sweep over the copy, one asteroid further: the live entry of
   * `copy[k]` sits right behind the survivors so far, at `|done.1|`.
   */
  lemma WearLive(s0: SR.ShipState, copy: seq<A.Asteroid>, k: nat, live: seq<A.Asteroid>, now: int)
    requires k < |copy|
    requires live == Wear(s0, copy[..k], now).1 + copy[k..]
    ensures var kept := |Wear(s0, copy[..k], now).1|; kept < |live| && live[kept] == copy[k]
    ensures Wear(s0, copy[..k + 1], now) == (
      var done := Wear(s0, copy[..k], now);
      var a := copy[k];
      var worn := a.(hp := a.hp - 1);
      if Rules.Overlaps(done.0, a)
      then (SR.TakeDamage(done.0, now), done.1 + (if worn.hp > 0 then [worn] else []))
      else (done.0, done.1 + [a]))
  {
    assert copy[..k + 1][..k] == copy[..k];
  }

  /** An asteroid the ship misses stays where it is in the live list. */
  lemma WearMiss(s0: SR.ShipState, copy: seq<A.Asteroid>, k: nat, live: seq<A.Asteroid>, now: int)
    requires k < |copy|
    requires live == Wear(s0, copy[..k], now).1 + copy[k..]
    requires !Rules.Overlaps(Wear(s0, copy[..k], now).0, copy[k])
    ensures live == Wear(s0, copy[..k + 1], now).1 + copy[k + 1..]
  {
    WearLive(s0, copy, k, live, now);
    assert copy[k..] == [copy[k]] + copy[k + 1..];
  }

  /** An asteroid the ship touches that keeps hit points is rewritten in place. */
  lemma WearTouch(s0: SR.ShipState, copy: seq<A.Asteroid>, k: nat, live: seq<A.Asteroid>, now: int)
    requires k < |copy|
    requires live == Wear(s0, copy[..k], now).1 + copy[k..]
    requires Rules.Overlaps(Wear(s0, copy[..k], now).0, copy[k]) && copy[k].hp > 1
    ensures live[|Wear(s0, copy[..k], now).1| := copy[k].(hp := copy[k].hp - 1)]
      == Wear(s0, copy[..k + 1], now).1 + copy[k + 1..]
  {
    WearLive(s0, copy, k, live, now);
    assert copy[k..] == [copy[k]] + copy[k + 1..];
  }

  /** An asteroid the ship wears out is rewritten in place, then removed by value: exactly that entry goes. */
  lemma WearOut(s0: SR.ShipState, copy: seq<A.Asteroid>, k: nat, live: seq<A.Asteroid>, now: int)
    requires k < |copy| && A.HpPositive(copy)
    requires live == Wear(s0, copy[..k], now).1 + copy[k..]
    requires Rules.Overlaps(Wear(s0, copy[..k], now).0, copy[k]) && copy[k].hp <= 1
    ensures var worn := copy[k].(hp := copy[k].hp - 1);
      var rewritten := live[|Wear(s0, copy[..k], now).1| := worn];
      worn in rewritten && RemoveFirst(rewritten, worn) == Wear(s0, copy[..k + 1], now).1 + copy[k + 1..]
  {
    var prev := Wear(s0, copy[..k], now);
    WearLive(s0, copy, k, live, now);
    assert Wear(s0, copy[..k + 1], now).1 == prev.1;
    PrefixHpPositive(copy, k);
    RemoveWornOut(prev.1, copy[k], copy[k + 1..], live);
  }

  /** The survivors of a prefix of an asteroid list that has hit points all have hit points too. */
  lemma PrefixHpPositive(copy: seq<A.Asteroid>, k: nat)
    requires k < |copy| && A.HpPositive(copy)
    ensures A.HpPositive(copy[..k]) && copy[k..] == [copy[k]] + copy[k + 1..]
  {
    assert forall j :: 0 <= j < k ==> copy[..k][j] == copy[j];
  }

  // ------------------------------------------------------------ whole tick

  /** The ship loop from ship `i` on: a respawning ship is skipped, every other one sweeps the asteroids. */
  function ShipsPhase(ar: Arena, i: nat, now: int): (r: Arena)
    decreases |ar.ships| - i
    ensures |r.ships| == |ar.ships| && r.lasers == ar.lasers
    ensures |r.asteroids| <= |ar.asteroids|
    ensures A.HpPositive(ar.asteroids) ==> A.HpPositive(r.asteroids)
    ensures forall k :: 0 <= k < |ar.ships| && (k < i || ar.ships[k].isRespawning) ==> r.ships[k] == ar.ships[k]
  {
    if i >= |ar.ships| then ar
    else if ar.ships[i].isRespawning then ShipsPhase(ar, i + 1, now)
    else
      var swept := Wear(ar.ships[i], ar.asteroids, now);
      ShipsPhase(ar.(ships := ar.ships[i := swept.0], asteroids := swept.1), i + 1, now)
  }

  /** `if laser in lasers: lasers.remove(laser)`. */
  function Discard(lasers: seq<L.Laser>, l: L.Laser): (r: seq<L.Laser>)
    ensures l in lasers ==> multiset(r) == multiset(lasers) - multiset{l}
    ensures l !in lasers ==> r == lasers
  {
    if l in lasers then
      RemoveFirstMultiset(lasers, l);
      RemoveFirst(lasers, l)
    else lasers
  }

  /** The asteroid at `k` loses a hit point and, when that was its last, is removed by value. */
  function WearAt(asts: seq<A.Asteroid>, k: nat): (r: seq<A.Asteroid>)
    requires k < |asts|
    ensures A.HpPositive(asts) ==>
      r == if asts[k].hp <= 1 then RemoveAt(asts, k) else asts[k := asts[k].(hp := asts[k].hp - 1)]
    ensures A.HpPositive(asts) ==> A.HpPositive(r)
    ensures |r| <= |asts|
  {
    var worn := asts[k].(hp := asts[k].hp - 1);
    if worn.hp <= 0 then
      Rules.RemoveKeepsHpPositive(asts, k, worn);
      RemoveFirst(asts[k := worn], worn)
    else asts[k := worn]
  }

  /** The ship loop of one laser: the first live ship it touches is damaged and the laser discarded. */
  function HitShip(ar: Arena, l: L.Laser, now: int): (r: Arena)
    ensures r.asteroids == ar.asteroids && |r.ships| == |ar.ships|
    ensures Rules.FirstShipHit(ar.ships, l.pos, 0).Some? ==>
      var i := Rules.FirstShipHit(ar.ships, l.pos, 0).value;
      r.ships == ar.ships[i := SR.TakeDamage(ar.ships[i], now)] && r.lasers == Discard(ar.lasers, l)
    ensures Rules.FirstShipHit(ar.ships, l.pos, 0).None? ==> r == ar
  {
    match Rules.FirstShipHit(ar.ships, l.pos, 0)
    case Some(i) => ar.(ships := ar.ships[i := SR.TakeDamage(ar.ships[i], now)], lasers := Discard(ar.lasers, l))
    case None => ar
  }

  /** The asteroid loop of one laser: the first asteroid it touches is worn and the laser discarded. */
  function HitAsteroid(ar: Arena, l: L.Laser, now: int): (r: Arena)
    ensures r.ships == ar.ships
    ensures Rules.FirstAsteroidHit(ar.asteroids, l.pos, 0).Some? ==>
      var k := Rules.FirstAsteroidHit(ar.asteroids, l.pos, 0).value;
      r.asteroids == WearAt(ar.asteroids, k) && r.lasers == Discard(ar.lasers, l)
    ensures Rules.FirstAsteroidHit(ar.asteroids, l.pos, 0).None? ==> r == ar
    ensures |r.asteroids| <= |ar.asteroids|
    ensures A.HpPositive(ar.asteroids) ==> A.HpPositive(r.asteroids)
  {
    match Rules.FirstAsteroidHit(ar.asteroids, l.pos, 0)
    case Some(k) => ar.(asteroids := WearAt(ar.asteroids, k), lasers := Discard(ar.lasers, l))
    case None => ar
  }

  /**
   * One laser of the copied list: its ship loop, then, whether or not it
   * hit a ship, its asteroid loop.
   */
  function Strike(ar: Arena, l: L.Laser, now: int): (r: Arena)
    ensures |r.ships| == |ar.ships|
    ensures multiset(r.lasers) <= multiset(ar.lasers)
    ensures |r.asteroids| <= |ar.asteroids|
    ensures A.HpPositive(ar.asteroids) ==> A.HpPositive(r.asteroids)
  {
    HitAsteroid(HitShip(ar, l, now), l, now)
  }

  /** The first live ship the laser touches is damaged, whoever fired it: there is no score and no owner check. */
  lemma StrikeShips(ar: Arena, l: L.Laser, now: int)
    ensures var r := Strike(ar, l, now);
      match Rules.FirstShipHit(ar.ships, l.pos, 0)
      case Some(i) => r.ships == ar.ships[i := SR.TakeDamage(ar.ships[i], now)]
      case None => r.ships == ar.ships
  {
  }

  /**
   * A laser goes on to the asteroids even after it hit a ship: the first
   * asteroid it touches loses a hit point and is gone at zero.
   */
  lemma StrikeAsteroids(ar: Arena, l: L.Laser, now: int)
    requires A.HpPositive(ar.asteroids)
    ensures var r := Strike(ar, l, now);
      match Rules.FirstAsteroidHit(ar.asteroids, l.pos, 0)
      case Some(k) =>
        r.asteroids == if ar.asteroids[k].hp <= 1 then RemoveAt(ar.asteroids, k)
          else ar.asteroids[k := ar.asteroids[k].(hp := ar.asteroids[k].hp - 1)]
      case None => r.asteroids == ar.asteroids
  {
  }

  /** A laser that is in the list once leaves it exactly when it hit something, and only once. */
  lemma StrikeDiscardsOnce(ar: Arena, l: L.Laser, now: int)
    requires multiset(ar.lasers)[l] == 1
    ensures var r := Strike(ar, l, now);
      multiset(r.lasers) == multiset(ar.lasers)
        - (if Rules.FirstShipHit(ar.ships, l.pos, 0).Some? || Rules.FirstAsteroidHit(ar.asteroids, l.pos, 0).Some?
           then multiset{l} else multiset{})
  {
    var first := HitShip(ar, l, now);
    if Rules.FirstShipHit(ar.ships, l.pos, 0).Some? {
      assert multiset(first.lasers)[l] == 0;
      assert l !in first.lasers;
    }
  }

  /** The laser loop over the copy `copy`, from its `k`-th laser on. */
  function LasersPhase(ar: Arena, copy: seq<L.Laser>, k: nat, now: int): (r: Arena)
    decreases |copy| - k
    ensures |r.ships| == |ar.ships|
    ensures multiset(r.lasers) <= multiset(ar.lasers)
    ensures |r.asteroids| <= |ar.asteroids|
    ensures A.HpPositive(ar.asteroids) ==> A.HpPositive(r.asteroids)
  {
    if k >= |copy| then ar else LasersPhase(Strike(ar, copy[k], now), copy, k + 1, now)
  }

  /** The collision part of `update`, after both managers have moved their objects. */
  function Collide(ar: Arena, now: int): (r: Arena)
    ensures |r.ships| == |ar.ships|
    ensures multiset(r.lasers) <= multiset(ar.lasers)
    ensures |r.asteroids| <= |ar.asteroids|
    ensures A.HpPositive(ar.asteroids) ==> A.HpPositive(r.asteroids)
  {
    var swept := ShipsPhase(ar, 0, now);
    LasersPhase(swept, swept.lasers, 0, now)
  }

  /**
   * `update`: move, collide, then spawn one asteroid only if the collisions
   * left fewer than the cap. Asteroids keep their hit points, their number
   * grows by at most one and never past the cap through spawning, and every
   * laser left is on the field.
   */
  function Tick(ar: Arena, now: int, roll: A.Roll): (r: Arena)
    requires A.RollInRange(roll)
    ensures |r.ships| == |ar.ships|
    ensures var c := Collide(ar.(asteroids := A.MoveAll(ar.asteroids), lasers := L.Advanced(ar.lasers)), now);
      r.asteroids == c.asteroids + (if |c.asteroids| < MaxAsteroids then [A.Spawned(roll)] else [])
    ensures |r.asteroids| <= |ar.asteroids| + 1
    ensures |r.asteroids| <= if |ar.asteroids| < MaxAsteroids then MaxAsteroids else |ar.asteroids|
    ensures A.HpPositive(ar.asteroids) ==> A.HpPositive(r.asteroids)
    ensures forall m :: m in r.lasers ==> InClosedField(m.pos)
  {
    var moved := ar.(asteroids := A.MoveAll(ar.asteroids), lasers := L.Advanced(ar.lasers));
    L.AdvancedSpec(ar.lasers);
    var c := Collide(moved, now);
    Rules.FieldShrink(c.lasers, moved.lasers);
    c.(asteroids := c.asteroids + (if |c.asteroids| < MaxAsteroids then [A.Spawned(roll)] else []))
  }

  /** The time check of `update`: the flag rises once the match time is up and never falls. */
  function TimeCheck(gameOver: bool, startTime: int, now: int, maxTime: int): (r: bool)
    ensures gameOver ==> r
    ensures r <==> gameOver || now - startTime >= maxTime * MsPerSecond
  {
    if now - startTime >= maxTime * MsPerSecond then true else gameOver
  }

  // ------------------------------------------------------------ objects

  /** The bot's squared distance to an asteroid; it orders asteroids as `math.hypot` does. */
  function Dist2(c: Vec, p: Vec): int
  {
    (p.x - c.x) * (p.x - c.x) + (p.y - c.y) * (p.y - c.y)
  }

  class BotPlayer2 {
    const ship: Ships.Ship
    const asteroidManager: A.AsteroidManager
    const laserManager: L.LaserManager

    constructor (ship: Ships.Ship, asteroidManager: A.AsteroidManager, laserManager: L.LaserManager)
      ensures this.ship == ship && this.asteroidManager == asteroidManager && this.laserManager == laserManager
    {
      this.ship := ship;
      this.asteroidManager := asteroidManager;
      this.laserManager := laserManager;
    }

    /**
     * `find_nearest_asteroid`: None for an empty list, otherwise an asteroid
     * at minimal distance from the ship's centre, the earliest of them.
     */
    method FindNearestAsteroid() returns (nearest: Option<A.Asteroid>)
      ensures nearest.None? <==> asteroidManager.asteroids == []
      ensures nearest.Some? ==>
        var asts := asteroidManager.asteroids;
        var c := SR.Center(ship.rect);
        exists k :: 0 <= k < |asts| && asts[k] == nearest.value
          && (forall j :: 0 <= j < |asts| ==> Dist2(c, asts[k].pos) <= Dist2(c, asts[j].pos))
          && (forall j :: 0 <= j < k ==> Dist2(c, asts[j].pos) > Dist2(c, asts[k].pos))
    {
      var asts := asteroidManager.asteroids;
      if asts == [] {
        return None;
      }
      var c := SR.Center(ship.rect);
      var best := 0;
      var minDist := Dist2(c, asts[0].pos);
      var i := 1;
      while i < |asts|
        invariant 1 <= i <= |asts| && 0 <= best < i
        invariant minDist == Dist2(c, asts[best].pos)
        invariant forall j :: 0 <= j < i ==> minDist <= Dist2(c, asts[j].pos)
        invariant forall j :: 0 <= j < best ==> Dist2(c, asts[j].pos) > minDist
      {
        var d := Dist2(c, asts[i].pos);
        if d < minDist {
          minDist := d;
          best := i;
        }
        i := i + 1;
      }
      nearest := Some(asts[best]);
    }
  }

  class LocalPvELogic {
    const shipPlayer: Ships.Ship
    const shipBot: Ships.Ship
    const asteroidManager: A.AsteroidManager
    const laserManager: L.LaserManager
    var startTime: int
    const maxTime: int
    var gameOver: bool

    function State(): Arena
      reads this, shipPlayer, shipBot, asteroidManager, laserManager
    {
      Arena([shipPlayer.Value(), shipBot.Value()], asteroidManager.asteroids, laserManager.lasers)
    }

    /** Two distinct ships, and no asteroid without hit points. */
    predicate Valid()
      reads this, asteroidManager
    {
      shipPlayer != shipBot && A.HpPositive(asteroidManager.asteroids)
    }

    constructor (shipPlayer: Ships.Ship, shipBot: Ships.Ship, asteroidManager: A.AsteroidManager,
                 laserManager: L.LaserManager, now: int)
      requires shipPlayer != shipBot && A.HpPositive(asteroidManager.asteroids)
      ensures Valid() && startTime == now && maxTime == GameTime && !gameOver
      ensures this.shipPlayer == shipPlayer && this.shipBot == shipBot
      ensures this.asteroidManager == asteroidManager && this.laserManager == laserManager
    {
      this.shipPlayer := shipPlayer;
      this.shipBot := shipBot;
      this.asteroidManager := asteroidManager;
      this.laserManager := laserManager;
      startTime := now;
      maxTime := GameTime;
      gameOver := false;
    }

    /** `update`, with the asteroid roll it may spawn from. */
    method Update(now: int, roll: A.Roll)
      requires Valid() && A.RollInRange(roll)
      modifies this, shipPlayer, shipBot, asteroidManager, laserManager
      ensures Valid()
      ensures State() == Tick(old(State()), now, roll)
      ensures gameOver == TimeCheck(old(gameOver), startTime, now, maxTime) && startTime == old(startTime)
    {
      ghost var ar := State();
      asteroidManager.Update();
      laserManager.Update();
      ghost var moved := State();
      assert moved == ar.(asteroids := A.MoveAll(ar.asteroids), lasers := L.Advanced(ar.lasers));
      SweepShips(now);
      assert Valid();
      StrikeLasers(now);
      assert State() == Collide(moved, now);
      if |asteroidManager.asteroids| < MaxAsteroids {
        asteroidManager.SpawnAsteroid(roll);
      }
      if now - startTime >= maxTime * MsPerSecond {
        gameOver := true;
      }
    }

    /** `is_game_over`. */
    method IsGameOver() returns (over: bool)
      ensures over == gameOver
    {
      over := gameOver;
    }

    /** The loop over `[ship_player, ship_bot]` against the asteroids. */
    method SweepShips(now: int)
      requires Valid()
      modifies shipPlayer, shipBot, asteroidManager
      ensures Valid()
      ensures State() == ShipsPhase(old(State()), 0, now)
    {
      var ships := [shipPlayer, shipBot];
      ghost var ar := State();
      var i := 0;
      while i < |ships|
        invariant 0 <= i <= |ships|
        invariant Valid()
        invariant ShipsPhase(State(), i, now) == ShipsPhase(ar, 0, now)
      {
        var ship := ships[i];
        if !ship.isRespawning {
          ghost var before := State();
          SweepShip(ship, now);
          assert State().ships == before.ships[i := ship.Value()];
        }
        i := i + 1;
      }
    }

    /** `for ast in asteroids[:]` for one ship; `kept` is where the current asteroid sits in the live list. */
    method SweepShip(ship: Ships.Ship, now: int)
      requires Valid()
      modifies ship, asteroidManager
      ensures Valid()
      ensures (ship.Value(), asteroidManager.asteroids)
        == Wear(old(ship.Value()), old(asteroidManager.asteroids), now)
    {
      var copy := asteroidManager.asteroids;
      ghost var s0 := ship.Value();
      var k := 0;
      var kept := 0;
      assert copy[..0] == [];
      while k < |copy|
        invariant 0 <= k <= |copy| && A.HpPositive(copy)
        invariant kept == |Wear(s0, copy[..k], now).1|
        invariant ship.Value() == Wear(s0, copy[..k], now).0
        invariant asteroidManager.asteroids == Wear(s0, copy[..k], now).1 + copy[k..]
      {
        WearLive(s0, copy, k, asteroidManager.asteroids, now);
        var ast := copy[k];
        if Within(Vec(ship.CenterX(), ship.CenterY()), ast.pos, SR.Radius + ast.radius) {
          ghost var live := asteroidManager.asteroids;
          ship.TakeDamage(now);
          ast := ast.(hp := ast.hp - 1);
          asteroidManager.asteroids := asteroidManager.asteroids[kept := ast];
          if ast.hp <= 0 {
            WearOut(s0, copy, k, live, now);
            asteroidManager.asteroids := RemoveFirst(asteroidManager.asteroids, ast);
          } else {
            WearTouch(s0, copy, k, live, now);
            kept := kept + 1;
          }
        } else {
          WearMiss(s0, copy, k, asteroidManager.asteroids, now);
          kept := kept + 1;
        }
        k := k + 1;
      }
      assert copy[..k] == copy;
      assert copy[k..] == [];
      assert Wear(s0, copy, now).1 + [] == Wear(s0, copy, now).1;
    }

    /** `for laser in lasers[:]`. */
    method StrikeLasers(now: int)
      requires Valid()
      modifies shipPlayer, shipBot, asteroidManager, laserManager
      ensures Valid()
      ensures State() == LasersPhase(old(State()), old(laserManager.lasers), 0, now)
    {
      var copy := laserManager.lasers;
      ghost var ar := State();
      var k := 0;
      while k < |copy|
        invariant 0 <= k <= |copy|
        invariant Valid()
        invariant LasersPhase(State(), copy, k, now) == LasersPhase(ar, copy, 0, now)
      {
        StrikeLaser(copy[k], now);
        k := k + 1;
      }
    }

    /** One laser: the ship loop, then the asteroid loop over a copy, each left at its first hit. */
    method StrikeLaser(l: L.Laser, now: int)
      requires Valid()
      modifies shipPlayer, shipBot, asteroidManager, laserManager
      ensures Valid()
      ensures State() == Strike(old(State()), l, now)
    {
      StrikeShip(l, now);
      StrikeAsteroid(l, now);
    }

    /** The ship loop of one laser. */
    method StrikeShip(l: L.Laser, now: int)
      requires Valid()
      modifies shipPlayer, shipBot, laserManager
      ensures Valid()
      ensures State() == HitShip(old(State()), l, now)
    {
      ghost var ar := State();
      var ships := [shipPlayer, shipBot];
      var i := 0;
      while i < |ships|
        invariant 0 <= i <= |ships|
        invariant State() == ar
        invariant Rules.FirstShipHit(ar.ships, l.pos, i) == Rules.FirstShipHit(ar.ships, l.pos, 0)
      {
        var ship := ships[i];
        if !ship.isRespawning && Within(l.pos, Vec(ship.CenterX(), ship.CenterY()), SR.Radius) {
          assert ar.ships[i] == ship.Value();
          ship.TakeDamage(now);
          if l in laserManager.lasers {
            laserManager.lasers := RemoveFirst(laserManager.lasers, l);
          }
          assert State().ships == ar.ships[i := SR.TakeDamage(ar.ships[i], now)];
          return;
        }
        i := i + 1;
      }
    }

    /** The asteroid loop of one laser, over a copy of the asteroid list. */
    method StrikeAsteroid(l: L.Laser, now: int)
      requires Valid()
      modifies asteroidManager, laserManager
      ensures Valid()
      ensures State() == HitAsteroid(old(State()), l, now)
    {
      var copy := asteroidManager.asteroids;
      var k := 0;
      while k < |copy|
        invariant 0 <= k <= |copy|
        invariant State() == old(State())
        invariant Rules.FirstAsteroidHit(copy, l.pos, k) == Rules.FirstAsteroidHit(copy, l.pos, 0)
      {
        var ast := copy[k];
        if Within(l.pos, ast.pos, ast.radius) {
          ast := ast.(hp := ast.hp - 1);
          asteroidManager.asteroids := asteroidManager.asteroids[k := ast];
          if ast.hp <= 0 {
            Rules.RemoveKeepsHpPositive(copy, k, ast);
            asteroidManager.asteroids := RemoveFirst(asteroidManager.asteroids, ast);
          }
          if l in laserManager.lasers {
            laserManager.lasers := RemoveFirst(laserManager.lasers, l);
          }
          return;
        }
        k := k + 1;
      }
    }
  }
}

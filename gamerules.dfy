// The collision and scoring tick of gamelogic.py (GameLogic.update) as a pure
// function on a world value. The class in Logic performs the same steps in
// place and is proved equal to these functions.

module GameRules {
  import opened Utils
  import opened Seqs
  import opened Wrappers
  import SR = ShipRules
  import A = Asteroids
  import L = Lasers

  datatype World = World(
    ships: seq<SR.ShipState>,
    asteroids: seq<A.Asteroid>,
    lasers: seq<L.Laser>,
    points: seq<int>,
    startTime: int)

  /** Every laser's owner indexes the score list (`points[owner_id]` must not fail). */
  predicate OwnersValid(lasers: seq<L.Laser>, players: int)
  {
    forall l :: l in lasers ==> 0 <= l.owner < players
  }

  /**
   * What every tick keeps: one score per ship, lasers owned by a player,
   * ships with sane hit points and ammunition, no asteroid without hit points.
   */
  predicate Valid(w: World)
  {
    |w.points| == |w.ships|
    && OwnersValid(w.lasers, |w.points|)
    && (forall i :: 0 <= i < |w.ships| ==> SR.Healthy(w.ships[i]) && SR.AmmoOk(w.ships[i]))
    && A.HpPositive(w.asteroids)
  }

  /** Ship and asteroid touch: centre distance below the sum of the radii. */
  predicate Overlaps(s: SR.ShipState, a: A.Asteroid)
  {
    Within(SR.Center(s.rect), a.pos, SR.Radius + a.radius)
  }

  /** The reload check at the start of a ship's turn: a reload that has lasted `ReloadTime` finishes. */
  function ReloadTimer(s: SR.ShipState, now: int): (r: SR.ShipState)
    ensures r.isReloading <==> s.isReloading && now - s.reloadStartTime < SR.ReloadTime
    ensures r.shots == (if s.isReloading && !r.isReloading then SR.StartShots else s.shots)
    ensures r.(isReloading := s.isReloading, shots := s.shots) == s
    ensures SR.AmmoOk(s) ==> SR.AmmoOk(r)
  {
    if s.isReloading && now - s.reloadStartTime >= SR.ReloadTime then
      s.(isReloading := false, shots := SR.StartShots)
    else s
  }

  /** The respawn check: strictly more than `RespawnTime` after the ship went down, it resets. */
  function RespawnTimer(s: SR.ShipState, now: int): (r: SR.ShipState)
    requires s.isRespawning
    ensures r.isRespawning <==> now - s.respawnStartTime <= SR.RespawnTime
    ensures r.isRespawning ==> r == s
    ensures !r.isRespawning ==> r == SR.Reset(s, now)
  {
    if now - s.respawnStartTime > SR.RespawnTime then SR.Reset(s, now) else s
  }

  /**
   * The ship-versus-asteroid loop from index `j`, iterating the LIVE list: a
   * touched asteroid loses a hit point in place and, at zero, is removed by
   * value; the index advances either way, so the asteroid that slides into
   * the removed one's place is not examined.
   *
   * However many asteroids touch the ship, it is damaged at most once per
   * sweep (the first hit opens its invincibility window), and if any
   * asteroid from `j` on touches it, it is damaged: the loop always reaches
   * the first touching one.
   */
  function Sweep(s: SR.ShipState, asts: seq<A.Asteroid>, j: nat, now: int): (r: (SR.ShipState, seq<A.Asteroid>))
    decreases |asts| - j
    ensures r.0 == s || r.0 == SR.TakeDamage(s, now)
    ensures (exists m :: j <= m < |asts| && Overlaps(s, asts[m])) ==> r.0 == SR.TakeDamage(s, now)
    ensures (forall m :: j <= m < |asts| ==> !Overlaps(s, asts[m])) ==> r == (s, asts)
    ensures |r.1| <= |asts|
    ensures SR.Healthy(s) ==> SR.Healthy(r.0)
    ensures SR.AmmoOk(s) ==> SR.AmmoOk(r.0)
    ensures A.HpPositive(asts) ==> A.HpPositive(r.1)
  {
    if j >= |asts| then (s, asts)
    else if Overlaps(s, asts[j]) then
      var a := asts[j].(hp := asts[j].hp - 1);
      var live := asts[j := a];
      if a.hp <= 0 then
        RemoveKeepsHpPositive(asts, j, a);
        Sweep(SR.TakeDamage(s, now), RemoveFirst(live, a), j + 1, now)
      else
        Sweep(SR.TakeDamage(s, now), live, j + 1, now)
    else
      Sweep(s, asts, j + 1, now)
  }

  /** Removing a worn-out asteroid by value removes that very entry when all others still have hit points. */
  lemma RemoveKeepsHpPositive(asts: seq<A.Asteroid>, j: nat, a: A.Asteroid)
    requires j < |asts| && a.hp <= 0
    ensures a in asts[j := a]
    ensures A.HpPositive(asts) ==> RemoveFirst(asts[j := a], a) == RemoveAt(asts, j)
    ensures A.HpPositive(asts) ==> A.HpPositive(RemoveFirst(asts[j := a], a))
  {
    var live := asts[j := a];
    assert live[j] == a;
    if A.HpPositive(asts) {
      RemoveFirstIsRemoveAt(live, a, j);
      assert RemoveAt(live, j) == RemoveAt(asts, j);
    }
  }

  /**
   * The live-list skip: when the asteroid at `j` is worn out by a hit, the
   * loop continues at `j + 1` of the shortened list, so the asteroid that
   * stood at `j + 1` is never tested against this ship.
   */
  lemma RemovalSkipsNext(s: SR.ShipState, asts: seq<A.Asteroid>, j: nat, now: int)
    requires j + 1 < |asts| && A.HpPositive(asts)
    requires Overlaps(s, asts[j]) && asts[j].hp == 1
    ensures Sweep(s, asts, j, now) == Sweep(SR.TakeDamage(s, now), RemoveAt(asts, j), j + 1, now)
    ensures RemoveAt(asts, j)[j] == asts[j + 1]
  {
    RemoveKeepsHpPositive(asts, j, asts[j].(hp := 0));
  }

  /** One step of the sweep: it goes on at `j + 1` with a list that agrees with `asts` before `j`. */
  lemma SweepNext(s: SR.ShipState, asts: seq<A.Asteroid>, j: nat, now: int) returns (d: SR.ShipState, next: seq<A.Asteroid>)
    requires A.HpPositive(asts) && j < |asts|
    ensures Sweep(s, asts, j, now) == Sweep(d, next, j + 1, now)
    ensures j <= |next| <= |asts| && forall k :: 0 <= k < j ==> next[k] == asts[k]
    ensures A.HpPositive(next)
    ensures !Overlaps(s, asts[j]) ==> d == s && next == asts
    ensures Overlaps(s, asts[j]) ==> d == SR.TakeDamage(s, now) && d.rect == s.rect
    ensures Overlaps(s, asts[j]) && asts[j].hp <= 1 ==> next == RemoveAt(asts, j)
    ensures Overlaps(s, asts[j]) && asts[j].hp > 1 ==> next == asts[j := asts[j].(hp := asts[j].hp - 1)]
  {
    var a := asts[j].(hp := asts[j].hp - 1);
    if !Overlaps(s, asts[j]) {
      d, next := s, asts;
    } else if a.hp <= 0 {
      RemoveKeepsHpPositive(asts, j, a);
      d, next := SR.TakeDamage(s, now), RemoveAt(asts, j);
    } else {
      d, next := SR.TakeDamage(s, now), asts[j := a];
      forall k | 0 <= k < |next| ensures next[k].hp >= 1 {
        if k != j { assert next[k] == asts[k]; }
      }
    }
  }

  /** The sweep from `j` leaves the asteroids before `j` where they were. */
  lemma {:induction false} SweepKeepsPrefix(s: SR.ShipState, asts: seq<A.Asteroid>, j: nat, now: int)
    requires A.HpPositive(asts) && j <= |asts|
    ensures |Sweep(s, asts, j, now).1| >= j
    ensures forall k :: 0 <= k < j ==> Sweep(s, asts, j, now).1[k] == asts[k]
    decreases |asts| - j
  {
    if j < |asts| {
      var d, next := SweepNext(s, asts, j, now);
      if j + 1 <= |next| {
        SweepKeepsPrefix(d, next, j + 1, now);
      }
    }
  }

  /**
   * What the sweep from `j` leaves in the asteroid list: every asteroid
   * before `j`, and every one that does not touch the ship, is still there
   * unchanged.
   */
  lemma {:induction false} SweepKeepsMisses(s: SR.ShipState, asts: seq<A.Asteroid>, j: nat, now: int, m: nat)
    requires A.HpPositive(asts) && m < |asts|
    requires m < j || !Overlaps(s, asts[m])
    ensures asts[m] in Sweep(s, asts, j, now).1
    decreases |asts| - j
  {
    if j < |asts| {
      var d, next := SweepNext(s, asts, j, now);
      var shifted := Overlaps(s, asts[j]) && asts[j].hp <= 1 && m > j;
      var m' := if shifted then m - 1 else m;
      assert next[m'] == asts[m];
      assert m' < j + 1 || !Overlaps(d, next[m']);
      SweepKeepsMisses(d, next, j + 1, now, m');
    }
  }

  /**
   * And nothing else: every asteroid the sweep from `j` leaves is an original
   * one, or an asteroid from `j` on that touches the ship, with one hit point
   * less.
   */
  lemma {:induction false} SweepOrigins(s: SR.ShipState, asts: seq<A.Asteroid>, j: nat, now: int, b: A.Asteroid)
    requires A.HpPositive(asts) && b in Sweep(s, asts, j, now).1
    ensures b in asts || exists m :: j <= m < |asts| && Overlaps(s, asts[m]) && b == asts[m].(hp := asts[m].hp - 1)
    decreases |asts| - j
  {
    if j < |asts| {
      var d, next := SweepNext(s, asts, j, now);
      SweepOrigins(d, next, j + 1, now, b);
      OriginsStep(s, asts, j, d, next, b);
    }
  }

  /** The origin of an asteroid left by the sweep, carried back over one step. */
  lemma OriginsStep(s: SR.ShipState, asts: seq<A.Asteroid>, j: nat, d: SR.ShipState, next: seq<A.Asteroid>, b: A.Asteroid)
    requires j < |asts|
    requires !Overlaps(s, asts[j]) ==> d == s && next == asts
    requires Overlaps(s, asts[j]) ==> d.rect == s.rect
    requires Overlaps(s, asts[j]) && asts[j].hp <= 1 ==> next == RemoveAt(asts, j)
    requires Overlaps(s, asts[j]) && asts[j].hp > 1 ==> next == asts[j := asts[j].(hp := asts[j].hp - 1)]
    requires b in next || exists m :: j + 1 <= m < |next| && Overlaps(d, next[m]) && b == next[m].(hp := next[m].hp - 1)
    ensures b in asts || exists m :: j <= m < |asts| && Overlaps(s, asts[m]) && b == asts[m].(hp := asts[m].hp - 1)
  {
    var removed := Overlaps(s, asts[j]) && asts[j].hp <= 1;
    if b in next {
      var k :| 0 <= k < |next| && next[k] == b;
      if removed {
        var k0 := if k < j then k else k + 1;
        assert asts[k0] == b;
      } else if k != j || !Overlaps(s, asts[j]) {
        assert asts[k] == b;
      } else {
        assert j <= j < |asts| && Overlaps(s, asts[j]) && b == asts[j].(hp := asts[j].hp - 1);
      }
    } else {
      var m :| j + 1 <= m < |next| && Overlaps(d, next[m]) && b == next[m].(hp := next[m].hp - 1);
      var m0 := if removed then m + 1 else m;
      assert next[m] == asts[m0];
      assert j <= m0 < |asts| && Overlaps(s, asts[m0]) && b == asts[m0].(hp := asts[m0].hp - 1);
    }
  }

  /** A concrete instance: two asteroids on top of a ship; the second one keeps its hit point. */
  lemma SkippedAsteroidKeepsHp()
    ensures var s := SR.Initial(0, 0);
      var a := A.Asteroid(SR.StartCenter(0), Vec(1, 1), 20, 1, Grey);
      var b := A.Asteroid(SR.StartCenter(0), Vec(-1, 1), 20, 1, Grey);
      Overlaps(s, b) && Sweep(s, [a, b], 0, 1000) == (SR.TakeDamage(s, 1000), [b])
  {
    var s := SR.Initial(0, 0);
    var a := A.Asteroid(SR.StartCenter(0), Vec(1, 1), 20, 1, Grey);
    var b := A.Asteroid(SR.StartCenter(0), Vec(-1, 1), 20, 1, Grey);
    RemovalSkipsNext(s, [a, b], 0, 1000);
    assert RemoveAt([a, b], 0) == [b];
  }

  /**
   * One iteration of the ship loop: the reload timer, then either the
   * respawn timer (a respawning ship skips the asteroids) or the sweep. Only
   * ship `i` and the asteroids can change.
   */
  function ShipTurn(w: World, i: nat, now: int): (r: World)
    requires i < |w.ships|
    ensures |r.ships| == |w.ships| && r.points == w.points && r.lasers == w.lasers
    ensures r.startTime == w.startTime
    ensures forall k :: 0 <= k < |w.ships| && k != i ==> r.ships[k] == w.ships[k]
    ensures w.ships[i].isRespawning ==> r.asteroids == w.asteroids
    ensures w.ships[i].isRespawning ==>
      r.ships[i] == RespawnTimer(ReloadTimer(w.ships[i], now), now)
    ensures !w.ships[i].isRespawning ==>
      (r.ships[i], r.asteroids) == Sweep(ReloadTimer(w.ships[i], now), w.asteroids, 0, now)
    ensures Valid(w) ==> Valid(r)
    ensures |r.asteroids| <= |w.asteroids|
  {
    var s := ReloadTimer(w.ships[i], now);
    if s.isRespawning then
      w.(ships := w.ships[i := RespawnTimer(s, now)])
    else
      var swept := Sweep(s, w.asteroids, 0, now);
      w.(ships := w.ships[i := swept.0], asteroids := swept.1)
  }

  /** The ship loop from ship `i` on. */
  function ShipPhase(w: World, i: nat, now: int): (r: World)
    decreases |w.ships| - i
    ensures |r.ships| == |w.ships| && r.points == w.points && r.lasers == w.lasers
    ensures r.startTime == w.startTime
    ensures forall k :: 0 <= k < i && k < |w.ships| ==> r.ships[k] == w.ships[k]
    ensures Valid(w) ==> Valid(r)
    ensures |r.asteroids| <= |w.asteroids|
  {
    if i >= |w.ships| then w else ShipPhase(ShipTurn(w, i, now), i + 1, now)
  }

  /** First live (not respawning) ship from index `i` whose centre is within the ship radius of `p`. */
  function FirstShipHit(ships: seq<SR.ShipState>, p: Vec, i: nat): (r: Option<nat>)
    decreases |ships| - i
    ensures r.Some? ==> (i <= r.value < |ships| && !ships[r.value].isRespawning
      && Within(p, SR.Center(ships[r.value].rect), SR.Radius))
    ensures r.Some? ==> forall k :: i <= k < r.value ==>
      ships[k].isRespawning || !Within(p, SR.Center(ships[k].rect), SR.Radius)
    ensures r.None? ==> forall k :: i <= k < |ships| ==>
      ships[k].isRespawning || !Within(p, SR.Center(ships[k].rect), SR.Radius)
  {
    if i >= |ships| then None
    else if !ships[i].isRespawning && Within(p, SR.Center(ships[i].rect), SR.Radius) then Some(i)
    else FirstShipHit(ships, p, i + 1)
  }

  /** First asteroid from index `k` whose radius contains `p`. */
  function FirstAsteroidHit(asts: seq<A.Asteroid>, p: Vec, k: nat): (r: Option<nat>)
    decreases |asts| - k
    ensures r.Some? ==> k <= r.value < |asts| && Within(p, asts[r.value].pos, asts[r.value].radius)
    ensures r.Some? ==> forall m :: k <= m < r.value ==> !Within(p, asts[m].pos, asts[m].radius)
    ensures r.None? ==> forall m :: k <= m < |asts| ==> !Within(p, asts[m].pos, asts[m].radius)
  {
    if k >= |asts| then None
    else if Within(p, asts[k].pos, asts[k].radius) then Some(k)
    else FirstAsteroidHit(asts, p, k + 1)
  }

  /** The first asteroid that `p` hits is the first one equal to it, so removing it by value removes that entry. */
  lemma RemoveHitAsteroid(asts: seq<A.Asteroid>, p: Vec, k: nat)
    requires FirstAsteroidHit(asts, p, 0) == Some(k)
    ensures RemoveFirst(asts, asts[k]) == RemoveAt(asts, k)
  {
    forall m | 0 <= m < k
      ensures asts[m] != asts[k]
    {
      assert !Within(p, asts[m].pos, asts[m].radius);
    }
    RemoveFirstIsRemoveAt(asts, asts[k], k);
  }

  /**
   * One laser of the copied list. The first live ship it touches is damaged
   * (a no-op while that ship is invincible), its owner scores a point unless
   * it hit its own ship, and the laser is removed. Only when no ship is hit
   * (the `for ... else` branch) is the first asteroid it touches removed
   * outright, whatever its hit points, together with the laser.
   */
  function ResolveLaser(w: World, l: L.Laser, now: int): (r: World)
    requires l in w.lasers && 0 <= l.owner < |w.points|
    ensures |r.ships| == |w.ships| && |r.points| == |w.points| && r.startTime == w.startTime
    ensures FirstShipHit(w.ships, l.pos, 0).Some? ==>
      var i := FirstShipHit(w.ships, l.pos, 0).value;
      && r.ships == w.ships[i := SR.TakeDamage(w.ships[i], now)]
      && r.asteroids == w.asteroids
      && r.points == (if l.owner != w.ships[i].number then w.points[l.owner := w.points[l.owner] + 1] else w.points)
      && multiset(r.lasers) == multiset(w.lasers) - multiset{l}
    ensures FirstShipHit(w.ships, l.pos, 0).None? && FirstAsteroidHit(w.asteroids, l.pos, 0).Some? ==>
      var k := FirstAsteroidHit(w.asteroids, l.pos, 0).value;
      && r.ships == w.ships && r.points == w.points
      && r.asteroids == RemoveAt(w.asteroids, k)
      && multiset(r.lasers) == multiset(w.lasers) - multiset{l}
    ensures FirstShipHit(w.ships, l.pos, 0).None? && FirstAsteroidHit(w.asteroids, l.pos, 0).None? ==>
      r == w
  {
    match FirstShipHit(w.ships, l.pos, 0)
    case Some(i) =>
      var s := w.ships[i];
      RemoveFirstMultiset(w.lasers, l);
      w.(ships := w.ships[i := SR.TakeDamage(s, now)],
         points := if l.owner != s.number then w.points[l.owner := w.points[l.owner] + 1] else w.points,
         lasers := RemoveFirst(w.lasers, l))
    case None =>
      match FirstAsteroidHit(w.asteroids, l.pos, 0)
      case Some(k) =>
        RemoveHitAsteroid(w.asteroids, l.pos, k);
        RemoveFirstMultiset(w.lasers, l);
        w.(asteroids := RemoveFirst(w.asteroids, w.asteroids[k]),
           lasers := if l in w.lasers then RemoveFirst(w.lasers, l) else w.lasers)
      case None => w
  }

  function Sum(p: seq<int>): int
  {
    if p == [] then 0 else p[0] + Sum(p[1..])
  }

  /** A point for one player raises the total by one. */
  lemma {:induction false} SumIncrement(p: seq<int>, o: nat)
    requires o < |p|
    ensures Sum(p[o := p[o] + 1]) == Sum(p) + 1
  {
    if o > 0 {
      assert p[o := p[o] + 1][1..] == p[1..][o - 1 := p[1..][o - 1] + 1];
      SumIncrement(p[1..], o - 1);
    }
  }

  /** Lasers left after removals are among the old ones, so their owners stay valid. */
  lemma OwnersShrink(small: seq<L.Laser>, big: seq<L.Laser>, players: int)
    requires multiset(small) <= multiset(big) && OwnersValid(big, players)
    ensures OwnersValid(small, players)
  {
    forall m | m in small
      ensures 0 <= m.owner < players
    {
      assert m in multiset(small);
    }
  }

  /**
   * The laser loop over the copy `copy[k..]`. The requires is the loop's
   * invariant: every laser still to be examined is in the live list (each
   * one is removed at most once, by its own iteration), which is why the
   * unguarded `remove` after a ship hit never raises.
   */
  function LaserPhase(w: World, copy: seq<L.Laser>, k: nat, now: int): (r: World)
    requires k <= |copy| && multiset(copy[k..]) <= multiset(w.lasers)
    requires OwnersValid(copy, |w.points|)
    decreases |copy| - k
    ensures |r.ships| == |w.ships| && |r.points| == |w.points| && r.startTime == w.startTime
    ensures forall o :: 0 <= o < |w.points| ==> r.points[o] >= w.points[o]
    ensures Sum(r.points) <= Sum(w.points) + (|copy| - k)
    ensures multiset(r.lasers) <= multiset(w.lasers)
    ensures multiset(r.asteroids) <= multiset(w.asteroids)
    ensures Valid(w) ==> Valid(r)
  {
    if k >= |copy| then w
    else
      LaserPreStep(w, copy, k, now);
      LaserPhase(ResolveLaser(w, copy[k], now), copy, k + 1, now)
  }

  /** A laser that hits a ship: scores only grow, by one point at most, and the tick invariant holds. */
  lemma ShipHitStep(w: World, l: L.Laser, now: int)
    requires l in w.lasers && 0 <= l.owner < |w.points|
    requires FirstShipHit(w.ships, l.pos, 0).Some?
    ensures var r := ResolveLaser(w, l, now);
      && (forall o :: 0 <= o < |w.points| ==> r.points[o] >= w.points[o])
      && Sum(r.points) <= Sum(w.points) + 1
      && (Valid(w) ==> Valid(r))
  {
    var r := ResolveLaser(w, l, now);
    var i := FirstShipHit(w.ships, l.pos, 0).value;
    if l.owner != w.ships[i].number {
      SumIncrement(w.points, l.owner);
    }
    if Valid(w) {
      OwnersShrink(r.lasers, w.lasers, |w.points|);
      assert SR.Healthy(r.ships[i]) && SR.AmmoOk(r.ships[i]);
    }
  }

  /** A laser that misses every ship: asteroids only disappear, and the tick invariant holds. */
  lemma MissStep(w: World, l: L.Laser, now: int)
    requires l in w.lasers && 0 <= l.owner < |w.points|
    requires FirstShipHit(w.ships, l.pos, 0).None?
    ensures var r := ResolveLaser(w, l, now);
      && r.points == w.points
      && multiset(r.asteroids) <= multiset(w.asteroids)
      && (Valid(w) ==> Valid(r))
  {
    var r := ResolveLaser(w, l, now);
    match FirstAsteroidHit(w.asteroids, l.pos, 0)
    case Some(k) =>
      RemoveAtMultiset(w.asteroids, k);
      if Valid(w) {
        OwnersShrink(r.lasers, w.lasers, |w.points|);
        RemoveAtKeepsHp(w.asteroids, k);
      }
    case None =>
  }

  lemma RemoveAtKeepsHp(asts: seq<A.Asteroid>, k: nat)
    requires k < |asts| && A.HpPositive(asts)
    ensures A.HpPositive(RemoveAt(asts, k))
  {
  }

  /** One iteration of the laser loop: what the laser changes, and the loop's requires for the next laser. */
  lemma LaserPreStep(w: World, copy: seq<L.Laser>, k: nat, now: int)
    requires k < |copy| && multiset(copy[k..]) <= multiset(w.lasers)
    requires OwnersValid(copy, |w.points|)
    ensures copy[k] in w.lasers && 0 <= copy[k].owner < |w.points|
    ensures var r := ResolveLaser(w, copy[k], now);
      && multiset(copy[k + 1..]) <= multiset(r.lasers)
      && |r.points| == |w.points| && |r.ships| == |w.ships| && r.startTime == w.startTime
      && (forall o :: 0 <= o < |w.points| ==> r.points[o] >= w.points[o])
      && Sum(r.points) <= Sum(w.points) + 1
      && multiset(r.lasers) <= multiset(w.lasers)
      && multiset(r.asteroids) <= multiset(w.asteroids)
      && (OwnersValid(w.lasers, |w.points|) ==> OwnersValid(r.lasers, |w.points|))
      && (Valid(w) ==> Valid(r))
  {
    var l := copy[k];
    assert copy[k..] == [l] + copy[k + 1..];
    assert l in multiset(w.lasers);
    LaserStep(w, l, now);
    var r := ResolveLaser(w, l, now);
    assert multiset(copy[k + 1..]) == multiset(copy[k..]) - multiset{l};
    if OwnersValid(w.lasers, |w.points|) {
      OwnersShrink(r.lasers, w.lasers, |w.points|);
    }
  }

  /** One iteration of the laser loop, with the loop invariant carried to the next laser. */
  lemma LaserPhaseStep(w: World, copy: seq<L.Laser>, k: nat, now: int)
    requires k < |copy| && multiset(copy[k..]) <= multiset(w.lasers)
    requires OwnersValid(copy, |w.points|)
    ensures copy[k] in w.lasers
    ensures var r := ResolveLaser(w, copy[k], now);
      && multiset(copy[k + 1..]) <= multiset(r.lasers)
      && |r.points| == |w.points| && |r.ships| == |w.ships|
      && (OwnersValid(w.lasers, |w.points|) ==> OwnersValid(r.lasers, |w.points|))
      && LaserPhase(w, copy, k, now) == LaserPhase(r, copy, k + 1, now)
  {
    LaserPreStep(w, copy, k, now);
  }

  /** What one laser does to the quantities the laser loop bounds. */
  lemma LaserStep(w: World, l: L.Laser, now: int)
    requires l in w.lasers && 0 <= l.owner < |w.points|
    ensures var r := ResolveLaser(w, l, now);
      && (forall o :: 0 <= o < |w.points| ==> r.points[o] >= w.points[o])
      && Sum(r.points) <= Sum(w.points) + 1
      && (multiset(r.lasers) == multiset(w.lasers) - multiset{l} || r.lasers == w.lasers)
      && multiset(r.asteroids) <= multiset(w.asteroids)
      && (Valid(w) ==> Valid(r))
  {
    if FirstShipHit(w.ships, l.pos, 0).Some? {
      ShipHitStep(w, l, now);
    } else {
      MissStep(w, l, now);
    }
  }

  /** Moving asteroids and lasers keeps the tick invariant, and leaves only on-field lasers. */
  lemma MoveStep(w: World)
    requires OwnersValid(w.lasers, |w.points|)
    ensures var w1 := w.(asteroids := A.MoveAll(w.asteroids), lasers := L.Advanced(w.lasers));
      && OwnersValid(w1.lasers, |w.points|) && |w1.lasers| <= |w.lasers|
      && (forall m :: m in w1.lasers ==> InClosedField(m.pos))
      && (Valid(w) ==> Valid(w1))
  {
    L.AdvancedSpec(w.lasers);
    var adv := L.Advanced(w.lasers);
    forall m | m in adv
      ensures 0 <= m.owner < |w.points|
    {
      var l :| l in w.lasers && m == L.Moved(l) && m.vel == l.vel && m.owner == l.owner;
    }
  }

  /** Lasers left after removals are among the old ones, so they stay on the field. */
  lemma FieldShrink(small: seq<L.Laser>, big: seq<L.Laser>)
    requires multiset(small) <= multiset(big)
    requires forall m :: m in big ==> InClosedField(m.pos)
    ensures forall m :: m in small ==> InClosedField(m.pos)
  {
    forall m | m in small
      ensures InClosedField(m.pos)
    {
      assert m in multiset(small);
    }
  }

  /** A sub-multiset of a list's elements is no longer than the list. */
  lemma ShorterList<T>(small: seq<T>, big: seq<T>)
    requires multiset(small) <= multiset(big)
    ensures |small| <= |big|
  {
    assert |multiset(small)| <= |multiset(big)| by {
      assert multiset(big) == multiset(small) + (multiset(big) - multiset(small));
    }
  }

  /** Whether the match has run its `maxTime` seconds (`elapsed >= max_time`). */
  predicate TimeUp(w: World, now: int, maxTime: int)
  {
    now - w.startTime >= maxTime * MsPerSecond
  }

  /**
   * `update`: asteroids and lasers move first, then each ship meets the
   * asteroids, then each laser of a copy of the list meets the ships or the
   * asteroids. The result is the new world; the source's return value is
   * `TimeUp`, read against the start time before the tick, which the tick
   * does not change.
   */
  function Update(w: World, now: int): (r: World)
    requires OwnersValid(w.lasers, |w.points|)
    ensures |r.ships| == |w.ships| && |r.points| == |w.points| && r.startTime == w.startTime
    ensures forall o :: 0 <= o < |w.points| ==> r.points[o] >= w.points[o]
    ensures Sum(r.points) <= Sum(w.points) + |w.lasers|
    ensures |r.asteroids| <= |w.asteroids|
    ensures forall m :: m in r.lasers ==> InClosedField(m.pos) && 0 <= m.owner < |w.points|
    ensures Valid(w) ==> Valid(r)
  {
    var w1 := w.(asteroids := A.MoveAll(w.asteroids), lasers := L.Advanced(w.lasers));
    MoveStep(w);
    var w2 := ShipPhase(w1, 0, now);
    assert w2.lasers[0..] == w2.lasers;
    var r := LaserPhase(w2, w2.lasers, 0, now);
    assert w2.points == w.points && |w2.lasers| <= |w.lasers|;
    assert Sum(r.points) <= Sum(w2.points) + |w2.lasers|;
    ShorterList(r.asteroids, w2.asteroids);
    OwnersShrink(r.lasers, w2.lasers, |w.points|);
    FieldShrink(r.lasers, w2.lasers);
    r
  }

  /** `reset_game`: a new start time, every score zero, no asteroids and no lasers; ships are untouched. */
  function ResetGame(w: World, now: int): (r: World)
    ensures r.ships == w.ships && r.startTime == now && r.asteroids == [] && r.lasers == []
    ensures |r.points| == |w.ships| && Sum(r.points) == 0
    ensures forall o :: 0 <= o < |r.points| ==> r.points[o] == 0
    ensures (forall i :: 0 <= i < |w.ships| ==> SR.Healthy(w.ships[i]) && SR.AmmoOk(w.ships[i])) ==> Valid(r)
  {
    var r := w.(startTime := now, points := Repeat(0, |w.ships|), asteroids := [], lasers := []);
    ZeroSum(|w.ships|);
    r
  }

  lemma {:induction false} ZeroSum(n: nat)
    ensures Sum(Repeat(0, n)) == 0
  {
    if n > 0 {
      assert Repeat(0, n)[1..] == Repeat(0, n - 1);
      ZeroSum(n - 1);
    }
  }

  /** `get_time_left`: whole seconds left, truncating the elapsed time, never below zero. */
  function TimeLeft(w: World, now: int, maxTime: int): (r: int)
    ensures r >= 0
    ensures w.startTime <= now && maxTime >= 0 ==> r <= maxTime
    ensures w.startTime <= now && maxTime >= 0 ==> (r == 0 <==> TimeUp(w, now, maxTime))
  {
    var left := maxTime - TruncSeconds(now - w.startTime);
    if left > 0 then left else 0
  }
}

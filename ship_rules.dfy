// The ship state machine of ship.py as pure transitions on a ship value:
// hit points, invincibility and respawn windows, ammunition with cooldown
// and reload, movement with wrap-around, and reset.

module ShipRules {
  import opened Utils

  const Radius: int := 20
  const Speed: int := 5
  const TurnStep: int := 5
  const StartHp: int := 3
  const StartShots: int := 10
  const ReloadTime: int := 1500
  const LaserCooldown: int := 200
  const InvincibleTime: int := 600
  const RespawnTime: int := 2000

  /** The ship image is a 50 x 40 surface; its rect is kept by its top-left corner. */
  const RectWidth: int := 50
  const RectHeight: int := 40

  datatype ShipState = ShipState(
    number: int,
    angle: int,
    hp: int,
    shots: int,
    isReloading: bool,
    reloadStartTime: int,
    lastLaserTime: int,
    isRespawning: bool,
    respawnStartTime: int,
    invincibleUntil: int,
    rect: Vec)

  /** Centre of a rect given by its top-left corner (pygame's `rect.center`). */
  function Center(rect: Vec): Vec
  {
    Vec(rect.x + RectWidth / 2, rect.y + RectHeight / 2)
  }

  /** The rect whose centre is `c` (pygame's `rect.center = c`). */
  function RectAround(c: Vec): (rect: Vec)
    ensures Center(rect) == c
  {
    Vec(c.x - RectWidth / 2, c.y - RectHeight / 2)
  }

  /** Slot 0 spawns at 20 % of the field facing 0 degrees, any other slot at 80 % facing 180. */
  function StartCenter(number: int): Vec
  {
    if number == 0 then Vec(Width / 5, Height / 5) else Vec(Width * 4 / 5, Height * 4 / 5)
  }

  function StartAngle(number: int): int
  {
    if number == 0 then 0 else 180
  }

  /** Hit points are never negative, and a ship that is not respawning has at least one. */
  predicate Healthy(s: ShipState)
  {
    s.hp >= 0 && (!s.isRespawning ==> s.hp >= 1)
  }

  /** Ammunition stays within [0, StartShots], and an empty magazine is always reloading. */
  predicate AmmoOk(s: ShipState)
  {
    0 <= s.shots <= StartShots && (s.shots == 0 ==> s.isReloading)
  }

  /** `reset`: full hit points and ammunition, start pose, a fresh invincibility window. */
  function Reset(s: ShipState, now: int): (r: ShipState)
    ensures Healthy(r) && AmmoOk(r)
    ensures r.hp == StartHp && r.shots == StartShots && r.invincibleUntil == now + InvincibleTime
    ensures !r.isRespawning && !r.isReloading && now < r.invincibleUntil
    ensures Center(r.rect) == StartCenter(s.number) && r.angle == StartAngle(s.number)
    ensures r.(hp := s.hp, shots := s.shots, isReloading := s.isReloading, isRespawning := s.isRespawning,
               angle := s.angle, rect := s.rect, invincibleUntil := s.invincibleUntil) == s
  {
    s.(hp := StartHp, shots := StartShots, isReloading := false, isRespawning := false,
       angle := StartAngle(s.number), rect := RectAround(StartCenter(s.number)),
       invincibleUntil := now + InvincibleTime)
  }

  /** `Ship.__init__`: the fields of a new ship created at time `now`. */
  function Initial(number: int, now: int): (r: ShipState)
    ensures r.number == number && Healthy(r) && AmmoOk(r)
    ensures Reset(r, now) == r
  {
    ShipState(number, StartAngle(number), StartHp, StartShots, false, 0, 0, false, 0,
              now + InvincibleTime, RectAround(StartCenter(number)))
  }

  /** The damage guard: a respawning or still-invincible ship ignores hits. */
  predicate Shielded(s: ShipState, now: int)
  {
    s.isRespawning || now < s.invincibleUntil
  }

  /** `take_damage`: lose one hit point, open an invincibility window, start respawning at 0. */
  function TakeDamage(s: ShipState, now: int): (r: ShipState)
    ensures r == s <==> Shielded(s, now)
    ensures r != s ==> r.hp == s.hp - 1 && r.invincibleUntil == now + InvincibleTime
    ensures r.isRespawning <==> s.isRespawning || (r != s && r.hp <= 0)
    ensures r.isRespawning && !s.isRespawning ==> r.respawnStartTime == now
    ensures r.(hp := s.hp, invincibleUntil := s.invincibleUntil, isRespawning := s.isRespawning,
               respawnStartTime := s.respawnStartTime) == s
    ensures Healthy(s) ==> Healthy(r)
  {
    if Shielded(s, now) then s
    else
      var hp := s.hp - 1;
      s.(hp := hp, invincibleUntil := now + InvincibleTime,
         isRespawning := hp <= 0,
         respawnStartTime := if hp <= 0 then now else s.respawnStartTime)
  }

  /** Keys held during one frame (the source looks them up in the pressed-key table). */
  datatype Keys = Keys(left: bool, right: bool, up: bool, down: bool)

  /**
   * `update`: a respawning ship only waits for its respawn window to pass
   * (strictly more than two seconds) and then resets; a live ship turns,
   * moves by `motion(angle)` (the truncated `speed * (cos, sin)` of its new
   * heading, computed outside the model), wraps into the field and finishes
   * a reload that has lasted `ReloadTime`.
   */
  function Update(s: ShipState, now: int, keys: Keys, motion: int -> Vec): (r: ShipState)
    ensures s.isRespawning ==> (r.isRespawning <==> now - s.respawnStartTime <= RespawnTime)
    ensures s.isRespawning && r.isRespawning ==> r == s
    ensures s.isRespawning && !r.isRespawning ==> r == Reset(s, now)
    ensures !s.isRespawning ==> !r.isRespawning && InField(r.rect) && r.hp == s.hp
    ensures !s.isRespawning ==> r.angle == s.angle + (if keys.left then TurnStep else 0)
                                                   - (if keys.right then TurnStep else 0)
    ensures !s.isRespawning ==>
              var d := motion(r.angle);
              (r.rect.x - (s.rect.x + (if keys.up then d.x else 0) - (if keys.down then d.x else 0))) % Width == 0 &&
              (r.rect.y - (s.rect.y - (if keys.up then d.y else 0) + (if keys.down then d.y else 0))) % Height == 0
    ensures !s.isRespawning ==> r.(angle := s.angle, rect := s.rect, isReloading := s.isReloading, shots := s.shots) == s
    ensures !s.isRespawning && s.isReloading && now - s.reloadStartTime >= ReloadTime ==>
              !r.isReloading && r.shots == StartShots
    ensures !s.isRespawning && !(s.isReloading && now - s.reloadStartTime >= ReloadTime) ==>
              r.isReloading == s.isReloading && r.shots == s.shots
    ensures Healthy(s) ==> Healthy(r)
    ensures AmmoOk(s) ==> AmmoOk(r)
  {
    if s.isRespawning then
      if now - s.respawnStartTime > RespawnTime then Reset(s, now) else s
    else
      var angle := s.angle + (if keys.left then TurnStep else 0) - (if keys.right then TurnStep else 0);
      var d := motion(angle);
      var x := s.rect.x + (if keys.up then d.x else 0) - (if keys.down then d.x else 0);
      var y := s.rect.y - (if keys.up then d.y else 0) + (if keys.down then d.y else 0);
      var done := s.isReloading && now - s.reloadStartTime >= ReloadTime;
      s.(angle := angle, rect := Wrap(Vec(x, y)),
         isReloading := if done then false else s.isReloading,
         shots := if done then StartShots else s.shots)
  }

  /** The firing guard of `try_shoot`. */
  predicate CanShoot(s: ShipState, now: int)
  {
    s.shots > 0 && !s.isReloading && now - s.lastLaserTime >= LaserCooldown && !s.isRespawning
  }

  /** What `try_shoot` returns, with the ship it leaves behind. */
  datatype Shot = Shot(ok: bool, tip: Vec, ship: ShipState)

  /**
   * `try_shoot`: `aim` is `radius * (cos, sin)` of the heading (computed
   * outside the model); the muzzle is the centre moved by it, with y down.
   */
  function Shoot(s: ShipState, now: int, aim: Vec): (r: Shot)
    ensures r.ok <==> CanShoot(s, now)
    ensures !r.ok ==> r.tip == Vec(0, 0) && r.ship == s
    ensures r.ok ==> r.tip == Vec(Center(s.rect).x + aim.x, Center(s.rect).y - aim.y)
    ensures r.ok ==> r.ship.shots == s.shots - 1 >= 0 && r.ship.lastLaserTime == now
    ensures r.ok ==> (r.ship.isReloading <==> r.ship.shots == 0)
    ensures r.ok && r.ship.isReloading ==> r.ship.reloadStartTime == now
    ensures r.ship.(shots := s.shots, lastLaserTime := s.lastLaserTime,
                    isReloading := s.isReloading, reloadStartTime := s.reloadStartTime) == s
    ensures AmmoOk(s) ==> AmmoOk(r.ship)
  {
    if CanShoot(s, now) then
      var shots := s.shots - 1;
      var empty := shots <= 0 && !s.isReloading;
      var c := Center(s.rect);
      Shot(true, Vec(c.x + aim.x, c.y - aim.y),
           s.(shots := shots, lastLaserTime := now,
              isReloading := if empty then true else s.isReloading,
              reloadStartTime := if empty then now else s.reloadStartTime))
    else
      Shot(false, Vec(0, 0), s)
  }

  /** Hits landing one after another at the same instant: only the first one counts. */
  lemma DamageIdempotentAtSameTime(s: ShipState, now: int)
    ensures TakeDamage(TakeDamage(s, now), now) == TakeDamage(s, now)
  {
  }

  /** Firing at each of `times` in turn. */
  function ShootAll(s: ShipState, times: seq<int>, aim: Vec): ShipState
    decreases |times|
  {
    if times == [] then s else ShootAll(Shoot(s, times[0], aim).ship, times[1..], aim)
  }

  /** Shot times that each respect the cooldown after the one before, starting after `last`. */
  predicate Spaced(last: int, times: seq<int>)
  {
    (|times| > 0 ==> last + LaserCooldown <= times[0]) &&
    forall i :: 0 < i < |times| ==> times[i - 1] + LaserCooldown <= times[i]
  }

  /**
   * Emptying the magazine: a ready ship that fires one cooldown-spaced shot
   * per round it holds ends with no shots, reloading since its last shot.
   */
  lemma {:induction false} EmptyMagazineStartsReload(s: ShipState, times: seq<int>, aim: Vec)
    requires AmmoOk(s) && !s.isReloading && !s.isRespawning
    requires |times| == s.shots > 0 && Spaced(s.lastLaserTime, times)
    decreases |times|
    ensures var r := ShootAll(s, times, aim);
      r.shots == 0 && r.isReloading && r.reloadStartTime == times[|times| - 1]
      && r.lastLaserTime == times[|times| - 1]
  {
    var t := Shoot(s, times[0], aim).ship;
    assert CanShoot(s, times[0]);
    if |times| > 1 {
      assert times[0] + LaserCooldown <= times[1];
      assert Spaced(t.lastLaserTime, times[1..]) by {
        forall i | 0 < i < |times[1..]|
          ensures times[1..][i - 1] + LaserCooldown <= times[1..][i]
        {
          assert times[i] + LaserCooldown <= times[i + 1];
        }
      }
      EmptyMagazineStartsReload(t, times[1..], aim);
    }
  }

  /** After the reload time has passed, a live ship's update restores a full magazine. */
  lemma ReloadCompletes(s: ShipState, now: int, keys: Keys, motion: int -> Vec)
    requires !s.isRespawning && s.isReloading && now >= s.reloadStartTime + ReloadTime
    ensures Update(s, now, keys, motion).shots == StartShots
    ensures !Update(s, now, keys, motion).isReloading
  {
  }
}

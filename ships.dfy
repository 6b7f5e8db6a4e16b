// The `Ship` object of ship.py: its fields are updated in place by its own
// methods, by the collision tick, by the server's message handler and by the
// client's snapshot handler. Each method is proved against ShipRules.

module Ships {
  import opened Utils
  import ShipRules

  class Ship {
    const number: int
    var angle: int
    var hp: int
    var shots: int
    var isReloading: bool
    var reloadStartTime: int
    var lastLaserTime: int
    var isRespawning: bool
    var respawnStartTime: int
    var invincibleUntil: int
    /** Top-left corner of the ship's rect. */
    var rect: Vec

    /** The ship's fields as a value. */
    function Value(): ShipRules.ShipState
      reads this
    {
      ShipRules.ShipState(number, angle, hp, shots, isReloading, reloadStartTime, lastLaserTime,
                          isRespawning, respawnStartTime, invincibleUntil, rect)
    }

    function CenterX(): int
      reads this
    {
      ShipRules.Center(rect).x
    }

    function CenterY(): int
      reads this
    {
      ShipRules.Center(rect).y
    }

    constructor (number: int, now: int)
      ensures Value() == ShipRules.Initial(number, now)
    {
      this.number := number;
      angle := ShipRules.StartAngle(number);
      hp := ShipRules.StartHp;
      shots := ShipRules.StartShots;
      isReloading := false;
      reloadStartTime := 0;
      lastLaserTime := 0;
      isRespawning := false;
      respawnStartTime := 0;
      invincibleUntil := now + ShipRules.InvincibleTime;
      rect := ShipRules.RectAround(ShipRules.StartCenter(number));
    }

    method Reset(now: int)
      modifies this
      ensures Value() == ShipRules.Reset(old(Value()), now)
    {
      hp := ShipRules.StartHp;
      shots := ShipRules.StartShots;
      isReloading := false;
      isRespawning := false;
      angle := ShipRules.StartAngle(number);
      rect := ShipRules.RectAround(ShipRules.StartCenter(number));
      invincibleUntil := now + ShipRules.InvincibleTime;
    }

    method TakeDamage(now: int)
      modifies this
      ensures Value() == ShipRules.TakeDamage(old(Value()), now)
    {
      if isRespawning || now < invincibleUntil {
        return;
      }
      hp := hp - 1;
      invincibleUntil := now + ShipRules.InvincibleTime;
      if hp <= 0 {
        isRespawning := true;
        respawnStartTime := now;
      }
    }

    method Update(now: int, keys: ShipRules.Keys, motion: int -> Vec)
      modifies this
      ensures Value() == ShipRules.Update(old(Value()), now, keys, motion)
    {
      if isRespawning {
        if now - respawnStartTime > ShipRules.RespawnTime {
          Reset(now);
        }
        return;
      }
      if keys.left {
        angle := angle + ShipRules.TurnStep;
      }
      if keys.right {
        angle := angle - ShipRules.TurnStep;
      }
      var d := motion(angle);
      if keys.up {
        rect := Vec(rect.x + d.x, rect.y - d.y);
      }
      if keys.down {
        rect := Vec(rect.x - d.x, rect.y + d.y);
      }
      rect := Vec(rect.x % Width, rect.y % Height);
      if isReloading {
        if now - reloadStartTime >= ShipRules.ReloadTime {
          isReloading := false;
          shots := ShipRules.StartShots;
        }
      }
    }

    method TryShoot(now: int, aim: Vec) returns (ok: bool, tip: Vec)
      modifies this
      ensures var r := ShipRules.Shoot(old(Value()), now, aim);
        ok == r.ok && tip == r.tip && Value() == r.ship
    {
      if shots > 0 && !isReloading && now - lastLaserTime >= ShipRules.LaserCooldown && !isRespawning {
        shots := shots - 1;
        lastLaserTime := now;
        if shots <= 0 && !isReloading {
          isReloading := true;
          reloadStartTime := now;
        }
        return true, Vec(CenterX() + aim.x, CenterY() - aim.y);
      }
      return false, Vec(0, 0);
    }
  }
}

/**
 * The game rules of the character entity of
 * `arcgame/game/entities/character.py`: health and armor, death and
 * respawn, the weapon inventory and its cooldown, the jump counters, and
 * the horizontal control of a physics frame. The tuning values come from a
 * record the character is built with.
 */
module EntityCharacter {
  import opened Vec2

  /** The tuning values the entity reads. */
  datatype Tuning = Tuning(
    gravity: real,
    groundControlSpeed: real, groundControlAccel: real, groundFriction: real,
    airControlSpeed: real, airControlAccel: real, airFriction: real,
    groundJumpImpulse: real, airJumpImpulse: real,
    hammerFireDelay: int, gunFireDelay: int, shotgunFireDelay: int,
    grenadeFireDelay: int, laserFireDelay: int, ninjaFireDelay: int)

  /** One inventory entry: whether the weapon is owned, and its ammunition (-1 for infinite). */
  datatype Slot = Slot(got: bool, ammo: int)

  const Infinite := -1

  /** The starting inventory: hammer and gun owned with infinite ammunition, the rest not owned. */
  const StartWeapons: map<int, Slot> := map[
    0 := Slot(true, -1), 1 := Slot(true, -1), 2 := Slot(false, 10),
    3 := Slot(false, 10), 4 := Slot(false, 10), 5 := Slot(false, 1)]

  /** Jumps allowed in all: the ground jump and one air jump. */
  const Jumps := 2
  const StartHealth := 10

  /** `get_weapon_fire_delay`: the tuning's delay for the six weapons, 10 for any other id. */
  function FireDelay(t: Tuning, weapon: int): (d: int)
    ensures !(0 <= weapon <= 5) ==> d == 10
    ensures weapon == 0 ==> d == t.hammerFireDelay
    ensures weapon == 5 ==> d == t.ninjaFireDelay
  {
    match weapon
    case 0 => t.hammerFireDelay
    case 1 => t.gunFireDelay
    case 2 => t.shotgunFireDelay
    case 3 => t.grenadeFireDelay
    case 4 => t.laserFireDelay
    case 5 => t.ninjaFireDelay
    case _ => 10
  }

  /** Python's `j | b` and `j & ~b` for a single bit `b` of a small non-negative `j`. */
  function SetBit(j: int, b: int): (r: int)
    requires 0 <= j < 4 && (b == 1 || b == 2)
    ensures 0 <= r < 4 && HasBit(r, b)
    ensures forall c :: (c == 1 || c == 2) && c != b ==> (HasBit(r, c) <==> HasBit(j, c))
  {
    if HasBit(j, b) then j else j + b
  }

  function ClearBit(j: int, b: int): (r: int)
    requires 0 <= j < 4 && (b == 1 || b == 2)
    ensures 0 <= r < 4 && !HasBit(r, b)
    ensures forall c :: (c == 1 || c == 2) && c != b ==> (HasBit(r, c) <==> HasBit(j, c))
  {
    if HasBit(j, b) then j - b else j
  }

  /** Bit `b` (1 or 2) of `j` is set. */
  predicate HasBit(j: int, b: int)
    requires 0 <= j < 4 && (b == 1 || b == 2)
  {
    (j / b) % 2 == 1
  }

  /**
   * The horizontal rule of `handle_physics`: with a direction, accelerate
   * and cap at the ground or air control speed in that direction; with
   * none, apply friction and stop below 0.1.
   */
  function Steer(vx: real, direction: int, onGround: bool, t: Tuning): (r: real)
    requires direction in {-1, 0, 1}
    ensures direction == 1 ==> r <= (if onGround then t.groundControlSpeed else t.airControlSpeed)
    ensures direction == -1 ==> r >= -(if onGround then t.groundControlSpeed else t.airControlSpeed)
    ensures direction == 0 ==> r == 0.0 || Abs(r) >= 0.1
    ensures direction == 0 && 0.0 <= (if onGround then t.groundFriction else t.airFriction) <= 1.0 ==> Abs(r) <= Abs(vx)
  {
    var maxSpeed := if onGround then t.groundControlSpeed else t.airControlSpeed;
    var accel := if onGround then t.groundControlAccel else t.airControlAccel;
    var friction := if onGround then t.groundFriction else t.airFriction;
    if direction > 0 then Min(vx + accel, maxSpeed)
    else if direction < 0 then Max(vx - accel, -maxSpeed)
    else
      var slowed := vx * friction;
      FrictionSlows(vx, friction);
      if Abs(slowed) < 0.1 then 0.0 else slowed
  }

  /** Multiplying by a friction factor in [0, 1] never makes a speed larger. */
  lemma FrictionSlows(v: real, f: real)
    ensures 0.0 <= f <= 1.0 ==> Abs(v * f) <= Abs(v)
  {
    if 0.0 <= f <= 1.0 {
      if v >= 0.0 {
        assert v * (1.0 - f) >= 0.0;
        assert 0.0 <= v * f <= v;
      } else {
        var w := -v;
        assert w * f >= 0.0;
        assert w * (1.0 - f) == w - w * f;
        assert w * 1.0 >= w * f by { assert w * (1.0 - f) >= 0.0; }
        assert Abs(v * f) == w * f;
      }
    }
  }

  /** The character entity's game state. */
  class Character {
    const tuning: Tuning
    var pos: Vec
    var velocity: Vec
    var onGround: bool
    var jumped: int
    var jumpedTotal: int
    var direction: int
    var health: int
    var armor: int
    var alive: bool
    var activeWeapon: int
    var weapons: map<int, Slot>
    var canShoot: bool
    var shootCooldown: int
    var isMoving: bool
    var lastMoveDirection: int
    var spawnTick: real

    /**
     * The jump bits stay within the two the code uses, the air jumps
     * within those allowed, and the active weapon is in the inventory.
     */
    ghost predicate Valid()
      reads this
    {
      0 <= jumped < 4 && 0 <= jumpedTotal <= Jumps - 1 && activeWeapon in weapons
    }

    /** A fresh character: alive with 10 health, no armor, the hammer in hand, ready to shoot. */
    constructor (tuning: Tuning, pos: Vec)
      ensures Valid() && this.tuning == tuning && this.pos == pos && velocity == Zero
      ensures health == StartHealth && armor == 0 && alive && canShoot && shootCooldown == 0
      ensures weapons == StartWeapons && activeWeapon == 0 && jumped == 0 && jumpedTotal == 0 && !onGround
    {
      this.tuning := tuning;
      this.pos := pos;
      velocity := Zero;
      onGround := false;
      jumped := 0;
      jumpedTotal := 0;
      direction := 0;
      health := StartHealth;
      armor := 0;
      alive := true;
      activeWeapon := 0;
      weapons := StartWeapons;
      canShoot := true;
      shootCooldown := 0;
      isMoving := false;
      lastMoveDirection := 0;
      spawnTick := 0.0;
    }

    /**
     * `jump`: from the ground always, clearing the air-jump bit and the air
     * jump count; in the air only while fewer than `jumps - 1` air jumps
     * were made, counting one more and setting the bit. A ground jump sets
     * the upward ground impulse; an air jump the air impulse, and speeds a
     * slow horizontal motion up by a tenth.
     */
    method Jump() returns (jumpedNow: bool)
      requires Valid()
      modifies this
      ensures Valid()
      ensures jumpedNow <==> old(onGround) || old(jumpedTotal) < Jumps - 1
      ensures old(onGround) ==> (jumpedTotal == 0 && !HasBit(jumped, 2) && HasBit(jumped, 1) == HasBit(old(jumped), 1)
        && velocity == Vec(old(velocity).x, -tuning.groundJumpImpulse))
      ensures !old(onGround) && jumpedNow ==> (jumpedTotal == old(jumpedTotal) + 1 && HasBit(jumped, 2)
        && HasBit(jumped, 1) == HasBit(old(jumped), 1) && velocity.y == -tuning.airJumpImpulse
        && velocity.x == (if Abs(old(velocity).x) < tuning.airControlSpeed then old(velocity).x * 1.1 else old(velocity).x))
      ensures !jumpedNow ==> jumped == old(jumped) && jumpedTotal == old(jumpedTotal) && velocity == old(velocity)
      ensures onGround == old(onGround) && health == old(health) && weapons == old(weapons) && alive == old(alive)
    {
      jumpedNow := false;
      if onGround {
        jumpedNow := true;
        jumped := ClearBit(jumped, 2);
        jumpedTotal := 0;
      } else if jumpedTotal < Jumps - 1 {
        jumpedNow := true;
        jumpedTotal := jumpedTotal + 1;
        jumped := SetBit(jumped, 2);
      }
      if jumpedNow {
        if onGround {
          velocity := velocity.(y := -tuning.groundJumpImpulse);
        } else {
          velocity := velocity.(y := -tuning.airJumpImpulse);
          if Abs(velocity.x) < tuning.airControlSpeed {
            velocity := velocity.(x := velocity.x * 1.1);
          }
        }
      }
    }

    /**
     * `take_damage`: nothing for a dead character. Otherwise armor takes
     * `min(armor, amount)` when there is armor, the rest lowers health,
     * and health at or below 0 kills.
     */
    method TakeDamage(amount: int)
      requires Valid()
      modifies this
      ensures Valid()
      ensures !old(alive) ==> health == old(health) && armor == old(armor) && alive == old(alive)
      ensures old(alive) ==>
        var absorbed := if old(armor) > 0 then Min(old(armor) as real, amount as real).Floor else 0;
        var rest := amount - absorbed;
        && armor == old(armor) - absorbed
        && (rest <= 0 ==> health == old(health) && alive)
        && (rest > 0 && old(health) - rest > 0 ==> health == old(health) - rest && alive)
        && (rest > 0 && old(health) - rest <= 0 ==> Dead())
      ensures old(alive) && amount >= 0 ==> 0 <= old(armor) - armor <= amount && (old(armor) > 0 ==> armor >= 0)
      ensures old(alive) && amount >= 0 && alive ==> (old(armor) + old(health)) - (armor + health) == amount
      ensures weapons == old(weapons) && activeWeapon == old(activeWeapon)
    {
      if !alive {
        return;
      }
      var remaining;
      if armor > 0 {
        var armorDamage := if armor < amount then armor else amount;
        assert armorDamage == Min(armor as real, amount as real).Floor;
        armor := armor - armorDamage;
        remaining := amount - armorDamage;
      } else {
        remaining := amount;
      }
      if remaining > 0 {
        health := health - remaining;
        if health <= 0 {
          Die();
        }
      }
    }

    /** The state `die` leaves: dead, no health, at the origin at rest, jump counters cleared. */
    ghost predicate Dead()
      reads this
    {
      !alive && health == 0 && pos == Zero && velocity == Zero && !onGround && jumped == 0 && jumpedTotal == 0
    }

    /** `die`: the character is dead, at the origin, at rest, with its jump counters cleared. */
    method Die()
      requires Valid()
      modifies this
      ensures Valid() && Dead()
      ensures armor == old(armor) && weapons == old(weapons) && activeWeapon == old(activeWeapon)
      ensures canShoot == old(canShoot) && shootCooldown == old(shootCooldown)
    {
      alive := false;
      health := 0;
      pos := Zero;
      velocity := Zero;
      onGround := false;
      jumped := 0;
      jumpedTotal := 0;
    }

    /** `respawn` at time `now`: alive with 10 health and no armor. */
    method Respawn(now: real)
      requires Valid()
      modifies this
      ensures Valid() && alive && health == StartHealth && armor == 0 && spawnTick == now
      ensures pos == old(pos) && weapons == old(weapons) && activeWeapon == old(activeWeapon)
    {
      alive := true;
      health := StartHealth;
      armor := 0;
      spawnTick := now;
    }

    /** The active weapon can fire now: shooting is enabled, it is owned, and it has ammunition or infinite ammunition. */
    predicate CanFire()
      requires Valid()
      reads this
      ensures CanFire() ==> canShoot && weapons[activeWeapon].got && weapons[activeWeapon].ammo != 0
    {
      canShoot && weapons[activeWeapon].got
        && (weapons[activeWeapon].ammo == Infinite || weapons[activeWeapon].ammo > 0)
    }

    /**
     * `fire_weapon`: nothing when it cannot fire; otherwise shooting is
     * disabled for the weapon's delay and exactly one round of finite
     * ammunition is used.
     */
    method FireWeapon()
      requires Valid()
      modifies this
      ensures Valid()
      ensures !old(CanFire()) ==> canShoot == old(canShoot) && shootCooldown == old(shootCooldown) && weapons == old(weapons)
      ensures old(CanFire()) ==> !canShoot && shootCooldown == FireDelay(tuning, activeWeapon)
      ensures old(CanFire()) ==> (var s := old(weapons[activeWeapon]);
        weapons == old(weapons)[activeWeapon := if s.ammo == Infinite then s else s.(ammo := s.ammo - 1)])
      ensures activeWeapon == old(activeWeapon) && health == old(health) && alive == old(alive)
      ensures forall w :: w in weapons && old(weapons)[w].ammo >= 0 ==> weapons[w].ammo >= 0
    {
      if !canShoot {
        return;
      }
      var weapon := activeWeapon;
      if !weapons[weapon].got {
        return;
      }
      if weapons[weapon].ammo != Infinite && weapons[weapon].ammo <= 0 {
        return;
      }
      canShoot := false;
      shootCooldown := FireDelay(tuning, weapon);
      if weapons[weapon].ammo != Infinite {
        weapons := weapons[weapon := weapons[weapon].(ammo := weapons[weapon].ammo - 1)];
      }
    }

    /** `set_weapon`: switch only to a weapon of the inventory that is owned. */
    method SetWeapon(weapon: int)
      requires Valid()
      modifies this
      ensures Valid() && weapons == old(weapons)
      ensures activeWeapon == if weapon in weapons && weapons[weapon].got then weapon else old(activeWeapon)
    {
      if weapon in weapons && weapons[weapon].got {
        activeWeapon := weapon;
      }
    }

    /** `give_weapon`: an inventory weapon becomes owned and gains `ammo` unless its ammunition is infinite; unknown ids change nothing. */
    method GiveWeapon(weapon: int, ammo: int)
      requires Valid()
      modifies this
      ensures Valid() && activeWeapon == old(activeWeapon) && weapons.Keys == old(weapons).Keys
      ensures weapon !in old(weapons) ==> weapons == old(weapons)
      ensures weapon in old(weapons) ==> weapons == old(weapons)[weapon :=
        Slot(true, if old(weapons)[weapon].ammo == Infinite then Infinite else old(weapons)[weapon].ammo + ammo)]
    {
      if weapon in weapons {
        var s := weapons[weapon];
        weapons := weapons[weapon := Slot(true, if s.ammo != Infinite then s.ammo + ammo else s.ammo)];
      }
    }

    /** `update_cooldowns`: while shooting is disabled the cooldown counts down, and shooting is enabled again once it reaches 0. */
    method UpdateCooldowns()
      requires Valid()
      modifies this
      ensures Valid()
      ensures old(canShoot) ==> canShoot && shootCooldown == old(shootCooldown)
      ensures !old(canShoot) ==> shootCooldown == old(shootCooldown) - 1 && (canShoot <==> shootCooldown <= 0)
      ensures weapons == old(weapons) && activeWeapon == old(activeWeapon) && health == old(health)
      ensures pos == old(pos) && velocity == old(velocity) && onGround == old(onGround)
      ensures jumpedTotal == old(jumpedTotal) && alive == old(alive)
    {
      if !canShoot {
        shootCooldown := shootCooldown - 1;
        if shootCooldown <= 0 {
          canShoot := true;
        }
      }
    }

    /**
     * The first half of `handle_physics`: gravity, the direction from the
     * held keys (left wins), and the horizontal rule for the current
     * ground state.
     */
    method ApplyControl(leftHeld: bool, rightHeld: bool)
      requires Valid()
      modifies this
      ensures Valid()
      ensures direction == (if leftHeld then -1 else if rightHeld then 1 else 0)
      ensures velocity == Vec(Steer(old(velocity).x, direction, onGround, tuning), old(velocity).y - tuning.gravity)
      ensures isMoving <==> direction != 0
      ensures direction != 0 ==> lastMoveDirection == direction
      ensures pos == old(pos) && onGround == old(onGround) && jumped == old(jumped) && jumpedTotal == old(jumpedTotal)
      ensures health == old(health) && weapons == old(weapons) && alive == old(alive) && canShoot == old(canShoot)
      ensures activeWeapon == old(activeWeapon) && shootCooldown == old(shootCooldown)
    {
      velocity := velocity.(y := velocity.y - tuning.gravity);
      direction := if leftHeld then -1 else if rightHeld then 1 else 0;
      velocity := velocity.(x := Steer(velocity.x, direction, onGround, tuning));
      if direction != 0 {
        isMoving := true;
        lastMoveDirection := direction;
      } else {
        isMoving := false;
      }
    }

    /**
     * The second half of `handle_physics`: take the position, velocity
     * and ground state the physics move returned, and track the jump bits:
     * on the ground the air-jump bit and the air jump count clear, in the
     * air the jump bit is set.
     */
    method Land(movedPos: Vec, movedVel: Vec, grounded: bool)
      requires Valid()
      modifies this
      ensures Valid()
      ensures pos == movedPos && velocity == movedVel && onGround == grounded
      ensures grounded ==> jumpedTotal == 0 && !HasBit(jumped, 2) && HasBit(jumped, 1) == HasBit(old(jumped), 1)
      ensures !grounded ==> jumpedTotal == old(jumpedTotal) && HasBit(jumped, 1) && HasBit(jumped, 2) == HasBit(old(jumped), 2)
      ensures health == old(health) && weapons == old(weapons) && alive == old(alive) && canShoot == old(canShoot)
      ensures activeWeapon == old(activeWeapon) && shootCooldown == old(shootCooldown)
    {
      pos := movedPos;
      velocity := movedVel;
      onGround := grounded;
      if onGround {
        jumped := ClearBit(jumped, 2);
        jumpedTotal := 0;
      } else if !HasBit(jumped, 1) {
        jumped := SetBit(jumped, 1);
      }
    }

    /**
     * `handle_physics` without the hook drag: control, then the physics
     * move `move(position, velocity)` (which returns the new position,
     * velocity and ground state), then the jump bookkeeping.
     */
    method HandlePhysics(leftHeld: bool, rightHeld: bool, move: (Vec, Vec) -> (Vec, Vec, bool))
      requires Valid()
      modifies this
      ensures Valid()
      ensures var d := if leftHeld then -1 else if rightHeld then 1 else 0;
        (pos, velocity, onGround) ==
        move(old(pos), Vec(Steer(old(velocity).x, d, old(onGround), tuning), old(velocity).y - tuning.gravity))
      ensures onGround ==> jumpedTotal == 0
      ensures health == old(health) && weapons == old(weapons) && alive == old(alive) && canShoot == old(canShoot)
      ensures activeWeapon == old(activeWeapon) && shootCooldown == old(shootCooldown)
    {
      ApplyControl(leftHeld, rightHeld);
      var moved := move(pos, velocity);
      Land(moved.0, moved.1, moved.2);
    }

    /** `update`: a dead character does nothing; a live one runs its physics, then its cooldown. */
    method Update(leftHeld: bool, rightHeld: bool, move: (Vec, Vec) -> (Vec, Vec, bool))
      requires Valid()
      modifies this
      ensures Valid()
      ensures !old(alive) ==> unchanged(this)
      ensures old(alive) ==> var d := if leftHeld then -1 else if rightHeld then 1 else 0;
        (pos, velocity, onGround) ==
        move(old(pos), Vec(Steer(old(velocity).x, d, old(onGround), tuning), old(velocity).y - tuning.gravity))
      ensures old(alive) && onGround ==> jumpedTotal == 0
      ensures old(alive) ==> health == old(health) && weapons == old(weapons) && alive && activeWeapon == old(activeWeapon)
      ensures old(alive) && old(canShoot) ==> canShoot && shootCooldown == old(shootCooldown)
      ensures old(alive) && !old(canShoot) ==> shootCooldown == old(shootCooldown) - 1
    {
      if !alive {
        return;
      }
      HandlePhysics(leftHeld, rightHeld, move);
      UpdateCooldowns();
    }
  }
}

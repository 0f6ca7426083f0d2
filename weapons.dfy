/**
 * The weapon system of `arcgame/game/weapons.py`: weapons with a fire
 * rate, ammunition and reloading; the bullets and grenades they create;
 * and the manager that hands out weapons and steps the live projectiles.
 * Times are seconds given by the caller.
 */
module Weapons {
  import opened Wrappers
  import opened Vec2
  import opened Collision
  import opened ListView

  datatype Kind = Hammer | Gun | Shotgun | Grenade | Rifle

  /** An ammunition amount; `float('inf')` is `Unlimited`. */
  datatype Amount = Unlimited | Rounds(n: int)

  /** The constructor arguments each weapon passes to the base class. */
  datatype Stats = Stats(name: string, fireRate: real, damage: int, ammo: Amount, reloadTime: real)

  function StatsOf(k: Kind): Stats
  {
    match k
    case Hammer => Stats("hammer", 0.2, 3, Unlimited, 0.0)
    case Gun => Stats("gun", 0.15, 1, Rounds(10), 2.0)
    case Shotgun => Stats("shotgun", 0.7, 1, Rounds(5), 2.5)
    case Grenade => Stats("grenade", 0.5, 5, Rounds(3), 3.0)
    case Rifle => Stats("rifle", 0.8, 4, Rounds(10), 2.5)
  }

  /** The keys of the weapon manager's table. */
  function KindNamed(name: string): (r: Option<Kind>)
    ensures r.Some? <==> name in {"hammer", "gun", "shotgun", "grenade", "rifle"}
  {
    match name
    case "hammer" => Some(Hammer)
    case "gun" => Some(Gun)
    case "shotgun" => Some(Shotgun)
    case "grenade" => Some(Grenade)
    case "rifle" => Some(Rifle)
    case _ => None
  }

  /** Each weapon is found under its own name, and a found name is that weapon's. */
  lemma NamesRoundTrip(k: Kind, name: string)
    ensures KindNamed(StatsOf(k).name) == Some(k)
    ensures KindNamed(name).Some? ==> StatsOf(KindNamed(name).value).name == name
  {
  }

  /** How many projectiles one shot creates: none for the hammer, `pellet_count` 8 for the shotgun, one otherwise. */
  function ShotCount(k: Kind): nat
  {
    match k
    case Hammer => 0
    case Shotgun => 8
    case _ => 1
  }

  /** The spread of pellet `i`: `spread_angle * (i - pellet_count/2) / (pellet_count/2)`. */
  function PelletAngle(i: int): (a: real)
    ensures 0 <= i < 8 ==> -0.2 <= a < 0.2
  {
    0.2 * (i as real - 4.0) / 4.0
  }

  /** A bullet or a grenade; the grenade carries its explosion radius. */
  datatype Shape = BulletShape(isRifle: bool) | GrenadeShape(explosionRadius: real)

  const GrenadeGravity := Vec(0.0, 400.0)
  const BounceFactor := 0.4

  /**
   * One grenade step: fall under gravity (0, 400) and move; on entering a
   * solid tile stay at the previous position and bounce. The new position
   * and velocity.
   */
  function GrenadeMove(world: CollisionWorld?, pos: Vec, vel: Vec, dt: real): (r: (Vec, Vec))
    requires world != null ==> world.Valid()
    reads world, if world != null then world.Repr() else {}
  {
    var fallen := Add(vel, Scale(GrenadeGravity, dt));
    var moved := Add(pos, Scale(fallen, dt));
    if world != null && world.CollidePoint(moved) then (pos, Bounce(fallen)) else (moved, fallen)
  }

  /** A grenade step either moves on with the fallen velocity or stays where it was. */
  lemma GrenadeMovesOrStays(world: CollisionWorld?, pos: Vec, vel: Vec, dt: real)
    requires world != null ==> world.Valid()
    ensures var fallen := Add(vel, Scale(GrenadeGravity, dt));
      GrenadeMove(world, pos, vel, dt) == (Add(pos, Scale(fallen, dt)), fallen) || GrenadeMove(world, pos, vel, dt).0 == pos
  {
  }

  /** A step never leaves a grenade faster than its fall made it. */
  lemma {:induction false} GrenadeBounceSlows(world: CollisionWorld?, pos: Vec, vel: Vec, dt: real)
    requires world != null ==> world.Valid()
    ensures LengthSq(GrenadeMove(world, pos, vel, dt).1) <= LengthSq(Add(vel, Scale(GrenadeGravity, dt)))
  {
    BounceSlows(Add(vel, Scale(GrenadeGravity, dt)));
  }

  /**
   * The bounce off a wall: the velocity reversed and scaled by 0.4
   * horizontally and 0.28 vertically, or nothing at all below speed 50 (a
   * squared speed below 2500).
   */
  function Bounce(v: Vec): Vec
  {
    var bounced := Vec(v.x * -BounceFactor, v.y * (-BounceFactor * 0.7));
    if LengthSq(bounced) < 2500.0 then Zero else bounced
  }

  /** A bounce never speeds a grenade up. */
  lemma BounceSlows(v: Vec)
    ensures LengthSq(Bounce(v)) <= LengthSq(v)
  {
    var bounced := Vec(v.x * -BounceFactor, v.y * (-BounceFactor * 0.7));
    ScaleShrinks(v.x, -BounceFactor);
    ScaleShrinks(v.y, -BounceFactor * 0.7);
    assert LengthSq(bounced) <= LengthSq(v);
    if LengthSq(bounced) < 2500.0 {
      assert Bounce(v) == Zero;
      LengthSqPositive(Zero);
    } else {
      assert Bounce(v) == bounced;
    }
  }

  /** Multiplying by a factor of magnitude at most 1 never makes a square larger. */
  lemma ScaleShrinks(a: real, f: real)
    requires -1.0 <= f <= 1.0
    ensures Square(a * f) <= Square(a)
  {
    assert Square(a * f) == Square(a) * (f * f);
    assert 0.0 <= f * f <= 1.0 by {
      if f >= 0.0 {
        assert f * f <= f * 1.0;
      } else {
        assert f * f <= (-f) * 1.0;
      }
    }
    SquareNonNegative(a);
    assert Square(a) * (f * f) <= Square(a) * 1.0;
  }

  /** The part of a projectile that an update changes. */
  datatype Flight = Flight(position: Vec, velocity: Vec, age: real, shouldRemove: bool, hasCollided: bool, hasExploded: bool)

  /**
   * `Projectile.update` on the state `s` of a projectile with the given
   * lifetime: age; at the end of the lifetime be marked for removal
   * without moving; otherwise move by `velocity * dt` and be collided and
   * marked when the new position is solid.
   */
  function BulletStep(s: Flight, lifetime: real, dt: real, world: CollisionWorld?): (r: Flight)
    requires world != null ==> world.Valid()
    reads world, if world != null then world.Repr() else {}
    ensures s.shouldRemove ==> r == s
    ensures !s.shouldRemove ==> r.age == s.age + dt && r.velocity == s.velocity && r.hasExploded == s.hasExploded
    ensures !s.shouldRemove && r.age >= lifetime ==> r.shouldRemove && r.position == s.position && r.hasCollided == s.hasCollided
    ensures !s.shouldRemove && r.age < lifetime ==> (r.position == Add(s.position, Scale(s.velocity, dt))
      && (r.hasCollided <==> s.hasCollided || (world != null && world.CollidePoint(r.position)))
      && (r.shouldRemove <==> world != null && world.CollidePoint(r.position)))
  {
    if s.shouldRemove then s
    else if s.age + dt >= lifetime then s.(age := s.age + dt, shouldRemove := true)
    else
      var moved := Add(s.position, Scale(s.velocity, dt));
      var hit := world != null && world.CollidePoint(moved);
      s.(position := moved, age := s.age + dt, hasCollided := s.hasCollided || hit, shouldRemove := hit)
  }

  /**
   * `GrenadeProjectile.update` on the state `s` of a grenade with the
   * given explosion delay: fall and bounce as `GrenadeMove` says, age,
   * and explode (marked for removal) at the end of the delay.
   */
  function GrenadeStep(s: Flight, lifetime: real, dt: real, world: CollisionWorld?): (r: Flight)
    requires world != null ==> world.Valid()
    reads world, if world != null then world.Repr() else {}
    ensures s.shouldRemove ==> r == s
    ensures !s.shouldRemove ==> (r.position, r.velocity) == GrenadeMove(world, s.position, s.velocity, dt)
    ensures !s.shouldRemove ==> (r.age == s.age + dt && (r.shouldRemove <==> r.age >= lifetime)
      && (r.hasExploded <==> s.hasExploded || r.age >= lifetime) && r.hasCollided == s.hasCollided)
  {
    if s.shouldRemove then s
    else
      var (p, v) := GrenadeMove(world, s.position, s.velocity, dt);
      var done := s.age + dt >= lifetime;
      Flight(p, v, s.age + dt, done, s.hasCollided, s.hasExploded || done)
  }

  /** One update of a projectile of the given shape: the bullet rule or the grenade rule. */
  function Advanced(s: Flight, shape: Shape, lifetime: real, dt: real, world: CollisionWorld?): (r: Flight)
    requires world != null ==> world.Valid()
    reads world, if world != null then world.Repr() else {}
    ensures s.shouldRemove ==> r == s
    ensures !s.shouldRemove ==> r.age == s.age + dt && (r.age >= lifetime ==> r.shouldRemove)
    ensures shape.BulletShape? ==> r == BulletStep(s, lifetime, dt, world)
    ensures shape.GrenadeShape? ==> r == GrenadeStep(s, lifetime, dt, world)
  {
    if shape.BulletShape? then BulletStep(s, lifetime, dt, world) else GrenadeStep(s, lifetime, dt, world)
  }

  /** `Projectile` with its two subclasses `Bullet` and `GrenadeProjectile`. */
  class Projectile {
    const shape: Shape
    var position: Vec
    var velocity: Vec
    const damage: int
    const lifetime: real
    var age: real
    const owner: object?
    var shouldRemove: bool
    var hasCollided: bool
    var hasExploded: bool

    /** What an update may change. */
    function State(): (f: Flight)
      reads this
      ensures f.position == position && f.velocity == velocity && f.age == age
      ensures f.shouldRemove == shouldRemove && f.hasCollided == hasCollided && f.hasExploded == hasExploded
    {
      Flight(position, velocity, age, shouldRemove, hasCollided, hasExploded)
    }

    /** A live projectile of age 0. */
    predicate Launched()
      reads this
    {
      age == 0.0 && !shouldRemove && !hasCollided && !hasExploded
    }

    /** `Bullet(...)`. */
    constructor Bullet(position: Vec, velocity: Vec, damage: int, lifetime: real, owner: object?, isRifle: bool)
      ensures Launched() && shape == BulletShape(isRifle) && this.position == position && this.velocity == velocity
      ensures this.damage == damage && this.lifetime == lifetime && this.owner == owner
    {
      shape := BulletShape(isRifle);
      this.position := position;
      this.velocity := velocity;
      this.damage := damage;
      this.lifetime := lifetime;
      age := 0.0;
      this.owner := owner;
      shouldRemove := false;
      hasCollided := false;
      hasExploded := false;
    }

    /** `GrenadeProjectile(...)`: its lifetime is the explosion delay. */
    constructor Thrown(position: Vec, velocity: Vec, damage: int, explosionRadius: real, explosionDelay: real, owner: object?)
      ensures Launched() && shape == GrenadeShape(explosionRadius) && this.position == position && this.velocity == velocity
      ensures this.damage == damage && this.lifetime == explosionDelay && this.owner == owner
    {
      shape := GrenadeShape(explosionRadius);
      this.position := position;
      this.velocity := velocity;
      this.damage := damage;
      this.lifetime := explosionDelay;
      age := 0.0;
      this.owner := owner;
      shouldRemove := false;
      hasCollided := false;
      hasExploded := false;
    }

    /** The bullet radius: 1 for a rifle bullet, 2 otherwise. */
    function Radius(): (r: int)
      requires shape.BulletShape?
      ensures r == if shape.isRifle then 1 else 2
    {
      if shape.isRifle then 1 else 2
    }

    /**
     * `check_collision`: a bullet hits an entity closer than 15 (a squared
     * distance below 225); the base class answers nothing, so a grenade
     * never hits this way.
     */
    predicate Hits(entityPos: Vec)
      reads this
      ensures Hits(entityPos) ==> shape.BulletShape?
      ensures shape.BulletShape? && entityPos == position ==> Hits(entityPos)
    {
      shape.BulletShape? && DistanceSq(position, entityPos) < 225.0
    }

    /** `update`: the new state is `Advanced` of the old one, by the projectile's own rule. */
    method Update(dt: real, world: CollisionWorld?)
      requires world != null ==> world.Valid()
      modifies this
      ensures State() == Advanced(old(State()), shape, lifetime, dt, world)
    {
      if shape.BulletShape? {
        UpdateBullet(dt, world);
      } else {
        UpdateGrenade(dt, world);
      }
    }

    /**
     * `Projectile.update`: age; at the end of the lifetime mark for
     * removal without moving; otherwise move by `velocity * dt` and mark a
     * projectile that entered a solid tile as collided and for removal.
     */
    method UpdateBullet(dt: real, world: CollisionWorld?)
      requires world != null ==> world.Valid()
      modifies this
      ensures State() == BulletStep(old(State()), lifetime, dt, world)
    {
      if shouldRemove {
        return;
      }
      age := age + dt;
      if age >= lifetime {
        shouldRemove := true;
        return;
      }
      position := Add(position, Scale(velocity, dt));
      if world != null && world.CollidePoint(position) {
        hasCollided := true;
        shouldRemove := true;
      }
    }

    /**
     * `GrenadeProjectile.update`: fall and bounce as `GrenadeMove` says,
     * then age, exploding and marking for removal at the end of the
     * lifetime.
     */
    method UpdateGrenade(dt: real, world: CollisionWorld?)
      requires world != null ==> world.Valid()
      modifies this
      ensures State() == GrenadeStep(old(State()), lifetime, dt, world)
    {
      if shouldRemove {
        return;
      }
      var (p, v) := GrenadeMove(world, position, velocity, dt);
      position, velocity := p, v;
      age := age + dt;
      if age >= lifetime {
        Explode();
      }
    }

    /** `explode`: exploded and marked for removal. */
    method Explode()
      modifies this
      ensures hasExploded && shouldRemove
      ensures position == old(position) && velocity == old(velocity) && age == old(age) && hasCollided == old(hasCollided)
    {
      hasExploded := true;
      shouldRemove := true;
    }
  }

  /** The hammer's swing area: centred half its range (40) along the aim, with radius 20. */
  function AttackArea(position: Vec, direction: Vec, sqrt: real -> real): (area: (Vec, real))
  {
    (Add(position, Scale(Normalize(direction, sqrt), 20.0)), 20.0)
  }

  /** For an actual aim, the swing's centre is exactly its radius away from the player. */
  lemma AttackAreaReach(position: Vec, direction: Vec, sqrt: real -> real)
    requires IsSqrt(sqrt) && direction != Zero
    ensures DistanceSq(AttackArea(position, direction, sqrt).0, position) == Square(AttackArea(position, direction, sqrt).1)
  {
    var n := Normalize(direction, sqrt);
    NormalizeUnit(direction, sqrt);
    ScaleLengthSq(n, 20.0);
    assert Sub(Add(position, Scale(n, 20.0)), position) == Scale(n, 20.0);
  }

  /** `Weapon` and its five subclasses, told apart by `kind`. */
  class Weapon {
    const kind: Kind
    const name: string
    const fireRate: real
    const damage: int
    const maxAmmo: Amount
    var ammo: Amount
    const reloadTime: real
    var lastFireTime: real
    var reloadStartTime: real
    var isReloading: bool

    /** The ammunition is unlimited exactly when the maximum is. */
    ghost predicate Valid()
      reads this
    {
      ammo.Unlimited? <==> maxAmmo.Unlimited?
    }

    /** A new weapon of the kind: its table values, full ammunition, not reloading, last fired at time 0. */
    constructor (kind: Kind)
      ensures Valid() && this.kind == kind
      ensures name == StatsOf(kind).name && fireRate == StatsOf(kind).fireRate && damage == StatsOf(kind).damage
      ensures maxAmmo == StatsOf(kind).ammo && reloadTime == StatsOf(kind).reloadTime
      ensures ammo == maxAmmo && lastFireTime == 0.0 && !isReloading
    {
      this.kind := kind;
      var st := StatsOf(kind);
      name := st.name;
      fireRate := st.fireRate;
      damage := st.damage;
      maxAmmo := st.ammo;
      ammo := st.ammo;
      reloadTime := st.reloadTime;
      lastFireTime := 0.0;
      reloadStartTime := 0.0;
      isReloading := false;
    }

    /** Finite ammunition at or below 0. */
    predicate Empty()
      reads this
    {
      ammo.Rounds? && ammo.n <= 0 && maxAmmo.Rounds?
    }

    /** `can_fire`: not reloading, not empty, and at least `fire_rate` since the last shot. */
    predicate CanFire(now: real)
      reads this
      ensures CanFire(now) ==> !isReloading && lastFireTime + fireRate <= now
      ensures CanFire(now) ==> ammo.Unlimited? || maxAmmo.Unlimited? || 0 < ammo.n
    {
      !isReloading && !Empty() && now - lastFireTime >= fireRate
    }

    /**
     * `fire`: when it cannot fire, no projectile and no change. Otherwise
     * one round of finite ammunition is used, the shot time recorded, and
     * the weapon's projectiles created.
     */
    method Fire(now: real, position: Vec, direction: Vec, shooter: object?, sqrt: real -> real, rotate: (Vec, real) -> Vec)
      returns (shots: seq<Projectile>)
      requires Valid()
      modifies this
      ensures Valid() && isReloading == old(isReloading) && reloadStartTime == old(reloadStartTime)
      ensures !old(CanFire(now)) ==> shots == [] && ammo == old(ammo) && lastFireTime == old(lastFireTime)
      ensures old(CanFire(now)) ==> (lastFireTime == now && Created(shots, position, direction, shooter, sqrt, rotate)
        && ammo == (if maxAmmo.Unlimited? then old(ammo) else Rounds(old(ammo).n - 1)))
      ensures old(ammo).Rounds? && old(ammo).n >= 0 ==> ammo.n >= 0
      ensures forall p :: p in shots ==> fresh(p)
    {
      if !CanFire(now) {
        return [];
      }
      if maxAmmo.Rounds? {
        ammo := Rounds(ammo.n - 1);
      }
      lastFireTime := now;
      shots := CreateProjectiles(position, direction, shooter, sqrt, rotate);
    }

    /**
     * The projectiles this weapon makes for a shot: none for the hammer; a
     * bullet at speed 700 (lifetime 2) for the gun; 8 pellets at speed 600
     * (lifetime 1.5), pellet `i` turned by `PelletAngle(i)`, for the
     * shotgun; a grenade at speed 500 (radius 100, delay 2); a rifle bullet
     * at speed 1200 (lifetime 3). All start live at `position` with the
     * weapon's damage and the shooter as owner.
     */
    predicate Created(shots: seq<Projectile>, position: Vec, direction: Vec, shooter: object?, sqrt: real -> real, rotate: (Vec, real) -> Vec)
      reads shots
    {
      |shots| == ShotCount(kind)
      && (forall p :: p in shots ==> p.Launched() && p.position == position && p.damage == damage && p.owner == shooter)
      && (kind == Gun ==> (shots[0].shape == BulletShape(false) && shots[0].lifetime == 2.0
        && shots[0].velocity == Scale(Normalize(direction, sqrt), 700.0)))
      && (kind == Rifle ==> (shots[0].shape == BulletShape(true) && shots[0].lifetime == 3.0
        && shots[0].velocity == Scale(Normalize(direction, sqrt), 1200.0)))
      && (kind == Grenade ==> (shots[0].shape == GrenadeShape(100.0) && shots[0].lifetime == 2.0
        && shots[0].velocity == Scale(Normalize(direction, sqrt), 500.0)))
      && (kind == Shotgun ==> forall i :: 0 <= i < 8 ==>
        shots[i].shape == BulletShape(false) && shots[i].lifetime == 1.5
        && shots[i].velocity == Scale(Normalize(rotate(direction, PelletAngle(i)), sqrt), 600.0))
    }

    /** `create_projectile` of each subclass: the projectiles `Created` describes, all new. */
    method CreateProjectiles(position: Vec, direction: Vec, shooter: object?, sqrt: real -> real, rotate: (Vec, real) -> Vec)
      returns (shots: seq<Projectile>)
      ensures Created(shots, position, direction, shooter, sqrt, rotate)
      ensures forall p :: p in shots ==> fresh(p)
    {
      if kind == Hammer {
        shots := [];
      } else if kind == Gun {
        var b := new Projectile.Bullet(position, Scale(Normalize(direction, sqrt), 700.0), damage, 2.0, shooter, false);
        shots := [b];
      } else if kind == Rifle {
        var b := new Projectile.Bullet(position, Scale(Normalize(direction, sqrt), 1200.0), damage, 3.0, shooter, true);
        shots := [b];
      } else if kind == Grenade {
        var g := new Projectile.Thrown(position, Scale(Normalize(direction, sqrt), 500.0), damage, 100.0, 2.0, shooter);
        shots := [g];
      } else {
        shots := [];
        var i := 0;
        while i < 8
          invariant 0 <= i <= 8 && |shots| == i
          invariant forall p :: p in shots ==> fresh(p) && p.Launched() && p.position == position && p.damage == damage && p.owner == shooter
          invariant forall j :: 0 <= j < i ==> (shots[j].shape == BulletShape(false) && shots[j].lifetime == 1.5
            && shots[j].velocity == Scale(Normalize(rotate(direction, PelletAngle(j)), sqrt), 600.0))
        {
          var b := new Projectile.Bullet(position, Scale(Normalize(rotate(direction, PelletAngle(i)), sqrt), 600.0), damage, 1.5, shooter, false);
          shots := shots + [b];
          i := i + 1;
        }
      }
    }

    /** `reload`: refused while reloading or with full ammunition; otherwise reloading from `now`. */
    method Reload(now: real) returns (started: bool)
      requires Valid()
      modifies this
      ensures Valid() && ammo == old(ammo) && lastFireTime == old(lastFireTime)
      ensures started <==> !old(isReloading) && old(ammo) != maxAmmo
      ensures started ==> isReloading && reloadStartTime == now
      ensures !started ==> isReloading == old(isReloading) && reloadStartTime == old(reloadStartTime)
    {
      if isReloading || ammo == maxAmmo {
        return false;
      }
      isReloading := true;
      reloadStartTime := now;
      return true;
    }

    /** `update`: a reload that has run for `reload_time` refills the ammunition and ends. */
    method Update(now: real)
      requires Valid()
      modifies this
      ensures Valid() && lastFireTime == old(lastFireTime) && reloadStartTime == old(reloadStartTime)
      ensures old(isReloading) && now - reloadStartTime >= reloadTime ==> ammo == maxAmmo && !isReloading
      ensures !(old(isReloading) && now - reloadStartTime >= reloadTime) ==> ammo == old(ammo) && isReloading == old(isReloading)
    {
      if isReloading && now - reloadStartTime >= reloadTime {
        ammo := maxAmmo;
        isReloading := false;
      }
    }
  }

  /** The projectiles not marked for removal, in order. */
  function Survivors(s: seq<Projectile>): (r: seq<Projectile>)
    reads s
    ensures forall i :: 0 <= i < |r| ==> r[i] in s && !r[i].shouldRemove
    ensures forall i :: 0 <= i < |s| && !s[i].shouldRemove ==> s[i] in r
  {
    if s == [] then [] else (if s[0].shouldRemove then [] else [s[0]]) + Survivors(s[1..])
  }

  /** The elements whose flag is false, in order. */
  function Unflagged<T>(s: seq<T>, flags: seq<bool>): (r: seq<T>)
    requires |s| == |flags|
    ensures |r| <= |s|
  {
    if s == [] then [] else (if flags[0] then [] else [s[0]]) + Unflagged(s[1..], flags[1..])
  }

  /** Unflagging a list extended by one element. */
  lemma {:induction false} UnflaggedAppend<T>(s: seq<T>, flags: seq<bool>, x: T, b: bool)
    requires |s| == |flags|
    ensures Unflagged(s + [x], flags + [b]) == Unflagged(s, flags) + (if b then [] else [x])
  {
    if s == [] {
      assert s + [x] == [x] && flags + [b] == [b];
    } else {
      assert (s + [x])[1..] == s[1..] + [x] && (flags + [b])[1..] == flags[1..] + [b];
      UnflaggedAppend(s[1..], flags[1..], x, b);
    }
  }

  /** The elements of `Unflagged(s, flags)` all come from `s`. */
  lemma {:induction false} UnflaggedIn<T>(s: seq<T>, flags: seq<bool>, x: T)
    requires |s| == |flags| && x in Unflagged(s, flags)
    ensures x in s
  {
    if s != [] && !(flags[0] && x == s[0]) && x != s[0] {
      UnflaggedIn(s[1..], flags[1..], x);
    }
  }

  /**
   * One step of `update_projectiles` on the list's contents: element `i`
   * of the copy is still in the list, and removing it when flagged keeps
   * the list between the rest of the copy and the copy.
   */
  lemma CountStep<T>(copy: seq<T>, i: nat, kept: seq<T>, b: bool)
    requires i < |copy|
    requires multiset(copy[i..]) <= multiset(kept) <= multiset(copy)
    ensures copy[i] in kept
    ensures var next := if b then RemoveFirst(kept, copy[i]) else kept;
      multiset(copy[i + 1..]) <= multiset(next) <= multiset(copy)
  {
    var x := copy[i];
    assert copy[i..] == [x] + copy[i + 1..];
    assert x in multiset(copy[i..]);
    if b {
      RemoveFirstCounts(kept, x);
    }
  }

  /**
   * One step of `update_projectiles` while element `i` of the copy is
   * met for the first time: the list is the unflagged visited prefix
   * followed by the unvisited rest.
   */
  lemma OrderStep<T>(done: seq<T>, flags: seq<bool>, x: T, rest: seq<T>, kept: seq<T>, b: bool)
    requires |done| == |flags| && x !in Unflagged(done, flags)
    requires kept == Unflagged(done, flags) + ([x] + rest)
    ensures x in kept
    ensures (if b then RemoveFirst(kept, x) else kept) == Unflagged(done + [x], flags + [b]) + rest
  {
    UnflaggedAppend(done, flags, x, b);
    DropBetween(Unflagged(done, flags), x, rest, b);
  }

  /** Cutting a list around position `i`. */
  lemma CutAt<T>(s: seq<T>, i: nat)
    requires i < |s|
    ensures s[i..] == [s[i]] + s[i + 1..] && s[..i + 1] == s[..i] + [s[i]]
  {
  }

  /** Element `i` differs from every element before it, so in particular from the unflagged ones. */
  ghost predicate FirstSeen<T>(copy: seq<T>, i: nat, flags: seq<bool>)
    requires i < |copy| && |flags| == i
  {
    (forall j :: 0 <= j < i ==> copy[j] != copy[i]) && copy[i] !in Unflagged(copy[..i], flags)
  }

  /** In a list without duplicates, every element is met for the first time. */
  lemma UniqueFirstSeen<T>(copy: seq<T>, i: nat, flags: seq<bool>)
    requires i < |copy| && |flags| == i && NoDuplicates(copy)
    ensures FirstSeen(copy, i, flags)
  {
    if copy[i] in Unflagged(copy[..i], flags) {
      UnflaggedIn(copy[..i], flags, copy[i]);
    }
  }

  /** Removing the first `x` from `pre + ([x] + rest)`, when `pre` has none, leaves `pre + rest`. */
  lemma DropBetween<T>(pre: seq<T>, x: T, rest: seq<T>, b: bool)
    requires x !in pre
    ensures x in pre + ([x] + rest)
    ensures (if b then RemoveFirst(pre + ([x] + rest), x) else pre + ([x] + rest)) == pre + (if b then [] else [x]) + rest
  {
    assert pre + ([x] + rest) == pre + [x] + rest;
    RemoveFirstAfter(pre, x, rest);
  }

  /** The states of the projectiles of `s`, in order. */
  ghost function States(s: seq<Projectile>): (r: seq<Flight>)
    reads s
    ensures |r| == |s| && forall j :: 0 <= j < |s| ==> r[j] == s[j].State()
  {
    if s == [] then [] else [s[0].State()] + States(s[1..])
  }

  /** Projectile `p`, which was in state `s`, has been updated once. */
  ghost predicate Stepped(p: Projectile, s: Flight, dt: real, world: CollisionWorld?)
    requires world != null ==> world.Valid()
    reads p, world, if world != null then world.Repr() else {}
  {
    p.State() == Advanced(s, p.shape, p.lifetime, dt, world)
  }

  /** The first `n` projectiles of `s` have each been updated once from their states in `before`. */
  ghost predicate SteppedUpTo(s: seq<Projectile>, before: seq<Flight>, n: nat, dt: real, world: CollisionWorld?)
    requires n <= |s| == |before| && (world != null ==> world.Valid())
    reads s, world, if world != null then world.Repr() else {}
  {
    forall j :: 0 <= j < n ==> Stepped(s[j], before[j], dt, world)
  }

  /** The projectiles of `s` from `n` on are still in their states in `before`. */
  ghost predicate UntouchedFrom(s: seq<Projectile>, before: seq<Flight>, n: nat)
    requires n <= |s| == |before|
    reads s
  {
    forall j :: n <= j < |s| ==> s[j].State() == before[j]
  }

  /** The first `i` flags are read off the first `i` projectiles. */
  ghost predicate Recorded(s: seq<Projectile>, i: nat, flags: seq<bool>)
    requires i <= |s| && |flags| == i
    reads s
  {
    forall j :: 0 <= j < i ==> s[j].shouldRemove == flags[j]
  }

  /** With the flags read off the projectiles, the survivors are the unflagged ones. */
  lemma {:induction false} SurvivorsAreUnflagged(s: seq<Projectile>, flags: seq<bool>)
    requires |s| == |flags| && forall j :: 0 <= j < |s| ==> s[j].shouldRemove == flags[j]
    ensures Survivors(s) == Unflagged(s, flags)
  {
    if s != [] {
      SurvivorsAreUnflagged(s[1..], flags[1..]);
    }
  }

  /** Once every projectile is visited, the list holds exactly the survivors of the copy. */
  lemma AllVisited(copy: seq<Projectile>, kept: seq<Projectile>, flags: seq<bool>)
    requires |flags| == |copy| && kept == Unflagged(copy[..|copy|], flags) + copy[|copy|..]
    requires Recorded(copy, |copy|, flags)
    ensures kept == Survivors(copy)
  {
    assert copy[..|copy|] == copy;
    SurvivorsAreUnflagged(copy, flags);
  }

  /** `WeaponManager`: the weapon table and the live projectiles. */
  class WeaponManager {
    var projectiles: seq<Projectile>

    constructor ()
      ensures projectiles == []
    {
      projectiles := [];
    }

    /** `get_weapon`: a new weapon for a table name, none for any other name. */
    method GetWeapon(name: string) returns (w: Weapon?)
      ensures KindNamed(name).None? ==> w == null
      ensures KindNamed(name).Some? ==> (w != null && fresh(w) && w.Valid() && w.kind == KindNamed(name).value
        && w.ammo == w.maxAmmo && !w.isReloading)
    {
      var k := KindNamed(name);
      if k.None? {
        w := null;
      } else {
        w := new Weapon(k.value);
      }
    }

    /** `add_projectile`. */
    method AddProjectile(p: Projectile)
      modifies this
      ensures projectiles == old(projectiles) + [p]
    {
      projectiles := projectiles + [p];
    }

    /**
     * `update_projectiles`: step each projectile of a copy of the list and
     * remove each one that ends up marked. For a list that holds each
     * projectile once, exactly the unmarked ones stay, in order.
     */
    method UpdateProjectiles(dt: real, world: CollisionWorld?)
      requires world != null ==> world.Valid()
      modifies this, set p | p in projectiles
      ensures NoDuplicates(old(projectiles)) ==> projectiles == Survivors(old(projectiles))
      ensures NoDuplicates(old(projectiles)) ==> SteppedUpTo(old(projectiles), old(States(projectiles)), |old(projectiles)|, dt, world)
      ensures multiset(projectiles) <= multiset(old(projectiles))
    {
      var copy := projectiles;
      var kept;
      ghost var flags, before;
      kept, flags, before := Sweep(copy, dt, world);
      assert world != null ==> this !in world.Repr();
      projectiles := kept;
      if NoDuplicates(copy) {
        AllVisited(copy, kept, flags);
      }
    }

    /**
     * What the loop of `update_projectiles` keeps after visiting `i`
     * projectiles of the copy: the list lies between the unvisited rest and
     * the copy, and for a copy without duplicates it is the unflagged
     * visited ones followed by the unvisited rest, the flags are the
     * visited projectiles' marks, the visited ones are updated once and the
     * others not yet.
     */
    static ghost predicate Swept(copy: seq<Projectile>, i: nat, kept: seq<Projectile>, flags: seq<bool>, unique: bool,
      before: seq<Flight>, dt: real, world: CollisionWorld?)
      reads copy, world, if world != null then world.Repr() else {}
    {
      i <= |copy| == |before| && |flags| == i && (world != null ==> world.Valid())
      && multiset(copy[i..]) <= multiset(kept) <= multiset(copy)
      && (unique ==> NoDuplicates(copy) && kept == Unflagged(copy[..i], flags) + copy[i..] && Recorded(copy, i, flags))
      && (unique ==> SteppedUpTo(copy, before, i, dt, world) && UntouchedFrom(copy, before, i))
    }

    /** The loop of `update_projectiles` over the copy `copy` of the list. */
    static method Sweep(copy: seq<Projectile>, dt: real, world: CollisionWorld?)
      returns (kept: seq<Projectile>, ghost flags: seq<bool>, ghost before: seq<Flight>)
      requires world != null ==> world.Valid()
      modifies set p | p in copy
      ensures |flags| == |copy| && multiset(kept) <= multiset(copy)
      ensures NoDuplicates(copy) ==> kept == Unflagged(copy[..|copy|], flags) + copy[|copy|..] && Recorded(copy, |copy|, flags)
      ensures before == old(States(copy))
      ensures NoDuplicates(copy) ==> SteppedUpTo(copy, before, |copy|, dt, world)
    {
      ghost var unique := NoDuplicates(copy);
      before := States(copy);
      flags := [];
      kept := copy;
      var i := 0;
      while i < |copy|
        invariant 0 <= i <= |copy| && before == old(States(copy))
        invariant Swept(copy, i, kept, flags, unique, before, dt, world)
      {
        kept, flags := Visit(copy, i, kept, flags, unique, before, dt, world);
        i := i + 1;
      }
    }

    /** One pass of the loop of `update_projectiles`: step projectile `i` of the copy and drop it from the list when marked. */
    static method Visit(copy: seq<Projectile>, i: nat, kept: seq<Projectile>, ghost flags: seq<bool>, ghost unique: bool,
      ghost before: seq<Flight>, dt: real, world: CollisionWorld?)
      returns (next: seq<Projectile>, ghost nextFlags: seq<bool>)
      requires i < |copy| && Swept(copy, i, kept, flags, unique, before, dt, world)
      modifies copy[i]
      ensures Swept(copy, i + 1, next, nextFlags, unique, before, dt, world)
    {
      if unique {
        UniqueFirstSeen(copy, i, flags);
      }
      var marked := Step(copy, i, flags, unique, before, dt, world);
      Drop(copy, i, kept, flags, unique, marked);
      next := if marked then RemoveFirst(kept, copy[i]) else kept;
      nextFlags := flags + [marked];
    }

    /**
     * The list side of one pass of the loop of `update_projectiles`: remove
     * projectile `i` of the copy from the list when it is marked.
     */
    static lemma Drop(copy: seq<Projectile>, i: nat, kept: seq<Projectile>, flags: seq<bool>, unique: bool, marked: bool)
      requires i < |copy| && |flags| == i
      requires multiset(copy[i..]) <= multiset(kept) <= multiset(copy)
      requires unique ==> FirstSeen(copy, i, flags) && kept == Unflagged(copy[..i], flags) + copy[i..]
      ensures copy[i] in kept
      ensures var next := if marked then RemoveFirst(kept, copy[i]) else kept;
        multiset(copy[i + 1..]) <= multiset(next) <= multiset(copy)
        && (unique ==> next == Unflagged(copy[..i + 1], flags + [marked]) + copy[i + 1..])
    {
      CountStep(copy, i, kept, marked);
      if unique {
        CutAt(copy, i);
        OrderStep(copy[..i], flags, copy[i], copy[i + 1..], kept, marked);
      }
    }

    /**
     * The projectile side of one pass of the loop of `update_projectiles`:
     * advance projectile `i` of the copy and report whether it is marked.
     * The projectiles before it keep their marks.
     */
    static method Step(copy: seq<Projectile>, i: nat, ghost flags: seq<bool>, ghost unique: bool, ghost before: seq<Flight>,
      dt: real, world: CollisionWorld?)
      returns (marked: bool)
      requires i < |copy| && |flags| == i && |before| == |copy| && (world != null ==> world.Valid())
      requires unique ==> FirstSeen(copy, i, flags) && Recorded(copy, i, flags) && NoDuplicates(copy)
      requires unique ==> SteppedUpTo(copy, before, i, dt, world) && UntouchedFrom(copy, before, i)
      modifies copy[i]
      ensures marked == copy[i].shouldRemove
      ensures Stepped(copy[i], old(copy[i].State()), dt, world)
      ensures unique ==> Recorded(copy, i + 1, flags + [marked])
      ensures unique ==> SteppedUpTo(copy, before, i + 1, dt, world) && UntouchedFrom(copy, before, i + 1)
    {
      var p := copy[i];
      p.Update(dt, world);
      marked := p.shouldRemove;
      if unique {
        forall j | 0 <= j < i + 1
          ensures copy[j].shouldRemove == (flags + [marked])[j]
          ensures Stepped(copy[j], before[j], dt, world)
        {
          if j < i {
            assert copy[j] != p;
            assert old(copy[j].shouldRemove) == flags[j];
            assert old(Stepped(copy[j], before[j], dt, world));
          }
        }
        forall j | i + 1 <= j < |copy|
          ensures copy[j].State() == before[j]
        {
          assert copy[j] != p;
        }
      }
    }

    /** `get_projectiles_in_radius`: the projectiles at most `radius` away, in order. */
    function InRadius(center: Vec, radius: real): (r: seq<Projectile>)
      reads this, set p | p in projectiles
      ensures forall i :: 0 <= i < |r| ==> r[i] in projectiles && radius >= 0.0 && DistanceSq(r[i].position, center) <= Square(radius)
      ensures forall i :: 0 <= i < |projectiles| && radius >= 0.0 && DistanceSq(projectiles[i].position, center) <= Square(radius) ==> projectiles[i] in r
    {
      Near(projectiles, center, radius)
    }
  }

  /** The projectiles of `s` at most `radius` away from `center`: a distance of at most `radius` is a squared distance of at most its square. */
  function Near(s: seq<Projectile>, center: Vec, radius: real): (r: seq<Projectile>)
    reads set p | p in s
    ensures forall i :: 0 <= i < |r| ==> r[i] in s && radius >= 0.0 && DistanceSq(r[i].position, center) <= Square(radius)
    ensures forall i :: 0 <= i < |s| && radius >= 0.0 && DistanceSq(s[i].position, center) <= Square(radius) ==> s[i] in r
  {
    if s == [] then []
    else
      (if radius >= 0.0 && DistanceSq(s[0].position, center) <= Square(radius) then [s[0]] else [])
        + Near(s[1..], center, radius)
  }
}

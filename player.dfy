/**
 * The player entity of `arcgame/game/entities/player.py`: health, death
 * and respawn, freeze and emote timers, the ammunition table, the input
 * whitelist, and the entity manager's player registry. Each player drives
 * its own `Physics.CharacterPhysics` component.
 */
module Player {
  import opened Wrappers
  import opened Vec2
  import opened Physics
  import opened ListView

  /** An ammunition count; the hammer's is infinite. */
  datatype Ammo = Infinity | Count(n: int)

  /** `count > 0`, with infinity above every number. */
  predicate Positive(a: Ammo)
  {
    a.Infinity? || a.n > 0
  }

  /** `min(10, count + amount)`: infinity plus a number is infinity, so the cap turns it into 10. */
  function Topped(a: Ammo, amount: int): (r: Ammo)
    ensures r.Count? && r.n <= 10
    ensures a.Count? && a.n + amount <= 10 ==> r == Count(a.n + amount)
    ensures a.Infinity? ==> r == Count(10)
  {
    match a
    case Infinity => Count(10)
    case Count(n) => Count(if n + amount < 10 then n + amount else 10)
  }

  /** `count -= 1`; infinity stays infinity. */
  function Spent(a: Ammo): (r: Ammo)
    ensures a.Count? ==> r == Count(a.n - 1)
    ensures a.Infinity? ==> r == Infinity
  {
    match a
    case Infinity => Infinity
    case Count(n) => Count(n - 1)
  }

  const WeaponNames: set<string> := {"hammer", "gun", "shotgun", "grenade", "rifle"}
  /** The weapons whose ammunition `update` consumes while fire is held. */
  const AmmoWeapons: set<string> := {"gun", "shotgun", "grenade", "rifle"}
  const StartAmmo: map<string, Ammo> := map[
    "hammer" := Infinity, "gun" := Count(10), "shotgun" := Count(5), "grenade" := Count(3), "rifle" := Count(10)]

  const InputKeys: set<string> := {"left", "right", "up", "down", "jump", "fire", "hook"}
  const NoInputs: map<string, bool> := map k | k in InputKeys :: false

  /**
   * A timer step: a running timer counts down by `dt` and stops at 0 once
   * it has run out; a timer at or below 0 is left alone.
   */
  function Countdown(t: real, dt: real): (r: real)
    ensures t <= 0.0 ==> r == t
    ensures t > 0.0 ==> r >= 0.0 && (r > 0.0 <==> t - dt > 0.0) && (r > 0.0 ==> r == t - dt)
    ensures t > 0.0 && dt >= 0.0 ==> r <= t
  {
    if t > 0.0 then (if t - dt <= 0.0 then 0.0 else t - dt) else t
  }

  /** `set_input`'s whitelist: each of the seven keys takes its value from `given` when present, and nothing else enters. */
  function Whitelisted(current: map<string, bool>, given: map<string, bool>): (r: map<string, bool>)
    requires current.Keys == InputKeys
    ensures r.Keys == InputKeys
    ensures forall k :: k in InputKeys && k in given ==> r[k] == given[k]
    ensures forall k :: k in InputKeys && k !in given ==> r[k] == current[k]
  {
    map k | k in InputKeys :: if k in given then given[k] else current[k]
  }

  /** Keys outside the whitelist change nothing. */
  lemma IgnoresOtherKeys(current: map<string, bool>, given: map<string, bool>)
    requires current.Keys == InputKeys
    requires forall k :: k in given ==> k !in InputKeys
    ensures Whitelisted(current, given) == current
  {
  }

  /** `Player`. */
  class Player {
    const playerId: int
    var name: string
    var team: int
    var score: int
    var lives: int
    const physics: CharacterPhysics
    var eyeEmotion: string
    var direction: int
    var health: int
    const maxHealth: int
    var ammoCounts: map<string, Ammo>
    var activeWeapon: string
    var isAlive: bool
    var freezeTime: real
    var jumpedTotal: int
    var emote: int
    var emoteExpire: real
    var input: map<string, bool>

    /** The ammunition table keeps the five weapons, the active one among them, and the input its seven keys. */
    ghost predicate Valid()
      reads this, physics, physics.collision, if physics.collision != null then physics.collision.Repr() else {}
    {
      && ammoCounts.Keys == WeaponNames && activeWeapon in ammoCounts
      && input.Keys == InputKeys && physics.Valid()
    }

    /** A new player at `pos`: 10 of 10 health, alive, unfrozen, the hammer in hand, no input held. */
    constructor (playerId: int, name: string, pos: Vec)
      ensures Valid() && this.playerId == playerId && this.name == name && physics.pos == pos
      ensures health == maxHealth == 10 && isAlive && freezeTime == 0.0 && score == 0 && team == 0
      ensures ammoCounts == StartAmmo && activeWeapon == "hammer" && input == NoInputs && emote == -1
      ensures fresh(physics)
    {
      this.playerId := playerId;
      this.name := name;
      team := 0;
      score := 0;
      lives := 3;
      var p := new CharacterPhysics(null);
      p.pos := pos;
      physics := p;
      eyeEmotion := "normal";
      direction := 1;
      health := 10;
      maxHealth := 10;
      ammoCounts := StartAmmo;
      activeWeapon := "hammer";
      isAlive := true;
      freezeTime := 0.0;
      jumpedTotal := 0;
      emote := -1;
      emoteExpire := 0.0;
      input := NoInputs;
    }

    /** The timers of `update`: the freeze timer runs out to 0; an emote whose timer runs out is cleared to -1. */
    method Tick(dt: real)
      requires Valid()
      modifies this
      ensures Valid()
      ensures freezeTime == Countdown(old(freezeTime), dt) && emoteExpire == Countdown(old(emoteExpire), dt)
      ensures emote == if old(emoteExpire) > 0.0 && emoteExpire == 0.0 then -1 else old(emote)
      ensures isAlive == old(isAlive) && input == old(input) && ammoCounts == old(ammoCounts)
      ensures activeWeapon == old(activeWeapon) && health == old(health) && direction == old(direction)
    {
      if freezeTime > 0.0 {
        freezeTime := freezeTime - dt;
        if freezeTime <= 0.0 {
          freezeTime := 0.0;
        }
      }
      if emoteExpire > 0.0 {
        emoteExpire := emoteExpire - dt;
        if emoteExpire <= 0.0 {
          emote := -1;
          emoteExpire := 0.0;
        }
      }
    }

    /**
     * The ammunition step of `update`: with fire held, a gun, shotgun,
     * grenade or rifle that has ammunition loses one round.
     */
    method ConsumeAmmo()
      requires Valid()
      modifies this
      ensures Valid()
      ensures ammoCounts == if activeWeapon in AmmoWeapons && input["fire"] && Positive(old(ammoCounts)[activeWeapon])
        then old(ammoCounts)[activeWeapon := Spent(old(ammoCounts)[activeWeapon])] else old(ammoCounts)
      ensures forall w :: w in ammoCounts && Positive(old(ammoCounts)[w]) ==> ammoCounts[w].Infinity? || ammoCounts[w].n >= 0
      ensures activeWeapon == old(activeWeapon) && input == old(input) && health == old(health) && isAlive == old(isAlive)
      ensures freezeTime == old(freezeTime) && emote == old(emote) && direction == old(direction)
    {
      if activeWeapon in AmmoWeapons {
        if input["fire"] && Positive(ammoCounts[activeWeapon]) {
          ammoCounts := ammoCounts[activeWeapon := Spent(ammoCounts[activeWeapon])];
        }
      }
    }

    /**
     * `update`: run the timers; unless still frozen or dead, hand the input
     * to the physics component, step it, and face the way it moves faster
     * than 0.1; then consume ammunition.
     */
    method Update(dt: real, sqrt: real -> real)
      requires Valid() && IsSqrt(sqrt)
      modifies this, physics
      ensures Valid()
      ensures freezeTime == Countdown(old(freezeTime), dt)
      ensures freezeTime <= 0.0 && isAlive ==> LengthSq(physics.vel) <= Square(MaxSpeed)
      ensures direction == (if freezeTime <= 0.0 && isAlive && physics.vel.x > 0.1 then 1
        else if freezeTime <= 0.0 && isAlive && physics.vel.x < -0.1 then -1 else old(direction))
      ensures isAlive == old(isAlive) && health == old(health) && activeWeapon == old(activeWeapon) && input == old(input)
      ensures freezeTime <= 0.0 && isAlive ==>
        physics.input == old(Overridden(physics.input, input)) &&
        physics.State() == old(Updated(physics.State(), Overridden(physics.input, input), dt, sqrt, physics.collision))
      ensures !(freezeTime <= 0.0 && isAlive) ==> physics.State() == old(physics.State()) && physics.input == old(physics.input)
      ensures ammoCounts == if activeWeapon in AmmoWeapons && input["fire"] && Positive(old(ammoCounts)[activeWeapon])
        then old(ammoCounts)[activeWeapon := Spent(old(ammoCounts)[activeWeapon])] else old(ammoCounts)
    {
      ghost var b := physics.State();
      ghost var given := Overridden(physics.input, input);
      Tick(dt);
      assert physics.collision != null ==>
        physics.collision.tileMap == old(physics.collision.tileMap) && physics.collision.Repr() == old(physics.collision.Repr());
      assert Updated(b, given, dt, sqrt, physics.collision) == old(Updated(b, given, dt, sqrt, physics.collision));
      Step(dt, sqrt);
      ConsumeAmmo();
    }

    /**
     * The movement part of `update`: unless frozen or dead, drive the
     * physics component and face the way it moves faster than 0.1.
     */
    method Step(dt: real, sqrt: real -> real)
      requires Valid() && IsSqrt(sqrt)
      modifies this, physics
      ensures Valid()
      ensures freezeTime <= 0.0 && isAlive ==> LengthSq(physics.vel) <= Square(MaxSpeed)
      ensures direction == (if freezeTime <= 0.0 && isAlive && physics.vel.x > 0.1 then 1
        else if freezeTime <= 0.0 && isAlive && physics.vel.x < -0.1 then -1 else old(direction))
      ensures freezeTime <= 0.0 && isAlive ==>
        physics.input == old(Overridden(physics.input, input)) &&
        physics.State() == old(Updated(physics.State(), Overridden(physics.input, input), dt, sqrt, physics.collision))
      ensures !(freezeTime <= 0.0 && isAlive) ==> physics.State() == old(physics.State()) && physics.input == old(physics.input)
      ensures freezeTime == old(freezeTime) && emote == old(emote) && isAlive == old(isAlive) && health == old(health)
      ensures activeWeapon == old(activeWeapon) && input == old(input) && ammoCounts == old(ammoCounts)
    {
      if freezeTime <= 0.0 && isAlive {
        Drive(dt, sqrt);
        if physics.vel.x > 0.1 {
          direction := 1;
        } else if physics.vel.x < -0.1 {
          direction := -1;
        }
      }
    }

    /** The physics part of `update`: hand the input to the physics component and step it. */
    method Drive(dt: real, sqrt: real -> real)
      requires Valid() && IsSqrt(sqrt)
      modifies physics
      ensures Valid() && LengthSq(physics.vel) <= Square(MaxSpeed)
      ensures physics.input == old(Overridden(physics.input, input))
      ensures physics.State() == old(Updated(physics.State(), Overridden(physics.input, input), dt, sqrt, physics.collision))
    {
      ghost var b := physics.State();
      ghost var given := Overridden(physics.input, input);
      physics.UpdateInput(input);
      assert physics.collision != null ==>
        physics.collision.tileMap == old(physics.collision.tileMap) && physics.collision.Repr() == old(physics.collision.Repr());
      assert Updated(b, given, dt, sqrt, physics.collision) == old(Updated(b, given, dt, sqrt, physics.collision));
      physics.Update(dt, sqrt);
    }

    /**
     * `take_damage`: nothing for a dead or frozen player. Otherwise health
     * drops by `amount`, and the result is whether that killed the player,
     * crediting `source`.
     */
    method TakeDamage(amount: int, source: Player?) returns (killed: bool)
      requires Valid()
      modifies this, physics, source
      ensures Valid()
      ensures !old(isAlive) || old(freezeTime) > 0.0 ==> !killed && health == old(health) && isAlive == old(isAlive)
      ensures old(isAlive) && old(freezeTime) <= 0.0 ==>
        (killed <==> old(health) - amount <= 0) && (killed ==> !isAlive && health == 0)
        && (!killed ==> isAlive && health == old(health) - amount)
      ensures killed && source != null ==> source.score == old(source.score) + 1
      ensures !killed && source != null ==> source.score == old(source.score)
      ensures ammoCounts == old(ammoCounts) && activeWeapon == old(activeWeapon)
    {
      if !isAlive || freezeTime > 0.0 {
        return false;
      }
      health := health - amount;
      if health <= 0 {
        Die(source);
        return true;
      }
      return false;
    }

    /** `heal`: health rises by `amount` but never above the maximum. */
    method Heal(amount: int)
      requires Valid()
      modifies this
      ensures Valid()
      ensures health <= maxHealth
      ensures old(health) + amount <= maxHealth ==> health == old(health) + amount
      ensures old(health) + amount > maxHealth ==> health == maxHealth
      ensures isAlive == old(isAlive) && ammoCounts == old(ammoCounts)
    {
      health := if maxHealth < health + amount then maxHealth else health + amount;
    }

    /**
     * `die`: dead with no health, the physics at rest with the hook idle,
     * and a killer (possibly the player itself) scores one point.
     */
    method Die(killer: Player?)
      requires Valid()
      modifies this, physics, killer
      ensures Valid()
      ensures !isAlive && health == 0 && eyeEmotion == "dead"
      ensures physics.vel == Zero && physics.hookState == Idle && physics.pos == old(physics.pos)
      ensures killer != null ==> killer.score == old(killer.score) + 1
      ensures killer != this ==> score == old(score)
      ensures ammoCounts == old(ammoCounts) && activeWeapon == old(activeWeapon) && input == old(input)
      ensures freezeTime == old(freezeTime)
    {
      isAlive := false;
      health := 0;
      eyeEmotion := "dead";
      physics.vel := Zero;
      physics.hookState := Idle;
      if killer != null {
        killer.score := killer.score + 1;
      }
    }

    /** `respawn` at `spawnPos`: alive at full health, unfrozen, at rest there with the jump counters cleared. */
    method Respawn(spawnPos: Vec)
      requires Valid()
      modifies this, physics
      ensures Valid()
      ensures isAlive && health == maxHealth && freezeTime == 0.0 && jumpedTotal == 0 && eyeEmotion == "normal"
      ensures physics.pos == spawnPos && physics.vel == Zero && physics.jumped == Fresh && !physics.doubleJumped
      ensures score == old(score) && ammoCounts == old(ammoCounts) && activeWeapon == old(activeWeapon)
    {
      isAlive := true;
      health := maxHealth;
      eyeEmotion := "normal";
      freezeTime := 0.0;
      jumpedTotal := 0;
      ResetBody(spawnPos);
    }

    /** The physics half of `respawn`: at `spawnPos`, at rest, both jumps available again. */
    method ResetBody(spawnPos: Vec)
      requires physics.Valid()
      modifies physics
      ensures physics.Valid()
      ensures physics.pos == spawnPos && physics.vel == Zero && physics.jumped == Fresh && !physics.doubleJumped
    {
      physics.pos, physics.vel, physics.jumped, physics.doubleJumped := spawnPos, Zero, Fresh, false;
    }

    /** `set_input`: only the seven known keys are copied. */
    method SetInput(given: map<string, bool>)
      requires Valid()
      modifies this
      ensures Valid() && input == Whitelisted(old(input), given)
      ensures ammoCounts == old(ammoCounts) && activeWeapon == old(activeWeapon) && health == old(health)
    {
      input := Whitelisted(input, given);
    }

    /**
     * `fire_weapon` (and the `use_*` helpers): a live, unfrozen player
     * fires the hammer always and the other weapons while they have
     * ammunition. Firing itself changes nothing.
     */
    predicate FireWeapon()
      requires Valid()
      reads this, physics, physics.collision, if physics.collision != null then physics.collision.Repr() else {}
    {
      isAlive && freezeTime <= 0.0 && (activeWeapon == "hammer" || Positive(ammoCounts[activeWeapon]))
    }

    /** `switch_weapon`: only to one of the five weapons; the result says whether it switched. */
    method SwitchWeapon(weapon: string) returns (ok: bool)
      requires Valid()
      modifies this
      ensures Valid() && ammoCounts == old(ammoCounts)
      ensures ok <==> weapon in WeaponNames
      ensures activeWeapon == if ok then weapon else old(activeWeapon)
    {
      if weapon in ammoCounts {
        activeWeapon := weapon;
        return true;
      }
      return false;
    }

    /** `add_ammo`: a known weapon's count becomes `min(10, count + amount)`; unknown names change nothing. */
    method AddAmmo(weapon: string, amount: int) returns (ok: bool)
      requires Valid()
      modifies this
      ensures Valid() && activeWeapon == old(activeWeapon)
      ensures ok <==> weapon in WeaponNames
      ensures ammoCounts == if ok then old(ammoCounts)[weapon := Topped(old(ammoCounts)[weapon], amount)] else old(ammoCounts)
    {
      if weapon in ammoCounts {
        ammoCounts := ammoCounts[weapon := Topped(ammoCounts[weapon], amount)];
        return true;
      }
      return false;
    }

    /** `freeze`: the freeze timer is set to `duration`. */
    method Freeze(duration: real)
      requires Valid()
      modifies this
      ensures Valid() && freezeTime == duration && health == old(health) && isAlive == old(isAlive)
    {
      freezeTime := duration;
    }

    /** `unfreeze`: the freeze timer is cleared. */
    method Unfreeze()
      requires Valid()
      modifies this
      ensures Valid() && freezeTime == 0.0 && health == old(health) && isAlive == old(isAlive)
    {
      freezeTime := 0.0;
    }

    /** `add_score`; `reset_score` is `score := 0`. */
    method AddScore(points: int)
      modifies this
      ensures score == old(score) + points && health == old(health)
    {
      score := score + points;
    }

    method ResetScore()
      modifies this
      ensures score == 0 && health == old(health)
    {
      score := 0;
    }
  }

  /** `EntityManager`'s player registry. */
  class EntityManager {
    var players: map<int, Player>
    var entities: seq<Player>

    /** Each registered player sits under its own id and appears in the entity list. */
    ghost predicate Valid()
      reads this
    {
      forall id :: id in players ==> players[id].playerId == id && players[id] in entities
    }

    constructor ()
      ensures Valid() && players == map[] && entities == []
    {
      players := map[];
      entities := [];
    }

    /** `add_player`: register the player under its id (replacing any earlier one) and append it to the entities. */
    method AddPlayer(p: Player)
      requires Valid()
      modifies this
      ensures Valid()
      ensures players == old(players)[p.playerId := p] && entities == old(entities) + [p]
    {
      players := players[p.playerId := p];
      entities := entities + [p];
    }

    /** `remove_player`: unregister the id and drop its player's first entry from the entities; an unknown id changes nothing. */
    method RemovePlayer(id: int)
      requires Valid()
      modifies this
      ensures Valid()
      ensures id !in old(players) ==> players == old(players) && entities == old(entities)
      ensures id in old(players) ==> players == old(players) - {id}
      ensures id in old(players) ==> entities == RemoveFirst(old(entities), old(players)[id])
      ensures id in old(players) ==> multiset(entities) == multiset(old(entities)) - multiset{old(players)[id]}
    {
      if id in players {
        var p := players[id];
        RemoveFirstCounts(entities, p);
        entities := RemoveFirst(entities, p);
        forall k | k in players && k != id
          ensures players[k] in entities
        {
          assert players[k] in multiset(old(entities)) && players[k] != p;
        }
        players := players - {id};
      }
    }

    /** `get_player`: the player under the id, or none. */
    function GetPlayer(id: int): (r: Option<Player>)
      reads this
      ensures r.Some? <==> id in players
      ensures r.Some? ==> r.value == players[id]
    {
      if id in players then Some(players[id]) else None
    }
  }
}

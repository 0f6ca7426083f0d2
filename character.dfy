/**
 * The tee character core of `arcgame/game/character.py` (`CharacterPhysics`):
 * jump bits, the hook state machine, the deferred player-pair pass with its
 * speed cap, and the stepped move. The world's character list is a roster of
 * slots; the character being ticked is the one in slot `me`.
 */
module Character {
  import opened Wrappers
  import opened Vec2
  import opened Collision

  // Hook states (`HookState`). The retract phase also passes through 2,
  // which the enumeration does not name.
  const HookRetracted: int := -1
  const HookIdle: int := 0
  const HookRetractStart: int := 1
  const HookRetractEnd: int := 3
  const HookFlying: int := 4
  const HookGrabbed: int := 5

  // Core events (`CoreEvent`), raised in `triggeredEvents`.
  const EventGroundJump: bv8 := 0x01
  const EventAirJump: bv8 := 0x02
  const EventHookLaunch: bv8 := 0x04
  const EventHookAttachPlayer: bv8 := 0x08
  const EventHookAttachGround: bv8 := 0x10
  const EventHookRetract: bv8 := 0x40

  /** `MAX_CLIENTS`: the passes over the world look at the first 64 slots only. */
  const MaxClients: nat := 64
  /** `PhysicalSize()`: the side of a tee's box. */
  const PhysicalSize: real := 28.0
  /** The hard cap on speed applied at the end of `tick_deferred`. */
  const SpeedLimit: real := 6000.0
  /** A player grab is released after more than `SERVER_TICK_SPEED + SERVER_TICK_SPEED / 5` ticks. */
  const HookGrabTicks: real := 60.0

  /** The tuning values the character core reads (`m_Tuning`). */
  datatype Tuning = Tuning(
    groundControlSpeed: real, groundControlAccel: real, groundFriction: real, groundJumpImpulse: real,
    airJumpImpulse: real, airControlSpeed: real, airControlAccel: real, airFriction: real,
    hookLength: real, hookFireSpeed: real, hookDragAccel: real, hookDragSpeed: real, gravity: real,
    velrampStart: real, velrampRange: real, velrampCurvature: real,
    playerCollision: bool, playerHooking: bool, hookDuration: real)

  /** DDNet's default tuning, with `SERVER_TICK_SPEED` = 50. */
  const DefaultTuning := Tuning(
    10.0, 2.0, 0.5, 13.2,
    12.0, 5.0, 1.5, 0.95,
    380.0, 80.0, 3.0, 15.0, 0.5,
    550.0, 2000.0, 1.4,
    true, true, 1.25)

  /** What the moves need of the tuning: a positive hook length and a well-defined velocity ramp. */
  predicate TuningValid(t: Tuning)
  {
    0.0 < t.hookLength && 0.0 < t.velrampRange && 0.0 < t.velrampCurvature
  }

  /** The player input the tick reads (`m_Input`); the target is relative to the tee. */
  datatype Input = Input(direction: int, targetX: real, targetY: real, jump: bool, hook: bool)

  /** The state of one character core. */
  datatype Core = Core(
    pos: Vec, vel: Vec,
    hookPos: Vec, hookDir: Vec, hookTeleBase: Vec, hookTick: real, hookState: int,
    attached: set<int>, hookedPlayer: int, newHook: bool,
    jumped: bv8, jumpedTotal: int, jumps: int,
    direction: int, input: Input, triggeredEvents: bv8,
    id: int, reset: bool, colliding: int, leftWall: bool,
    solo: bool, super: bool, collisionDisabled: bool, hookHitDisabled: bool)

  /** A fresh `CharacterPhysics`: at rest at the origin, hook idle, two jumps, no id. */
  const NewCore := Core(
    Zero, Zero, Zero, Zero, Zero, 0.0, HookIdle, {}, -1, false,
    0, 0, 2, 0, Input(0, 0.0, -1.0, false, false), 0,
    -1, false, 0, false, false, false, false, false)

  /**
   * `saturated_add`: a negative modifier never takes the value below `lo`
   * (and leaves a value already below `lo` alone); a non-negative one
   * never takes it above `hi` (and leaves a value already above `hi` alone).
   */
  function SaturatedAdd(lo: real, hi: real, current: real, modifier: real): (r: real)
    ensures modifier < 0.0 && current < lo ==> r == current
    ensures modifier < 0.0 && lo <= current ==> r == Max(lo, current + modifier)
    ensures 0.0 <= modifier && current > hi ==> r == current
    ensures 0.0 <= modifier && current <= hi ==> r == Min(hi, current + modifier)
  {
    if modifier < 0.0 then
      if current < lo then current
      else if current + modifier < lo then lo
      else current + modifier
    else
      if current > hi then current
      else if current + modifier > hi then hi
      else current + modifier
  }

  /**
   * What saturation guarantees: the value moves in the modifier's direction
   * but never past the band, a value inside `[lo, hi]` stays inside, and a
   * value outside the band is never pushed further out.
   */
  lemma SaturatedAddBounds(lo: real, hi: real, current: real, modifier: real)
    requires lo <= hi
    ensures var r := SaturatedAdd(lo, hi, current, modifier);
      && (modifier < 0.0 ==> r <= current)
      && (0.0 <= modifier ==> current <= r)
      && (lo <= current <= hi ==> lo <= r <= hi)
      && (current < lo ==> current <= r <= hi)
      && (current > hi ==> lo <= r <= current)
  {
  }

  /** `pow` on positive bases: positive, and at least 1 for a base above 1 and a non-negative exponent. */
  ghost predicate IsPow(pow: (real, real) -> real)
  {
    && (forall b, e :: 0.0 < b ==> 0.0 < pow(b, e))
    && (forall b, e :: 1.0 <= b && 0.0 <= e ==> 1.0 <= pow(b, e))
  }

  /**
   * `velocity_ramp`: 1 below `start`, otherwise `1 / curvature ^ ((value -
   * start) / range)`; so it is positive, and at most 1 for a curvature of
   * at least 1.
   */
  function VelocityRamp(value: real, start: real, range: real, curvature: real, pow: (real, real) -> real): (r: real)
    requires IsPow(pow) && 0.0 < range && 0.0 < curvature
    ensures value < start ==> r == 1.0
    ensures 0.0 < r
    ensures 1.0 <= curvature ==> r <= 1.0
  {
    if value < start then 1.0
    else
      var p := pow(curvature, (value - start) / range);
      assert 0.0 < p;
      assert 1.0 <= curvature ==> 1.0 <= p by {
        if 1.0 <= curvature {
          assert 0.0 <= (value - start) / range;
        }
      }
      1.0 / p
  }

  /** Bit 0 of `m_Jumped` (a jump made on the held input) and bit 1 (air jumps used up). */
  predicate HeldBit(jumped: bv8) { jumped & 1 != 0 }
  predicate SpentBit(jumped: bv8) { jumped & 2 != 0 }

  /** The jump bookkeeping the tick updates: the jump bits, the air-jump count, the vertical speed and the events. */
  datatype JumpState = JumpState(jumped: bv8, jumpedTotal: int, velY: real, events: bv8)

  /**
   * The jump input of `tick`. Holding jump after a jump on the same press
   * does nothing; otherwise a grounded tee (with air jumps left, or a
   * non-zero jump count) makes a ground jump, and an airborne one an air
   * jump while bit 1 is clear. Releasing jump clears bit 0 only.
   */
  function JumpInput(s: JumpState, pressed: bool, grounded: bool, jumps: int, t: Tuning): (r: JumpState)
    ensures pressed && HeldBit(s.jumped) ==> r == s
    ensures pressed && !HeldBit(s.jumped) && grounded && (!SpentBit(s.jumped) || jumps != 0) ==>
      && r.velY == -t.groundJumpImpulse && r.jumpedTotal == 0
      && r.jumped == (if jumps <= 1 then s.jumped | 3 else s.jumped | 1)
      && r.events == s.events | EventGroundJump
    ensures pressed && !HeldBit(s.jumped) && !(grounded && (!SpentBit(s.jumped) || jumps != 0)) ==>
      if SpentBit(s.jumped) then r == s
      else r == JumpState(s.jumped | 3, s.jumpedTotal + 1, -t.airJumpImpulse, s.events | EventAirJump)
    ensures !pressed ==> r == s.(jumped := s.jumped & !1) && !HeldBit(r.jumped)
    ensures s.jumped < 4 ==> r.jumped < 4
  {
    if pressed then
      if !HeldBit(s.jumped) then
        if grounded && (!SpentBit(s.jumped) || jumps != 0) then
          JumpState(if jumps > 1 then s.jumped | 1 else s.jumped | 3, 0, -t.groundJumpImpulse, s.events | EventGroundJump)
        else if !SpentBit(s.jumped) then
          JumpState(s.jumped | 3, s.jumpedTotal + 1, -t.airJumpImpulse, s.events | EventAirJump)
        else s
      else s
    else s.(jumped := s.jumped & !1)
  }

  /** Standing on the ground gives the air jumps back: bit 1 is cleared (and only it) and the count is zeroed. */
  function Landed(jumped: bv8): (r: bv8)
    ensures !SpentBit(r) && r & !2 == jumped & !2
    ensures jumped < 4 ==> r < 4
  {
    jumped & !2
  }

  /**
   * The horizontal input of `tick`: accelerate towards the wanted
   * direction with saturation at `maxSpeed`, or apply friction without input.
   */
  function Steer(velX: real, direction: int, maxSpeed: real, accel: real, friction: real): (r: real)
    ensures direction < 0 ==> r == SaturatedAdd(-maxSpeed, maxSpeed, velX, -accel)
    ensures direction > 0 ==> r == SaturatedAdd(-maxSpeed, maxSpeed, velX, accel)
    ensures direction == 0 ==> r == velX * friction
  {
    if direction < 0 then SaturatedAdd(-maxSpeed, maxSpeed, velX, -accel)
    else if direction > 0 then SaturatedAdd(-maxSpeed, maxSpeed, velX, accel)
    else velX * friction
  }

  /**
   * Steering never pushes the horizontal speed out of `[-maxSpeed,
   * maxSpeed]`, and moves it towards the wanted direction.
   */
  lemma SteerStaysInBand(velX: real, direction: int, maxSpeed: real, accel: real, friction: real)
    requires 0.0 <= maxSpeed && 0.0 <= accel && direction != 0
    ensures var r := Steer(velX, direction, maxSpeed, accel, friction);
      && (-maxSpeed <= velX <= maxSpeed ==> -maxSpeed <= r <= maxSpeed)
      && (direction < 0 ==> r <= velX)
      && (direction > 0 ==> velX <= r)
  {
    SaturatedAddBounds(-maxSpeed, maxSpeed, velX, -accel);
    SaturatedAddBounds(-maxSpeed, maxSpeed, velX, accel);
  }

  /** The speed cap of `tick_deferred`: a velocity over 6000 is rescaled to length 6000, any other kept. */
  function CapSpeed(v: Vec, sqrt: real -> real): (r: Vec)
    ensures Length(v, sqrt) <= SpeedLimit ==> r == v
    ensures Length(v, sqrt) > SpeedLimit ==> r == Scale(Normalize(v, sqrt), SpeedLimit)
  {
    if Length(v, sqrt) > SpeedLimit then Scale(Normalize(v, sqrt), SpeedLimit) else v
  }

  /** After the cap, the speed is at most 6000. */
  lemma CapSpeedBound(v: Vec, sqrt: real -> real)
    requires IsSqrt(sqrt)
    ensures Length(CapSpeed(v, sqrt), sqrt) <= SpeedLimit
  {
    var r := CapSpeed(v, sqrt);
    if Length(v, sqrt) > SpeedLimit {
      LengthZero(v, sqrt);
      NormalizeUnit(v, sqrt);
      ScaleLengthSq(Normalize(v, sqrt), SpeedLimit);
      assert LengthSq(r) == Square(SpeedLimit);
    }
    LengthCompare(r, SpeedLimit, sqrt);
  }

  /** Everything of a core except its hook links (`attached`, `hookedPlayer`). */
  function Body(c: Core): Core
  {
    c.(attached := {}, hookedPlayer := -1)
  }

  /** The hook link is not part of the body. */
  lemma BodyIgnoresLink(x: Core, h: int)
    ensures Body(x.(hookedPlayer := h)) == Body(x)
  {
  }

  /** Slot `i` of the character list is occupied. */
  predicate Occupied(cs: seq<Option<Core>>, i: int)
  {
    0 <= i < |cs| && cs[i].Some?
  }

  /**
   * A character's hooked player is -1 or a slot of the list, and
   * characters that have an id have distinct ids.
   */
  ghost predicate WellFormed(cs: seq<Option<Core>>)
  {
    && (forall a :: Occupied(cs, a) ==> cs[a].value.hookedPlayer == -1 || 0 <= cs[a].value.hookedPlayer < |cs|)
    && (forall a, b :: Occupied(cs, a) && Occupied(cs, b) && a != b && cs[a].value.id != -1 ==> cs[a].value.id != cs[b].value.id)
  }

  /** "A hooks B exactly when A's id is among B's attached players", for every A with an id. */
  ghost predicate Consistent(cs: seq<Option<Core>>)
  {
    forall a, b :: Occupied(cs, a) && Occupied(cs, b) && cs[a].value.id != -1 ==>
      (cs[a].value.hookedPlayer == b <==> cs[a].value.id in cs[b].value.attached)
  }

  /** Two character lists hold the same characters in the same slots, up to their hook links. */
  ghost predicate SameBodies(cs: seq<Option<Core>>, ds: seq<Option<Core>>)
  {
    && |cs| == |ds|
    && (forall k :: 0 <= k < |cs| ==> cs[k].Some? == ds[k].Some?)
    && (forall k :: Occupied(cs, k) ==> Body(cs[k].value) == Body(ds[k].value))
  }

  /** The character list after `set_hooked_player(h)` by the character in slot `me`. */
  function Relink(cs: seq<Option<Core>>, me: nat, h: int): seq<Option<Core>>
    requires Occupied(cs, me) && (h == -1 || 0 <= h < |cs|)
    requires var prev := cs[me].value.hookedPlayer; prev == -1 || 0 <= prev < |cs|
  {
    var c := cs[me].value;
    if h == c.hookedPlayer then cs
    else
      var s1 := if c.hookedPlayer != -1 && c.id != -1 && cs[c.hookedPlayer].Some? then
          cs[c.hookedPlayer := Some(cs[c.hookedPlayer].value.(attached := cs[c.hookedPlayer].value.attached - {c.id}))]
        else cs;
      var s2 := if h != -1 && c.id != -1 && s1[h].Some? then
          s1[h := Some(s1[h].value.(attached := s1[h].value.attached + {c.id}))]
        else s1;
      s2[me := Some(s2[me].value.(hookedPlayer := h))]
  }

  /** Slot `k`'s attached set after the character in slot `me` switches its hook to `h`. */
  function AttachedAfter(cs: seq<Option<Core>>, me: nat, h: int, k: nat): set<int>
    requires Occupied(cs, me) && Occupied(cs, k)
  {
    var c := cs[me].value;
    if h == c.hookedPlayer || c.id == -1 then cs[k].value.attached
    else (cs[k].value.attached - (if k == c.hookedPlayer then {c.id} else {})) + (if k == h then {c.id} else {})
  }

  /** Replacing one occupied slot's attached set changes nothing else. */
  lemma SetAttachedEffect(cs: seq<Option<Core>>, j: nat, s: set<int>)
    requires Occupied(cs, j)
    ensures var ds := cs[j := Some(cs[j].value.(attached := s))];
      && SameBodies(cs, ds)
      && (forall k :: Occupied(cs, k) ==> ds[k].value.hookedPlayer == cs[k].value.hookedPlayer)
      && (forall k :: Occupied(cs, k) ==> ds[k].value.attached == if k == j then s else cs[k].value.attached)
  {
    var ds := cs[j := Some(cs[j].value.(attached := s))];
    assert Body(ds[j].value) == Body(cs[j].value);
  }

  /** Replacing one occupied slot's hooked player changes nothing else. */
  lemma SetHookedEffect(cs: seq<Option<Core>>, j: nat, h: int)
    requires Occupied(cs, j)
    ensures var ds := cs[j := Some(cs[j].value.(hookedPlayer := h))];
      && SameBodies(cs, ds)
      && (forall k :: Occupied(cs, k) ==> ds[k].value.hookedPlayer == if k == j then h else cs[k].value.hookedPlayer)
      && (forall k :: Occupied(cs, k) ==> ds[k].value.attached == cs[k].value.attached)
  {
    var ds := cs[j := Some(cs[j].value.(hookedPlayer := h))];
    assert Body(ds[j].value) == Body(cs[j].value);
  }

  /**
   * What `set_hooked_player(h)` does to the list: only hook links change;
   * the caller now hooks `h`; when it has an id and `h` is new, its id
   * leaves the old target's attached set and joins `h`'s.
   */
  lemma RelinkEffect(cs: seq<Option<Core>>, me: nat, h: int)
    requires Occupied(cs, me) && (h == -1 || 0 <= h < |cs|)
    requires var prev := cs[me].value.hookedPlayer; prev == -1 || 0 <= prev < |cs|
    ensures var ds := Relink(cs, me, h);
      && SameBodies(cs, ds)
      && ds[me].value.hookedPlayer == h
      && (forall k :: Occupied(cs, k) && k != me ==> ds[k].value.hookedPlayer == cs[k].value.hookedPlayer)
  {
    var c := cs[me].value;
    if h != c.hookedPlayer {
      var s1 := cs;
      if c.hookedPlayer != -1 && c.id != -1 && cs[c.hookedPlayer].Some? {
        SetAttachedEffect(cs, c.hookedPlayer, cs[c.hookedPlayer].value.attached - {c.id});
        s1 := cs[c.hookedPlayer := Some(cs[c.hookedPlayer].value.(attached := cs[c.hookedPlayer].value.attached - {c.id}))];
      }
      var s2 := s1;
      if h != -1 && c.id != -1 && s1[h].Some? {
        SetAttachedEffect(s1, h, s1[h].value.attached + {c.id});
        s2 := s1[h := Some(s1[h].value.(attached := s1[h].value.attached + {c.id}))];
      }
      SetHookedEffect(s2, me, h);
      var ds := s2[me := Some(s2[me].value.(hookedPlayer := h))];
      assert ds == Relink(cs, me, h);
    }
  }

  /** The attached sets after `set_hooked_player(h)`: see `AttachedAfter`. */
  lemma RelinkAttached(cs: seq<Option<Core>>, me: nat, h: int, k: nat)
    requires Occupied(cs, me) && (h == -1 || 0 <= h < |cs|) && Occupied(cs, k)
    requires var prev := cs[me].value.hookedPlayer; prev == -1 || 0 <= prev < |cs|
    ensures Relink(cs, me, h)[k].value.attached == AttachedAfter(cs, me, h, k)
  {
    var c := cs[me].value;
    if h != c.hookedPlayer {
      var s1 := cs;
      if c.hookedPlayer != -1 && c.id != -1 && cs[c.hookedPlayer].Some? {
        s1 := cs[c.hookedPlayer := Some(cs[c.hookedPlayer].value.(attached := cs[c.hookedPlayer].value.attached - {c.id}))];
        AttachedAt(cs, c.hookedPlayer, cs[c.hookedPlayer].value.attached - {c.id}, k);
      }
      var s2 := s1;
      if h != -1 && c.id != -1 && s1[h].Some? {
        s2 := s1[h := Some(s1[h].value.(attached := s1[h].value.attached + {c.id}))];
        AttachedAt(s1, h, s1[h].value.attached + {c.id}, k);
      }
      HookedKeepsAttached(s2, me, h, k);
    }
  }

  /** Replacing one character's attached set leaves every other slot's set as it was. */
  lemma AttachedAt(cs: seq<Option<Core>>, j: nat, s: set<int>, k: nat)
    requires Occupied(cs, j) && Occupied(cs, k)
    ensures var ds := cs[j := Some(cs[j].value.(attached := s))];
      Occupied(ds, k) && ds[k].value.attached == if k == j then s else cs[k].value.attached
  {
  }

  /** Setting one character's hooked player changes no attached set. */
  lemma HookedKeepsAttached(cs: seq<Option<Core>>, me: nat, h: int, k: nat)
    requires Occupied(cs, me) && Occupied(cs, k)
    ensures cs[me := Some(cs[me].value.(hookedPlayer := h))][k].value.attached == cs[k].value.attached
  {
  }

  /** `set_hooked_player` keeps the list well formed and the hook links consistent. */
  lemma RelinkKeepsLinks(cs: seq<Option<Core>>, me: nat, h: int)
    requires Occupied(cs, me) && (h == -1 || 0 <= h < |cs|) && WellFormed(cs)
    ensures WellFormed(Relink(cs, me, h))
    ensures Consistent(cs) ==> Consistent(Relink(cs, me, h))
  {
    var ds := Relink(cs, me, h);
    RelinkEffect(cs, me, h);
    if Consistent(cs) {
      forall a, b | Occupied(ds, a) && Occupied(ds, b) && ds[a].value.id != -1
        ensures ds[a].value.hookedPlayer == b <==> ds[a].value.id in ds[b].value.attached
      {
        assert Body(ds[a].value).id == Body(cs[a].value).id;
        RelinkAttached(cs, me, h, b);
        if a != me && cs[me].value.id != -1 {
          assert cs[a].value.id != cs[me].value.id;
        }
      }
    }
  }

  /**
   * From `cs` to `ds` no character other than the one in slot `me` changed,
   * except for its attached set: the same slots are occupied, and every
   * other character keeps its body and its hooked player.
   */
  ghost predicate Unmoved(cs: seq<Option<Core>>, ds: seq<Option<Core>>, me: nat)
  {
    && |cs| == |ds|
    && (forall k :: 0 <= k < |cs| ==> cs[k].Some? == ds[k].Some?)
    && (forall k :: Occupied(cs, k) && k != me ==>
          Body(ds[k].value) == Body(cs[k].value) && ds[k].value.hookedPlayer == cs[k].value.hookedPlayer)
  }

  lemma UnmovedTrans(cs: seq<Option<Core>>, ds: seq<Option<Core>>, es: seq<Option<Core>>, me: nat)
    requires Unmoved(cs, ds, me) && Unmoved(ds, es, me)
    ensures Unmoved(cs, es, me)
  {
  }

  /** Replacing a character by one with the same id and hook links keeps the list well formed and consistent. */
  lemma ReplaceKeepsLinks(cs: seq<Option<Core>>, j: nat, d: Core)
    requires Occupied(cs, j)
    requires d.id == cs[j].value.id && d.hookedPlayer == cs[j].value.hookedPlayer && d.attached == cs[j].value.attached
    ensures WellFormed(cs) ==> WellFormed(cs[j := Some(d)])
    ensures Consistent(cs) ==> Consistent(cs[j := Some(d)])
    ensures Unmoved(cs, cs[j := Some(d)], j)
  {
  }

  /** `set_hooked_player` moves no other character. */
  lemma RelinkUnmoved(cs: seq<Option<Core>>, me: nat, h: int)
    requires Occupied(cs, me) && (h == -1 || 0 <= h < |cs|) && WellFormed(cs)
    ensures Unmoved(cs, Relink(cs, me, h), me)
    ensures Body(Relink(cs, me, h)[me].value) == Body(cs[me].value)
  {
    RelinkEffect(cs, me, h);
  }

  /**
   * The fields `reset` restores on the character itself: at rest at the
   * origin, hook idle and detached, no jumps used, two jumps, no events, the
   * DDNet flags cleared and the aim reset to straight up.
   */
  function ResetCore(c: Core): (r: Core)
    ensures r.pos == Zero && r.vel == Zero && r.hookState == HookIdle && r.hookedPlayer == -1 && r.attached == {}
    ensures r.jumped == 0 && r.jumpedTotal == 0 && r.jumps == 2 && r.triggeredEvents == 0
    ensures r.id == c.id && r.direction == c.direction && r.input.direction == c.input.direction
  {
    c.(pos := Zero, vel := Zero, newHook := false, hookPos := Zero, hookDir := Zero, hookTeleBase := Zero,
       hookTick := 0.0, hookState := HookIdle, hookedPlayer := -1, attached := {},
       jumped := 0, jumpedTotal := 0, jumps := 2, triggeredEvents := 0,
       solo := false, collisionDisabled := false, super := false, hookHitDisabled := false,
       input := c.input.(targetX := 0.0, targetY := -1.0))
  }

  /** The character list after `reset` of the character in slot `me`. */
  function ResetList(cs: seq<Option<Core>>, me: nat): seq<Option<Core>>
    requires Occupied(cs, me) && WellFormed(cs)
  {
    var ds := Relink(cs, me, -1);
    RelinkEffect(cs, me, -1);
    ds[me := Some(ResetCore(cs[me].value))]
  }

  lemma ResetListFacts(cs: seq<Option<Core>>, me: nat)
    requires Occupied(cs, me) && WellFormed(cs)
    ensures WellFormed(ResetList(cs, me))
    ensures var ds := Relink(cs, me, -1);
      ResetCore(ds[me].value) == ResetCore(cs[me].value)
  {
    RelinkKeepsLinks(cs, me, -1);
    RelinkUnmoved(cs, me, -1);
    var ds := Relink(cs, me, -1);
    assert Body(ds[me].value) == Body(cs[me].value);
    var es := ResetList(cs, me);
    assert es[me].value.id == ds[me].value.id;
    forall a, b | Occupied(es, a) && Occupied(es, b) && a != b && es[a].value.id != -1
      ensures es[a].value.id != es[b].value.id
    {
      assert es[a].value.id == ds[a].value.id && es[b].value.id == ds[b].value.id;
    }
  }

  /**
   * After `reset`, the hook links are consistent exactly when no other
   * character with an id hooked the reset one: its attached set is emptied,
   * so any such character is left hooking it without being attached.
   */
  lemma ResetLinks(cs: seq<Option<Core>>, me: nat)
    requires Occupied(cs, me) && WellFormed(cs) && Consistent(cs)
    ensures Consistent(ResetList(cs, me)) <==>
      forall a :: Occupied(cs, a) && a != me && cs[a].value.id != -1 ==> cs[a].value.hookedPlayer != me
  {
    RelinkKeepsLinks(cs, me, -1);
    RelinkUnmoved(cs, me, -1);
    var ds := Relink(cs, me, -1);
    var es := ResetList(cs, me);
    if forall a :: Occupied(cs, a) && a != me && cs[a].value.id != -1 ==> cs[a].value.hookedPlayer != me {
      forall a, b | Occupied(es, a) && Occupied(es, b) && es[a].value.id != -1
        ensures es[a].value.hookedPlayer == b <==> es[a].value.id in es[b].value.attached
      {
        if a != me && b != me {
          assert es[a] == ds[a] && es[b] == ds[b];
        } else if a != me {
          assert es[a] == ds[a];
          assert Body(ds[a].value) == Body(cs[a].value);
        } else if b != me {
          assert es[b] == ds[b];
          assert ds[me].value.hookedPlayer == -1;
          assert Body(ds[me].value).id == es[me].value.id;
        }
      }
    } else {
      var a :| Occupied(cs, a) && a != me && cs[a].value.id != -1 && cs[a].value.hookedPlayer == me;
      assert es[a] == ds[a];
      assert Body(ds[a].value) == Body(cs[a].value);
      assert es[me].value.attached == {};
    }
  }

  /** The slots `tick`, `tick_deferred` and `move` visit: the first 64 of the list. */
  function Visited(cs: seq<Option<Core>>): (n: nat)
    ensures n <= |cs| && n <= MaxClients
    ensures n == |cs| || n == MaxClients
  {
    if |cs| < MaxClients then |cs| else MaxClients
  }

  /** The aim of `tick`: the target offset, normalised. */
  function TargetDirection(c: Core, sqrt: real -> real): Vec
  {
    Normalize(Vec(c.input.targetX, c.input.targetY), sqrt)
  }

  /** The hook input detaches the hook: it is released, or pressed while idle (a new throw). */
  predicate InputDetaches(c: Core)
  {
    !c.input.hook || c.hookState == HookIdle
  }

  /**
   * The input part of `tick` on the character's own fields (its hook link
   * is cut separately when `InputDetaches`). The walking direction is taken
   * from the input and the jump input is applied. Pressing hook while idle
   * throws the hook: it flies from 42 units (1.5 tee sizes) along the aim,
   * with the launch event; releasing hook makes it idle at the tee; holding
   * it in any other state leaves the hook alone.
   */
  function InputBody(c: Core, grounded: bool, dir: Vec, t: Tuning): (r: Core)
    ensures r.direction == c.input.direction && r.pos == c.pos && r.vel.x == c.vel.x && r.id == c.id
    ensures var j := JumpInput(JumpState(c.jumped, c.jumpedTotal, c.vel.y, c.triggeredEvents), c.input.jump, grounded, c.jumps, t);
      r.jumped == j.jumped && r.jumpedTotal == j.jumpedTotal && r.vel.y == j.velY
    ensures c.input.hook && c.hookState == HookIdle ==>
      && r.hookState == HookFlying && r.hookDir == dir && r.hookPos == Add(c.pos, Scale(dir, 42.0))
      && r.hookTick == 50.0 * (1.25 - t.hookDuration) && r.triggeredEvents & EventHookLaunch != 0
    ensures c.input.hook && c.hookState != HookIdle ==>
      r.hookState == c.hookState && r.hookPos == c.hookPos && r.hookDir == c.hookDir && r.hookTick == c.hookTick
    ensures !c.input.hook ==> r.hookState == HookIdle && r.hookPos == c.pos && r.hookDir == c.hookDir
  {
    var j := JumpInput(JumpState(c.jumped, c.jumpedTotal, c.vel.y, c.triggeredEvents), c.input.jump, grounded, c.jumps, t);
    var d := c.(direction := c.input.direction, jumped := j.jumped, jumpedTotal := j.jumpedTotal,
                vel := Vec(c.vel.x, j.velY), triggeredEvents := j.events);
    if c.input.hook then
      if c.hookState == HookIdle then
        d.(hookState := HookFlying, hookPos := Add(c.pos, Scale(dir, PhysicalSize * 1.5)), hookDir := dir,
           hookTick := 50.0 * (1.25 - t.hookDuration), triggeredEvents := d.triggeredEvents | EventHookLaunch)
      else d
    else d.(hookState := HookIdle, hookPos := c.pos)
  }

  /** Landing (when grounded) and the horizontal steering of `tick`, with the ground or air tuning. */
  function LandAndSteer(c: Core, grounded: bool, t: Tuning): (r: Core)
    ensures grounded ==> !SpentBit(r.jumped) && r.jumpedTotal == 0
    ensures !grounded ==> r.jumped == c.jumped && r.jumpedTotal == c.jumpedTotal
    ensures r.id == c.id
    ensures r == c.(jumped := r.jumped, jumpedTotal := r.jumpedTotal, vel := Vec(r.vel.x, c.vel.y))
  {
    var d := if grounded then c.(jumped := Landed(c.jumped), jumpedTotal := 0) else c;
    var maxSpeed := if grounded then t.groundControlSpeed else t.airControlSpeed;
    var accel := if grounded then t.groundControlAccel else t.airControlAccel;
    var friction := if grounded then t.groundFriction else t.airFriction;
    d.(vel := Vec(Steer(d.vel.x, d.direction, maxSpeed, accel, friction), d.vel.y))
  }

  /** The input step does not depend on the hook link. */
  lemma InputBodyIgnoresLink(c: Core, grounded: bool, dir: Vec, t: Tuning)
    ensures Body(InputBody(c, grounded, dir, t)) == InputBody(Body(c), grounded, dir, t)
  {
  }

  /** Landing and steering do not depend on the hook link. */
  lemma LandAndSteerIgnoresLink(c: Core, grounded: bool, t: Tuning)
    ensures Body(LandAndSteer(c, grounded, t)) == LandAndSteer(Body(c), grounded, t)
  {
  }

  /** Gravity on the tee: `vel.y += gravity`. */
  function Fallen(c: Core, t: Tuning): Core
  {
    c.(vel := Vec(c.vel.x, c.vel.y + t.gravity))
  }

  /** `Controlled` is the three steps in turn. */
  lemma ControlledSteps(c: Core, g: Core, i: Core, grounded: bool, dir: Vec, useInput: bool, t: Tuning)
    requires g == Fallen(c, t)
    requires i == if useInput then InputBody(g, grounded, dir, t) else g
    ensures Controlled(c, grounded, dir, useInput, t) == LandAndSteer(i, grounded, t)
  {
    if useInput {
      assert Controlled(c, grounded, dir, true, t) == LandAndSteer(InputBody(g, grounded, dir, t), grounded, t);
    } else {
      assert Controlled(c, grounded, dir, false, t) == LandAndSteer(g, grounded, t);
    }
  }

  /**
   * The movement part of `tick` on the tee's own fields: gravity, the input
   * (when `useInput`), then landing and steering. The position
   * is untouched; on the ground the jump count is reset; without input the
   * vertical speed is exactly the one gravity gives and the hook is kept.
   */
  function Controlled(c: Core, grounded: bool, dir: Vec, useInput: bool, t: Tuning): Core
  {
    var g := Fallen(c, t);
    var i := if useInput then InputBody(g, grounded, dir, t) else g;
    LandAndSteer(i, grounded, t)
  }

  lemma ControlledFacts(c: Core, grounded: bool, dir: Vec, useInput: bool, t: Tuning)
    ensures var r := Controlled(c, grounded, dir, useInput, t);
      && r.id == c.id && r.pos == c.pos
      && (grounded ==> !SpentBit(r.jumped) && r.jumpedTotal == 0)
      && (!useInput ==> r.vel.y == c.vel.y + t.gravity && r.hookState == c.hookState && r.hookPos == c.hookPos)
      && (useInput ==> r.direction == c.input.direction)
      && (useInput && !c.input.hook ==> r.hookState == HookIdle && r.hookPos == c.pos)
  {
  }

  /**
   * The hook states outside flight and grab: idle keeps the hook at the
   * tee, the retract states count up to `HookRetractEnd`, which turns into
   * `HookRetracted` with the retract event, and `HookRetracted` stays.
   */
  function HookTimer(c: Core): (r: Core)
    requires c.hookState != HookFlying && c.hookState != HookGrabbed
    ensures r == c.(hookState := r.hookState, hookPos := r.hookPos, triggeredEvents := r.triggeredEvents)
    ensures c.hookState == HookRetracted ==> r == c
  {
    if c.hookState == HookIdle then c.(hookPos := c.pos)
    else if HookRetractStart <= c.hookState < HookRetractEnd then c.(hookState := c.hookState + 1)
    else if c.hookState == HookRetractEnd then
      c.(triggeredEvents := c.triggeredEvents | EventHookRetract, hookState := HookRetracted)
    else c
  }

  /**
   * A retraction takes three ticks: from `HookRetractStart` the timer passes
   * through `HookRetractEnd` to `HookRetracted`, raising the retract event,
   * and then stays there; nothing else of the character changes.
   */
  lemma RetractTakesThreeTicks(c: Core)
    requires c.hookState == HookRetractStart
    ensures HookTimer(HookTimer(c)).hookState == HookRetractEnd
    ensures var r := HookTimer(HookTimer(HookTimer(c)));
      && r.hookState == HookRetracted && r.triggeredEvents & EventHookRetract != 0
      && r == c.(hookState := HookRetracted, triggeredEvents := c.triggeredEvents | EventHookRetract)
      && HookTimer(r) == r
  {
  }

  /** Where a flying hook measures its reach from: the teleport base of a new hook, else the tee. */
  function FlyBase(c: Core): Vec
  {
    if c.newHook then c.hookTeleBase else c.pos
  }

  /** The next hook point of a flying hook, and whether it went out of reach. */
  datatype Flight = Flight(newPos: Vec, retract: bool)

  /**
   * One step of a flying hook: it advances by `hookFireSpeed` along its
   * direction; a point beyond `hookLength` from the base turns the hook to
   * retraction and is pulled back onto the reach circle.
   */
  function Fly(c: Core, t: Tuning, sqrt: real -> real): (r: Flight)
    ensures var np := Add(c.hookPos, Scale(c.hookDir, t.hookFireSpeed));
      && (r.retract <==> Length(Sub(np, FlyBase(c)), sqrt) > t.hookLength)
      && (!r.retract ==> r.newPos == np)
  {
    var base := FlyBase(c);
    var np := Add(c.hookPos, Scale(c.hookDir, t.hookFireSpeed));
    if Length(Sub(np, base), sqrt) > t.hookLength then
      Flight(Add(base, Scale(Normalize(Sub(np, base), sqrt), t.hookLength)), true)
    else Flight(np, false)
  }

  /**
   * The hook point never leaves the reach circle, and a point pulled back
   * lies exactly on it, in the direction of the advanced point.
   */
  lemma FlyStaysInReach(c: Core, t: Tuning, sqrt: real -> real)
    requires IsSqrt(sqrt) && 0.0 < t.hookLength
    ensures var f := Fly(c, t, sqrt);
      && DistanceSq(f.newPos, FlyBase(c)) <= Square(t.hookLength)
      && (f.retract ==> DistanceSq(f.newPos, FlyBase(c)) == Square(t.hookLength))
      && (f.retract ==> exists k: real ::
            (0.0 < k && Sub(f.newPos, FlyBase(c)) == Scale(Sub(Add(c.hookPos, Scale(c.hookDir, t.hookFireSpeed)), FlyBase(c)), k)))
  {
    var f := Fly(c, t, sqrt);
    var base := FlyBase(c);
    var v := Sub(Add(c.hookPos, Scale(c.hookDir, t.hookFireSpeed)), base);
    if f.retract {
      LengthFacts(v, sqrt);
      assert v != Zero;
      var k := t.hookLength / Length(v, sqrt);
      assert Sub(f.newPos, base) == Scale(Normalize(v, sqrt), t.hookLength);
      assert Scale(Normalize(v, sqrt), t.hookLength) == Scale(v, k);
      ScaleToLength(v, t.hookLength, sqrt);
      assert 0.0 < k;
    } else {
      LengthCompare(v, t.hookLength, sqrt);
    }
  }

  /** The search of a flying hook for a player: the chosen slot, its distance, and whether one was grabbed. */
  datatype Grab = Grab(hooked: int, distance: real, grabbed: bool)

  /** The hook's path from `hookPos` to `newPos` passes within 30 units of the point `p`. */
  predicate HookHits(hookPos: Vec, newPos: Vec, p: Vec, sqrt: real -> real)
  {
    Length(Sub(p, ClosestPointOnLine(hookPos, newPos, p)), sqrt) < PhysicalSize + 2.0
  }

  /** Slot `i` holds another character with an id that the hook's path hits. */
  predicate Candidate(cs: seq<Option<Core>>, me: nat, i: int, hookPos: Vec, newPos: Vec, sqrt: real -> real)
  {
    Occupied(cs, i) && i != me && cs[i].value.id != -1 && HookHits(hookPos, newPos, cs[i].value.pos, sqrt)
  }

  /** Distance from the hook to the character in slot `i`. */
  function HookDistance(cs: seq<Option<Core>>, i: int, hookPos: Vec, sqrt: real -> real): real
    requires Occupied(cs, i)
  {
    Length(Sub(hookPos, cs[i].value.pos), sqrt)
  }

  /**
   * The player loop of a flying hook over slots `i` to `n`: a hit candidate
   * is grabbed when no player is hooked yet or it is strictly nearer than
   * the last one grabbed.
   */
  function GrabScan(cs: seq<Option<Core>>, me: nat, i: nat, n: nat, hookPos: Vec, newPos: Vec, g: Grab, sqrt: real -> real): Grab
    decreases n - i
  {
    if n <= i then g
    else GrabScan(cs, me, i + 1, n, hookPos, newPos, GrabNext(cs, me, i, hookPos, newPos, g, sqrt), sqrt)
  }

  /** The scan from `i` is the scan from `i + 1` after slot `i`. */
  lemma GrabScanStep(cs: seq<Option<Core>>, me: nat, i: nat, n: nat, hookPos: Vec, newPos: Vec, g: Grab, sqrt: real -> real)
    requires i < n
    ensures GrabScan(cs, me, i, n, hookPos, newPos, g, sqrt)
      == GrabScan(cs, me, i + 1, n, hookPos, newPos, GrabNext(cs, me, i, hookPos, newPos, g, sqrt), sqrt)
  {
  }

  /** One iteration of the player loop, for slot `i`. */
  function GrabNext(cs: seq<Option<Core>>, me: nat, i: nat, hookPos: Vec, newPos: Vec, g: Grab, sqrt: real -> real): Grab
  {
    if Candidate(cs, me, i, hookPos, newPos, sqrt) && (g.hooked == -1 || HookDistance(cs, i, hookPos, sqrt) < g.distance)
    then Grab(i, HookDistance(cs, i, hookPos, sqrt), true)
    else g
  }

  /** A grab record is coherent: nothing grabbed while no player is hooked, and a grabbed slot's distance recorded. */
  predicate GrabOk(cs: seq<Option<Core>>, g: Grab, hookPos: Vec, sqrt: real -> real)
  {
    && (g.hooked == -1 ==> !g.grabbed)
    && (g.grabbed ==> Occupied(cs, g.hooked) && g.distance == HookDistance(cs, g.hooked, hookPos, sqrt))
  }

  /**
   * What the player loop finds: the grabbed slot is a candidate of the
   * range (or the one grabbed before) and at least as near as every
   * candidate of the range; starting with no hooked player, a player is
   * grabbed exactly when the range holds a candidate; and without a new
   * grab the record is unchanged.
   */
  lemma {:induction false} GrabScanNearest(cs: seq<Option<Core>>, me: nat, i: nat, n: nat, hookPos: Vec, newPos: Vec, g: Grab, sqrt: real -> real)
    requires GrabOk(cs, g, hookPos, sqrt)
    ensures var r := GrabScan(cs, me, i, n, hookPos, newPos, g, sqrt);
      && GrabOk(cs, r, hookPos, sqrt)
      && (r.grabbed ==> r == g || (i <= r.hooked < n && Candidate(cs, me, r.hooked, hookPos, newPos, sqrt)))
      && (r.grabbed ==> forall j :: i <= j < n && Candidate(cs, me, j, hookPos, newPos, sqrt) ==>
            r.distance <= HookDistance(cs, j, hookPos, sqrt))
      && (g.hooked != -1 ==> r.distance <= g.distance)
      && (g.hooked == -1 ==> (r.grabbed <==> exists j :: i <= j < n && Candidate(cs, me, j, hookPos, newPos, sqrt)))
      && (!r.grabbed ==> r == g)
    decreases n - i
  {
    if i < n {
      var g' := GrabNext(cs, me, i, hookPos, newPos, g, sqrt);
      GrabScanNearest(cs, me, i + 1, n, hookPos, newPos, g', sqrt);
      var r := GrabScan(cs, me, i, n, hookPos, newPos, g, sqrt);
      assert r == GrabScan(cs, me, i + 1, n, hookPos, newPos, g', sqrt);
      if g.hooked == -1 && !r.grabbed {
        assert !Candidate(cs, me, i, hookPos, newPos, sqrt);
      }
    }
  }

  /**
   * The hook state, events and point after the flight step, given whether
   * the player loop grabbed someone and whether the advanced point is
   * solid. A player grab wins (with its event) and leaves the hook point
   * where it was, as does retraction; only a hook still flying looks at the
   * map: a solid point grabs the ground (with its event) without moving the
   * hook, a free one moves the hook there.
   */
  function FlyingBody(c: Core, f: Flight, grabbed: bool, solid: bool): (r: Core)
    ensures grabbed ==>
      (r.hookState == HookGrabbed && r.hookPos == c.hookPos && r.triggeredEvents == c.triggeredEvents | EventHookAttachPlayer)
    ensures !grabbed && f.retract ==>
      (r.hookState == HookRetractStart && r.hookPos == c.hookPos && r.triggeredEvents == c.triggeredEvents)
    ensures !grabbed && !f.retract && solid ==>
      (r.hookState == HookGrabbed && r.hookPos == c.hookPos && r.triggeredEvents == c.triggeredEvents | EventHookAttachGround)
    ensures !grabbed && !f.retract && !solid ==>
      (r.hookState == HookFlying && r.hookPos == f.newPos && r.triggeredEvents == c.triggeredEvents)
    ensures r.reset == (c.reset || f.retract)
    ensures r.id == c.id
    ensures r == c.(hookState := r.hookState, hookPos := r.hookPos, triggeredEvents := r.triggeredEvents, reset := r.reset)
  {
    var flying := !grabbed && !f.retract;
    var s := if grabbed || (flying && solid) then HookGrabbed else if f.retract then HookRetractStart else HookFlying;
    var ev := if grabbed then c.triggeredEvents | EventHookAttachPlayer
              else if flying && solid then c.triggeredEvents | EventHookAttachGround
              else c.triggeredEvents;
    var p := if flying && !solid then f.newPos else c.hookPos;
    c.(hookState := s, hookPos := p, triggeredEvents := ev, reset := c.reset || f.retract)
  }

  /**
   * The world-grab pull: towards the hook point with `hookDragAccel`, a
   * third as strong downwards, stronger sideways when the tee walks that
   * way; the new velocity is taken only while it stays under
   * `hookDragSpeed` or slows the tee down. So the pull never takes the
   * speed above the larger of the drag speed and the current speed.
   */
  function Drag(hookPos: Vec, pos: Vec, vel: Vec, direction: int, t: Tuning, sqrt: real -> real): (r: Vec)
    ensures r == vel || Length(r, sqrt) < t.hookDragSpeed || Length(r, sqrt) < Length(vel, sqrt)
    ensures Length(r, sqrt) <= Max(t.hookDragSpeed, Length(vel, sqrt))
  {
    var hv := Scale(Normalize(Sub(hookPos, pos), sqrt), t.hookDragAccel);
    var hy := if hv.y > 0.0 then hv.y * 0.3 else hv.y;
    var hx := if (hv.x < 0.0 && direction < 0) || (hv.x > 0.0 && direction > 0) then hv.x * 0.95 else hv.x * 0.75;
    var nv := Add(vel, Vec(hx, hy));
    if Length(nv, sqrt) < t.hookDragSpeed || Length(nv, sqrt) < Length(vel, sqrt) then nv else vel
  }

  /** The world-grab pull applies only without a hooked player and with the hook more than 46 units away. */
  function WorldPull(h: int, hookPos: Vec, c: Core, t: Tuning, sqrt: real -> real): (r: Vec)
    ensures h != -1 ==> r == c.vel
  {
    if h == -1 && Length(Sub(hookPos, c.pos), sqrt) > 46.0 then Drag(hookPos, c.pos, c.vel, c.direction, t, sqrt) else c.vel
  }

  /**
   * The grabbed-hook step of `tick`, with the hook link in `hookedPlayer`.
   * A player grab follows the hooked player while its slot is occupied and
   * the tee has an id, and is released into `HookRetracted` (hook back at
   * the tee) otherwise; a world grab pulls the tee (`Drag`) while the hook
   * is more than 46 units away. The hook timer then counts one tick, and a
   * player grab held longer than 60 ticks is released.
   */
  function GrabbedBody(cs: seq<Option<Core>>, c: Core, t: Tuning, sqrt: real -> real): Core
    requires (c.hookedPlayer == -1 || 0 <= c.hookedPlayer < |cs|)
  {
    var h := c.hookedPlayer;
    var follow := h != -1 && cs[h].Some? && c.id != -1;
    var h1 := if h != -1 && !follow then -1 else h;
    var hookPos1 := if follow then cs[h].value.pos else if h != h1 then c.pos else c.hookPos;
    var vel := WorldPull(h1, hookPos1, c, t, sqrt);
    var tick := c.hookTick + 1.0;
    var release := h1 != -1 && (tick > HookGrabTicks || h1 >= |cs| || cs[h1].None?);
    var h2 := if release then -1 else h1;
    c.(hookedPlayer := h2, hookState := if h2 != h then HookRetracted else c.hookState,
       hookPos := if release then c.pos else hookPos1, vel := vel, hookTick := tick)
  }

  /**
   * The outcomes of the grabbed-hook step: a world grab keeps its hook; a
   * player grab whose slot emptied, held by a tee without an id, or held
   * longer than 60 ticks is released with the hook back at the tee; one
   * that is kept follows the hooked player's position, and the tee is not
   * pulled while it holds a player.
   */
  lemma GrabbedOutcome(cs: seq<Option<Core>>, c: Core, t: Tuning, sqrt: real -> real)
    requires (c.hookedPlayer == -1 || 0 <= c.hookedPlayer < |cs|)
    ensures var r := GrabbedBody(cs, c, t, sqrt);
      && r.hookTick == c.hookTick + 1.0
      && (r.hookedPlayer == -1 || r.hookedPlayer == c.hookedPlayer)
      && (c.hookedPlayer == -1 ==> r.hookState == c.hookState && r.hookPos == c.hookPos)
      && (c.hookedPlayer != -1 && (cs[c.hookedPlayer].None? || c.id == -1 || c.hookTick + 1.0 > HookGrabTicks) ==>
            r.hookedPlayer == -1 && r.hookState == HookRetracted && r.hookPos == c.pos)
      && (c.hookedPlayer != -1 && cs[c.hookedPlayer].Some? && c.id != -1 && c.hookTick + 1.0 <= HookGrabTicks ==>
            r.hookedPlayer == c.hookedPlayer && r.hookState == c.hookState && r.hookPos == cs[c.hookedPlayer].value.pos
            && r.vel == c.vel)
      && (c.hookedPlayer != -1 && cs[c.hookedPlayer].Some? && c.id != -1 ==> r.vel == c.vel)
      && (c.hookedPlayer != -1 && (cs[c.hookedPlayer].None? || c.id == -1) ==> r.vel == WorldPull(-1, c.pos, c, t, sqrt))
      && r.id == c.id && r.pos == c.pos && r.attached == c.attached
  {
  }

  /** Two characters push each other: either is super, or neither has collision disabled and the tuning allows it. */
  predicate CanCollide(c: Core, p: Core, t: Tuning)
  {
    c.super || p.super || (!c.collisionDisabled && !p.collisionDisabled && t.playerCollision)
  }

  /**
   * The push of `tick_deferred` away from a character `distance` units
   * away in direction `dir`: `40.6 - distance` along `dir`, weighted by how
   * little the tee already moves that way, then damped by 0.85.
   */
  function Push(vel: Vec, dir: Vec, distance: real, sqrt: real -> real): Vec
  {
    var a := PhysicalSize * 1.45 - distance;
    var weight := if Length(vel, sqrt) > 0.0001 then 1.0 - ((Dot(Normalize(vel, sqrt), dir) + 1.0) / 2.0) else 0.5;
    Scale(Add(vel, Scale(Scale(dir, a), weight * 0.75)), 0.85)
  }

  /** Both components pushed by `SaturatedAdd` within `[-limit, limit]`. */
  function SaturatedAddVec(limit: real, v: Vec, m: Vec): Vec
  {
    Vec(SaturatedAdd(-limit, limit, v.x, m.x), SaturatedAdd(-limit, limit, v.y, m.y))
  }

  /**
   * One iteration of the pair loop of `tick_deferred` for slot `i`, with
   * the tee's current state `c`: empty slots, the tee itself and pairs kept
   * apart by solo mode (neither super) are skipped; at a positive distance,
   * a close colliding pair pushes the tee, and when the tee's hook holds
   * this slot from more than 42 units away the hooked player is dragged
   * towards the tee (1.5 × the hook acceleration) and the tee a little
   * towards it (0.25 ×), both saturating at `hookDragSpeed`.
   */
  function PairStep(cs: seq<Option<Core>>, me: nat, i: nat, c: Core, t: Tuning, sqrt: real -> real): (r: (Core, seq<Option<Core>>))
    requires i < |cs| && 0.0 < t.hookLength
    ensures |r.1| == |cs| && r.0 == c.(vel := r.0.vel)
    ensures forall k :: 0 <= k < |cs| && k != i ==> r.1[k] == cs[k]
    ensures r.1[i] == cs[i] || (cs[i].Some? && r.1[i].Some? && i != me && i == c.hookedPlayer && r.1[i] == Some(cs[i].value.(vel := r.1[i].value.vel)))
  {
    if cs[i].None? || i == me then (c, cs)
    else
      var p := cs[i].value;
      if !c.super && !p.super && (c.solo || p.solo) then (c, cs)
      else
        var distance := Length(Sub(c.pos, p.pos), sqrt);
        if !(distance > 0.0) then (c, cs)
        else
          var dir := Normalize(Sub(c.pos, p.pos), sqrt);
          var v1 := if CanCollide(c, p, t) && distance < PhysicalSize * 1.25 then Push(c.vel, dir, distance, sqrt) else c.vel;
          if !c.hookHitDisabled && c.hookedPlayer == i && t.playerHooking && distance > PhysicalSize * 1.5 then
            var accel := t.hookDragAccel * (distance / t.hookLength);
            var pv := SaturatedAddVec(t.hookDragSpeed, p.vel, Vec(accel * dir.x * 1.5, accel * dir.y * 1.5));
            var mv := SaturatedAddVec(t.hookDragSpeed, v1, Vec(-accel * dir.x * 0.25, -accel * dir.y * 0.25));
            (c.(vel := mv), cs[i := Some(p.(vel := pv))])
          else (c.(vel := v1), cs)
  }

  /** The pair loop of `tick_deferred` over slots `i` to `n`. */
  function PairPass(cs: seq<Option<Core>>, me: nat, i: nat, n: nat, c: Core, t: Tuning, sqrt: real -> real): (r: (Core, seq<Option<Core>>))
    requires n <= |cs| && 0.0 < t.hookLength
    ensures |r.1| == |cs|
    decreases n - i
  {
    if n <= i then (c, cs)
    else
      var s := PairStep(cs, me, i, c, t, sqrt);
      PairPass(s.1, me, i + 1, n, s.0, t, sqrt)
  }

  /**
   * `tick_deferred` on the list: the pair loop over the visited slots, then
   * `newHook` is dropped unless the hook flies, and the speed is capped.
   */
  function DeferredList(cs: seq<Option<Core>>, me: nat, t: Tuning, sqrt: real -> real): seq<Option<Core>>
    requires Occupied(cs, me) && 0.0 < t.hookLength
  {
    var s := PairPass(cs, me, 0, Visited(cs), cs[me].value, t, sqrt);
    var c := s.0.(newHook := s.0.newHook && s.0.hookState == HookFlying);
    s.1[me := Some(c.(vel := CapSpeed(c.vel, sqrt)))]
  }

  /**
   * What the pair loop does to the list over slots `i` to `n`: the tee
   * keeps everything but its velocity; every other slot is unchanged except
   * the one the tee hooks (when it is in the range), which only changes
   * velocity.
   */
  lemma {:induction false} PairPassTouches(cs: seq<Option<Core>>, me: nat, i: nat, n: nat, c: Core, t: Tuning, sqrt: real -> real)
    requires n <= |cs| && 0.0 < t.hookLength
    ensures var r := PairPass(cs, me, i, n, c, t, sqrt);
      && r.0 == c.(vel := r.0.vel)
      && (forall k :: 0 <= k < |cs| && (k == me || k != c.hookedPlayer || k < i || n <= k) ==> r.1[k] == cs[k])
      && (forall k :: 0 <= k < |cs| ==> r.1[k] == cs[k] || (cs[k].Some? && r.1[k].Some? && r.1[k] == Some(cs[k].value.(vel := r.1[k].value.vel))))
    decreases n - i
  {
    if i < n {
      var s := PairStep(cs, me, i, c, t, sqrt);
      PairPassTouches(s.1, me, i + 1, n, s.0, t, sqrt);
    }
  }

  /**
   * What `tick_deferred` changes: the tee only its velocity and `newHook`;
   * no other character except the hooked one, whose velocity only changes;
   * so the ids and hook links are as before (`SameLinks`), and the list
   * stays well formed and consistent.
   */
  lemma DeferredFacts(cs: seq<Option<Core>>, me: nat, t: Tuning, sqrt: real -> real)
    requires Occupied(cs, me) && 0.0 < t.hookLength
    ensures var ds := DeferredList(cs, me, t, sqrt);
      && |ds| == |cs| && Occupied(ds, me)
      && ds[me].value == cs[me].value.(vel := ds[me].value.vel, newHook := ds[me].value.newHook)
      && (forall k :: 0 <= k < |cs| && k != me && k != cs[me].value.hookedPlayer ==> ds[k] == cs[k])
      && (forall k :: 0 <= k < |cs| && k != me ==>
            ds[k] == cs[k] || (cs[k].Some? && ds[k].Some? && ds[k] == Some(cs[k].value.(vel := ds[k].value.vel))))
      && SameLinks(cs, ds)
  {
    PairPassTouches(cs, me, 0, Visited(cs), cs[me].value, t, sqrt);
  }

  /** After `tick_deferred` the tee's speed is at most 6000 (`SpeedLimit`). */
  lemma DeferredSpeedCap(cs: seq<Option<Core>>, me: nat, t: Tuning, sqrt: real -> real)
    requires IsSqrt(sqrt) && Occupied(cs, me) && 0.0 < t.hookLength
    ensures Length(DeferredList(cs, me, t, sqrt)[me].value.vel, sqrt) <= SpeedLimit
  {
    var s := PairPass(cs, me, 0, Visited(cs), cs[me].value, t, sqrt);
    var c := s.0.(newHook := s.0.newHook && s.0.hookState == HookFlying);
    CapSpeedBound(c.vel, sqrt);
  }

  /** Two lists with the same occupied slots whose characters keep their ids and hook links. */
  ghost predicate SameLinks(cs: seq<Option<Core>>, ds: seq<Option<Core>>)
  {
    && |ds| == |cs|
    && (forall k :: 0 <= k < |cs| ==> (ds[k].Some? <==> cs[k].Some?))
    && (forall k :: Occupied(cs, k) ==>
          ds[k].value.id == cs[k].value.id && ds[k].value.hookedPlayer == cs[k].value.hookedPlayer
          && ds[k].value.attached == cs[k].value.attached)
  }

  /** Well-formedness and consistency only look at the ids and hook links. */
  lemma SameLinksKeep(cs: seq<Option<Core>>, ds: seq<Option<Core>>)
    requires SameLinks(cs, ds)
    ensures WellFormed(cs) ==> WellFormed(ds)
    ensures Consistent(cs) ==> Consistent(ds)
  {
    assert forall k :: Occupied(ds, k) ==> Occupied(cs, k);
  }

  /** The velocity ramp of `move`, at 50 ticks a second. */
  function MoveRamp(c: Core, t: Tuning, pow: (real, real) -> real, sqrt: real -> real): (r: real)
    requires IsPow(pow) && TuningValid(t)
    ensures 0.0 < r
  {
    VelocityRamp(Length(c.vel, sqrt) * 50.0, t.velrampStart, t.velrampRange, t.velrampCurvature, pow)
  }

  /** `move` checks other players along its path: the tee is super, or collides with players and is not solo. */
  predicate ChecksPlayers(c: Core, t: Tuning)
  {
    c.super || (t.playerCollision && !c.collisionDisabled && !c.solo)
  }

  /** The character `p` stops the moving tee `c` (teams are not modelled, so no team rule applies). */
  predicate Blocks(c: Core, p: Core)
  {
    p.super || !(c.solo || p.solo || p.collisionDisabled)
  }

  /** The first slot from `j` to `n` whose character stops the tee and is less than 28 units from `pos`, or -1. */
  function FirstBlocker(cs: seq<Option<Core>>, me: nat, c: Core, pos: Vec, j: nat, n: nat, sqrt: real -> real): (r: int)
    requires n <= |cs|
    ensures r == -1 || (j <= r < n && Occupied(cs, r) && r != me)
    decreases n - j
  {
    if n <= j then -1
    else if Occupied(cs, j) && j != me && Blocks(c, cs[j].value) && Length(Sub(pos, cs[j].value.pos), sqrt) < PhysicalSize then j
    else FirstBlocker(cs, me, c, pos, j + 1, n, sqrt)
  }

  /**
   * The player check of `move`, from step `i` on: the tee walks from its
   * position towards `np` in unit steps; at the first step that comes
   * within 28 units of a blocking player it stops at the previous step
   * (or, at the very first step, moves to `np` only if that takes it
   * further from the blocker); with no blocker it reaches `np`.
   */
  function StepPos(cs: seq<Option<Core>>, me: nat, c: Core, np: Vec, distance: real, i: nat, end: nat, lastPos: Vec, sqrt: real -> real): Vec
    requires 0.0 < distance
    decreases end - i
  {
    if end <= i then np
    else
      var a := i as real / distance;
      var pos := Add(c.pos, Scale(Sub(np, c.pos), a));
      var b := FirstBlocker(cs, me, c, pos, 0, Visited(cs), sqrt);
      if b != -1 then
        if a > 0.0 then lastPos
        else if Length(Sub(np, cs[b].value.pos), sqrt) > Length(Sub(pos, cs[b].value.pos), sqrt) then np
        else c.pos
      else StepPos(cs, me, c, np, distance, i + 1, end, pos, sqrt)
  }

  /** `q` lies on the segment from `a` to `b`. */
  ghost predicate OnSegment(q: Vec, a: Vec, b: Vec)
  {
    exists k: real :: 0.0 <= k <= 1.0 && q == Add(a, Scale(Sub(b, a), k))
  }

  lemma SegmentEnds(a: Vec, b: Vec)
    ensures OnSegment(a, a, b) && OnSegment(b, a, b)
  {
    assert a == Add(a, Scale(Sub(b, a), 0.0));
    assert b == Add(a, Scale(Sub(b, a), 1.0));
  }

  /**
   * The player check never leaves the segment the map sweep allowed: the
   * tee ends at a point between its position and `np`.
   */
  lemma {:induction false} StepPosOnSegment(cs: seq<Option<Core>>, me: nat, c: Core, np: Vec, distance: real, i: nat, end: nat, lastPos: Vec, sqrt: real -> real)
    requires 0.0 < distance && (end - 1) as real <= distance
    requires OnSegment(lastPos, c.pos, np)
    ensures OnSegment(StepPos(cs, me, c, np, distance, i, end, lastPos, sqrt), c.pos, np)
    decreases end - i
  {
    SegmentEnds(c.pos, np);
    if i < end {
      var a := i as real / distance;
      assert 0.0 <= a <= 1.0 by {
        assert i as real <= distance;
        assert a * distance == i as real;
      }
      var pos := Add(c.pos, Scale(Sub(np, c.pos), a));
      assert OnSegment(pos, c.pos, np);
      StepPosOnSegment(cs, me, c, np, distance, i + 1, end, pos, sqrt);
    }
  }

  /** With no blocking player near any step, the player check reaches `np`. */
  lemma {:induction false} StepPosUnblocked(cs: seq<Option<Core>>, me: nat, c: Core, np: Vec, distance: real, i: nat, end: nat, lastPos: Vec, sqrt: real -> real)
    requires 0.0 < distance
    requires forall k :: 0 <= k < Visited(cs) && k != me && Occupied(cs, k) ==> !Blocks(c, cs[k].value)
    ensures StepPos(cs, me, c, np, distance, i, end, lastPos, sqrt) == np
    decreases end - i
  {
    if i < end {
      var a := i as real / distance;
      var pos := Add(c.pos, Scale(Sub(np, c.pos), a));
      assert FirstBlocker(cs, me, c, pos, 0, Visited(cs), sqrt) == -1 by {
        NoBlocker(cs, me, c, pos, 0, sqrt);
      }
      StepPosUnblocked(cs, me, c, np, distance, i + 1, end, pos, sqrt);
    }
  }

  lemma {:induction false} NoBlocker(cs: seq<Option<Core>>, me: nat, c: Core, pos: Vec, j: nat, sqrt: real -> real)
    requires j <= Visited(cs)
    requires forall k :: j <= k < Visited(cs) && k != me && Occupied(cs, k) ==> !Blocks(c, cs[k].value)
    ensures FirstBlocker(cs, me, c, pos, j, Visited(cs), sqrt) == -1
    decreases Visited(cs) - j
  {
    if j < Visited(cs) {
      NoBlocker(cs, me, c, pos, j + 1, sqrt);
    }
  }

  /**
   * The player check of `move` from the tee's position to the swept
   * position `np`: `StepPos` over `floor(distance) + 1` unit steps, or `np`
   * itself when the sweep did not move the tee.
   */
  function PlayerCheck(cs: seq<Option<Core>>, me: nat, c: Core, np: Vec, sqrt: real -> real): Vec
  {
    var distance := Length(Sub(np, c.pos), sqrt);
    if distance > 0.0 then StepPos(cs, me, c, np, distance, 0, (distance.Floor + 1) as nat, c.pos, sqrt) else np
  }

  /** The player check ends between the tee and the swept position; with no blocking character it ends at the swept position. */
  lemma PlayerCheckFacts(cs: seq<Option<Core>>, me: nat, c: Core, np: Vec, sqrt: real -> real)
    ensures OnSegment(PlayerCheck(cs, me, c, np, sqrt), c.pos, np)
    ensures (forall k :: 0 <= k < Visited(cs) && k != me && Occupied(cs, k) ==> !Blocks(c, cs[k].value)) ==>
      PlayerCheck(cs, me, c, np, sqrt) == np
  {
    SegmentEnds(c.pos, np);
    var distance := Length(Sub(np, c.pos), sqrt);
    if distance > 0.0 {
      var end := (distance.Floor + 1) as nat;
      StepPosOnSegment(cs, me, c, np, distance, 0, end, c.pos, sqrt);
      if forall k :: 0 <= k < Visited(cs) && k != me && Occupied(cs, k) ==> !Blocks(c, cs[k].value) {
        StepPosUnblocked(cs, me, c, np, distance, 0, end, c.pos, sqrt);
      }
    }
  }

  /**
   * `m_Colliding` after the map sweep of `move`: when the swept x velocity
   * `afterX` is within 0.001 of zero, the way the ramped velocity `beforeX`
   * was heading (1 right, 2 left); otherwise, or when it was not moving
   * sideways, 0.
   */
  function Colliding(beforeX: real, afterX: real): (r: int)
    ensures r == 1 <==> -0.001 < afterX < 0.001 && beforeX > 0.0
    ensures r == 2 <==> -0.001 < afterX < 0.001 && beforeX < 0.0
    ensures r == 0 <==> !(-0.001 < afterX < 0.001) || beforeX == 0.0
  {
    if -0.001 < afterX < 0.001 then
      if beforeX > 0.0 then 1 else if beforeX < 0.0 then 2 else 0
    else 0
  }

  /**
   * The bookkeeping of `move` around the map sweep of the ramped velocity
   * `before` into `after`: the tee lands when the ground probe at the swept
   * position finds ground; `colliding` is set (`Colliding`), and `leftWall`
   * is set unless the swept x velocity is within 0.001 of zero; the
   * velocity ramp `ramp` is taken off x again.
   */
  function AfterSweep(c: Core, ramp: real, before: Vec, after: Vec, grounded: bool): (r: Core)
    requires ramp != 0.0
    ensures grounded ==> !SpentBit(r.jumped) && r.jumpedTotal == 0
    ensures r.id == c.id
  {
    c.(jumped := if grounded then Landed(c.jumped) else c.jumped, jumpedTotal := if grounded then 0 else c.jumpedTotal,
       colliding := Colliding(before.x, after.x), leftWall := c.leftWall || !(-0.001 < after.x < 0.001),
       vel := Vec(Unramped(after.x, ramp), after.y))
  }

  /** The tee after `move`: `AfterSweep`, at the position the player check (when the tee checks players) leaves of the swept `np`. */
  function Moved(cs: seq<Option<Core>>, me: nat, c: Core, t: Tuning, ramp: real, v: Vec, np: Vec, nv: Vec, grounded: bool, sqrt: real -> real): Core
    requires ramp != 0.0
  {
    AfterSweep(c, ramp, v, nv, grounded).(pos := if ChecksPlayers(c, t) then PlayerCheck(cs, me, c, np, sqrt) else np)
  }

  /** The x velocity with the ramp applied, as `move` sweeps it. */
  function Ramped(x: real, ramp: real): real { x * ramp }

  /** The swept x velocity with the ramp taken off again. */
  function Unramped(x: real, ramp: real): real
    requires ramp != 0.0
  {
    x * (1.0 / ramp)
  }

  /**
   * The ramp is taken off again exactly: the velocity after `move` is the
   * swept velocity with its x divided by the ramp, so a sweep that keeps the
   * ramped velocity leaves the tee's velocity as it was.
   */
  lemma RampUndone(c: Core, ramp: real, before: Vec, after: Vec, grounded: bool)
    requires ramp != 0.0
    ensures var r := AfterSweep(c, ramp, before, after, grounded);
      r.vel.x * ramp == after.x && r.vel.y == after.y
    ensures after == Vec(Ramped(c.vel.x, ramp), c.vel.y) ==> AfterSweep(c, ramp, before, after, grounded).vel == c.vel
  {
    var r := AfterSweep(c, ramp, before, after, grounded);
    assert r.vel == Vec(after.x * (1.0 / ramp), after.y);
    assert after.x * (1.0 / ramp) * ramp == after.x;
  }

  /**
   * A player grab released because its slot emptied or the tee has no id
   * does not pull the tee in the same tick: the hook is back at the tee.
   */
  lemma GrabReleaseKeepsVelocity(cs: seq<Option<Core>>, c: Core, t: Tuning, sqrt: real -> real)
    requires IsSqrt(sqrt) && 0 <= c.hookedPlayer < |cs| && (cs[c.hookedPlayer].None? || c.id == -1)
    ensures GrabbedBody(cs, c, t, sqrt).vel == c.vel
  {
    GrabbedOutcome(cs, c, t, sqrt);
    NoPullAtTee(c, t, sqrt);
  }

  /** With the hook back at the tee there is nothing to pull towards. */
  lemma NoPullAtTee(c: Core, t: Tuning, sqrt: real -> real)
    requires IsSqrt(sqrt)
    ensures WorldPull(-1, c.pos, c, t, sqrt) == c.vel
  {
    assert Sub(c.pos, c.pos) == Zero;
    LengthZero(Sub(c.pos, c.pos), sqrt);
  }

  /**
   * The world's character list (`m_pWorld.m_apCharacters`) as slots that
   * may be empty, together with the collision world the characters use.
   */
  class Roster {
    var chars: seq<Option<Core>>
    const collision: CollisionWorld?

    predicate Slot(i: int)
      reads this
    {
      Occupied(chars, i)
    }

    ghost predicate Valid()
      reads this, collision
    {
      (collision != null ==> collision.Valid()) && WellFormed(chars)
    }

    ghost predicate HooksConsistent()
      reads this
    {
      Consistent(chars)
    }

    constructor (chars: seq<Option<Core>>, collision: CollisionWorld?)
      ensures this.chars == chars && this.collision == collision
    {
      this.chars := chars;
      this.collision := collision;
    }

    /** The ground probe of `tick` and `move`: either point 5 units below a bottom corner of the box is solid. */
    predicate Grounded(pos: Vec)
      requires Valid() && collision != null
      reads this, collision, collision.Repr()
    {
      collision.CollidePoint(Vec(pos.x + PhysicalSize / 2.0, pos.y + PhysicalSize / 2.0 + 5.0))
      || collision.CollidePoint(Vec(pos.x - PhysicalSize / 2.0, pos.y + PhysicalSize / 2.0 + 5.0))
    }

    /** `set_hooked_player(h)`, whose effect `Relink` describes; the hook links stay consistent. */
    method SetHookedPlayer(me: nat, h: int)
      requires Valid() && Slot(me) && (h == -1 || 0 <= h < |chars|)
      modifies this
      ensures chars == Relink(old(chars), me, h)
      ensures Valid() && (old(HooksConsistent()) ==> HooksConsistent())
      ensures Unmoved(old(chars), chars, me) && Slot(me)
      ensures Body(chars[me].value) == Body(old(chars[me].value)) && chars[me].value.hookedPlayer == h
      ensures chars[me].value.id == old(chars[me].value.id)
    {
      RelinkKeepsLinks(chars, me, h);
      RelinkUnmoved(chars, me, h);
      RelinkEffect(chars, me, h);
      var c := chars[me].value;
      if h != c.hookedPlayer {
        if c.hookedPlayer != -1 && c.id != -1 && chars[c.hookedPlayer].Some? {
          var t := chars[c.hookedPlayer].value;
          chars := chars[c.hookedPlayer := Some(t.(attached := t.attached - {c.id}))];
        }
        if h != -1 && c.id != -1 && chars[h].Some? {
          var t := chars[h].value;
          chars := chars[h := Some(t.(attached := t.attached + {c.id}))];
        }
        chars := chars[me := Some(chars[me].value.(hookedPlayer := h))];
      }
    }
  
    /**
     * `reset`: the character's id leaves the attached set of the player it
     * hooked, and the character gets `ResetCore`'s state (the hooked player
     * is updated before the other fields in the source; neither step reads
     * what the other writes). The hook links stay consistent exactly when no
     * other character with an id hooks it (`ResetLinks`).
     */
    method Reset(me: nat)
      requires Valid() && Slot(me)
      modifies this
      ensures Valid() && chars == ResetList(old(chars), me)
    {
      ResetListFacts(chars, me);
      SetHookedPlayer(me, -1);
      var c := chars[me].value;
      chars := chars[me := Some(ResetCore(c))];
    }

    /** Overwrite the character in slot `me` with `d`, keeping its hook links (`attached`, `hookedPlayer`). */
    method WriteBody(me: nat, d: Core)
      requires Valid() && Slot(me) && d.id == chars[me].value.id
      modifies this
      ensures Valid() && (old(HooksConsistent()) ==> HooksConsistent())
      ensures Unmoved(old(chars), chars, me) && Slot(me)
      ensures Body(chars[me].value) == Body(d)
      ensures chars[me].value.hookedPlayer == old(chars[me].value.hookedPlayer)
      ensures chars[me].value.attached == old(chars[me].value.attached)
    {
      var c := chars[me].value;
      var e := d.(attached := c.attached, hookedPlayer := c.hookedPlayer);
      ReplaceKeepsLinks(chars, me, e);
      chars := chars[me := Some(e)];
    }

    /**
     * The input part of `tick`: `InputBody` on the tee, whose hook link is
     * cut (`set_hooked_player(-1)`) when the input throws or releases the hook.
     */
    method ApplyInput(me: nat, grounded: bool, dir: Vec, t: Tuning)
      requires Valid() && Slot(me)
      modifies this
      ensures Valid() && (old(HooksConsistent()) ==> HooksConsistent())
      ensures Unmoved(old(chars), chars, me) && Slot(me)
      ensures Body(chars[me].value) == Body(InputBody(old(chars[me].value), grounded, dir, t))
      ensures chars[me].value.hookedPlayer == if InputDetaches(old(chars[me].value)) then -1 else old(chars[me].value.hookedPlayer)
    {
      ghost var cs0 := chars;
      var c := chars[me].value;
      if InputDetaches(c) {
        SetHookedPlayer(me, -1);
      }
      ghost var cs1 := chars;
      WriteBody(me, InputBody(c, grounded, dir, t));
      UnmovedTrans(cs0, cs1, chars, me);
    }

    /** What the flying-hook step makes of the tee (`hookedPlayer` holds the hook link it ends with). */
    function FlyingResult(me: nat, t: Tuning, sqrt: real -> real): Core
      requires Valid() && Slot(me) && collision != null
      reads this, collision, collision.Repr()
    {
      var c := chars[me].value;
      var f := Fly(c, t, sqrt);
      var g := if !c.hookHitDisabled && t.playerHooking
               then GrabScan(chars, me, 0, Visited(chars), c.hookPos, f.newPos, Grab(c.hookedPlayer, 0.0, false), sqrt)
               else Grab(c.hookedPlayer, 0.0, false);
      var solid := !g.grabbed && !f.retract && collision.CollidePoint(f.newPos);
      FlyingBody(c, f, g.grabbed, solid).(hookedPlayer := g.hooked)
    }

    /**
     * The player loop of a flying hook moving from `hookPos` to `newPos`:
     * each candidate that is the first or strictly nearer than the last
     * grabbed one is hooked through `set_hooked_player`; the outcome is
     * `GrabScan`'s.
     */
    method GrabPlayers(me: nat, hookPos: Vec, newPos: Vec, sqrt: real -> real) returns (grabbed: bool)
      requires Valid() && Slot(me)
      modifies this
      ensures Valid() && (old(HooksConsistent()) ==> HooksConsistent())
      ensures Unmoved(old(chars), chars, me) && Slot(me) && Body(chars[me].value) == Body(old(chars[me].value))
      ensures chars[me].value.id == old(chars[me].value.id)
      ensures var g := GrabScan(old(chars), me, 0, Visited(old(chars)), hookPos, newPos, Grab(old(chars[me].value.hookedPlayer), 0.0, false), sqrt);
        grabbed == g.grabbed && chars[me].value.hookedPlayer == g.hooked
    {
      var cs0 := chars;
      var c := chars[me].value;
      grabbed := false;
      var distance := 0.0;
      var n := Visited(chars);
      var i := 0;
      while i < n
        invariant 0 <= i <= n && n == Visited(cs0)
        invariant Kept(cs0, me)
        invariant old(HooksConsistent()) ==> HooksConsistent()
        invariant GrabScan(cs0, me, 0, n, hookPos, newPos, Grab(c.hookedPlayer, 0.0, false), sqrt)
          == GrabScan(cs0, me, i, n, hookPos, newPos, Grab(chars[me].value.hookedPlayer, distance, grabbed), sqrt)
      {
        ghost var g := Grab(chars[me].value.hookedPlayer, distance, grabbed);
        distance, grabbed := GrabSlot(me, i, cs0, hookPos, newPos, distance, grabbed, sqrt);
        GrabScanStep(cs0, me, i, n, hookPos, newPos, g, sqrt);
        i := i + 1;
      }
    }

    /**
     * Since `cs0`, only the attached sets and the hook link of slot `me`
     * changed: the list is well formed and slot `me` keeps its body and id.
     */
    ghost predicate Kept(cs0: seq<Option<Core>>, me: nat)
      reads this, collision
    {
      && Valid() && Slot(me) && me < |cs0| && cs0[me].Some? && Unmoved(cs0, chars, me)
      && Body(chars[me].value) == Body(cs0[me].value) && chars[me].value.id == cs0[me].value.id
    }

    method GrabSlot(me: nat, i: nat, cs0: seq<Option<Core>>, hookPos: Vec, newPos: Vec, distance: real, grabbed: bool, sqrt: real -> real)
      returns (distance': real, grabbed': bool)
      requires Kept(cs0, me) && i < |chars|
      modifies this
      ensures Kept(cs0, me) && (old(HooksConsistent()) ==> HooksConsistent())
      ensures Grab(chars[me].value.hookedPlayer, distance', grabbed')
        == GrabNext(cs0, me, i, hookPos, newPos, Grab(old(chars[me].value.hookedPlayer), distance, grabbed), sqrt)
    {
      distance', grabbed' := distance, grabbed;
      if Candidate(cs0, me, i, hookPos, newPos, sqrt) {
        var d := HookDistance(cs0, i, hookPos, sqrt);
        if chars[me].value.hookedPlayer == -1 || d < distance {
          ghost var cs1 := chars;
          SetHookedPlayer(me, i);
          UnmovedTrans(cs0, cs1, chars, me);
          grabbed' := true;
          distance' := d;
        }
      }
    }

    /**
     * The flying-hook step of `tick`: `Fly`, then the player loop (unless
     * hook hits are disabled or the tuning forbids player hooking), then
     * the map check of a hook still flying; `FlyingResult` is the outcome.
     */
    method FlyingStep(me: nat, t: Tuning, sqrt: real -> real)
      requires Valid() && Slot(me) && collision != null
      modifies this
      ensures Valid() && (old(HooksConsistent()) ==> HooksConsistent())
      ensures Unmoved(old(chars), chars, me) && Slot(me)
      ensures var r := old(FlyingResult(me, t, sqrt));
        Body(chars[me].value) == Body(r) && chars[me].value.hookedPlayer == r.hookedPlayer
    {
      ghost var cs0 := chars;
      ghost var r := FlyingResult(me, t, sqrt);
      var c := chars[me].value;
      var f := Fly(c, t, sqrt);
      ghost var g := if !c.hookHitDisabled && t.playerHooking
                     then GrabScan(chars, me, 0, Visited(chars), c.hookPos, f.newPos, Grab(c.hookedPlayer, 0.0, false), sqrt)
                     else Grab(c.hookedPlayer, 0.0, false);
      ghost var solid0 := !g.grabbed && !f.retract && collision.CollidePoint(f.newPos);
      assert r == FlyingBody(c, f, g.grabbed, solid0).(hookedPlayer := g.hooked);
      var grabbed := false;
      if !c.hookHitDisabled && t.playerHooking {
        grabbed := GrabPlayers(me, c.hookPos, f.newPos, sqrt);
      }
      assert grabbed == g.grabbed && chars[me].value.hookedPlayer == g.hooked;
      var solid := !grabbed && !f.retract && collision.CollidePoint(f.newPos);
      assert solid == solid0;
      ghost var cs1 := chars;
      var d := FlyingBody(c, f, grabbed, solid);
      BodyIgnoresLink(d, g.hooked);
      WriteBody(me, d);
      UnmovedTrans(cs0, cs1, chars, me);
    }

    /**
     * The first link change of the grabbed-hook step: a player grab whose
     * slot emptied, or held by a tee without an id, is released with
     * `set_hooked_player(-1)`.
     */
    method FollowHooked(me: nat)
      requires Valid() && Slot(me)
      modifies this
      ensures Valid() && (old(HooksConsistent()) ==> HooksConsistent())
      ensures Unmoved(old(chars), chars, me) && Slot(me) && Body(chars[me].value) == Body(old(chars[me].value))
      ensures chars[me].value.id == old(chars[me].value.id)
      ensures var c := old(chars[me].value);
        chars[me].value.hookedPlayer
          == if c.hookedPlayer != -1 && (old(chars[c.hookedPlayer]).None? || c.id == -1) then -1 else c.hookedPlayer
    {
      var c := chars[me].value;
      if c.hookedPlayer != -1 && (chars[c.hookedPlayer].None? || c.id == -1) {
        SetHookedPlayer(me, -1);
      }
    }

    /**
     * The grabbed-hook step of `tick`, as `GrabbedBody` states it; each
     * release goes through `set_hooked_player(-1)`.
     */
    method GrabbedStep(me: nat, t: Tuning, sqrt: real -> real)
      requires Valid() && Slot(me)
      modifies this
      ensures Valid() && (old(HooksConsistent()) ==> HooksConsistent())
      ensures Unmoved(old(chars), chars, me) && Slot(me)
      ensures var r := GrabbedBody(old(chars), old(chars[me].value), t, sqrt);
        Body(chars[me].value) == Body(r) && chars[me].value.hookedPlayer == r.hookedPlayer
    {
      var cs0 := chars;
      var c := chars[me].value;
      FollowHooked(me);
      ghost var cs1 := chars;
      var hooked := chars[me].value.hookedPlayer;
      if hooked != -1 && (c.hookTick + 1.0 > HookGrabTicks || hooked >= |chars| || chars[hooked].None?) {
        SetHookedPlayer(me, -1);
      }
      UnmovedTrans(cs0, cs1, chars, me);
      ghost var cs2 := chars;
      GrabbedOutcome(cs0, c, t, sqrt);
      WriteBody(me, GrabbedBody(cs0, c, t, sqrt));
      UnmovedTrans(cs0, cs2, chars, me);
    }

    /** What the hook step of `tick` makes of the tee, by hook state (`hookedPlayer` holds the link it ends with). */
    function HookResult(me: nat, t: Tuning, sqrt: real -> real): Core
      requires Valid() && Slot(me) && collision != null
      reads this, collision, collision.Repr()
    {
      var c := chars[me].value;
      if c.hookState == HookFlying then FlyingResult(me, t, sqrt)
      else if c.hookState == HookGrabbed then GrabbedBody(chars, c, t, sqrt)
      else if c.hookState == HookIdle then HookTimer(c).(hookedPlayer := -1)
      else HookTimer(c)
    }

    /**
     * The hook step of `tick`: an idle hook drops its link
     * (`set_hooked_player(-1)`) and stays at the tee; the retract states
     * count on; a flying and a grabbed hook take their own steps.
     */
    method HookStep(me: nat, t: Tuning, sqrt: real -> real)
      requires Valid() && Slot(me) && collision != null
      modifies this
      ensures Valid() && (old(HooksConsistent()) ==> HooksConsistent())
      ensures Unmoved(old(chars), chars, me) && Slot(me)
      ensures var r := old(HookResult(me, t, sqrt));
        Body(chars[me].value) == Body(r) && chars[me].value.hookedPlayer == r.hookedPlayer
    {
      var c := chars[me].value;
      if c.hookState == HookFlying {
        FlyingStep(me, t, sqrt);
      } else if c.hookState == HookGrabbed {
        GrabbedStep(me, t, sqrt);
      } else {
        ghost var cs0 := chars;
        if c.hookState == HookIdle {
          SetHookedPlayer(me, -1);
        }
        ghost var cs1 := chars;
        var d := HookTimer(c);
        BodyIgnoresLink(d, -1);
        WriteBody(me, d);
        UnmovedTrans(cs0, cs1, chars, me);
      }
    }

    /**
     * `tick_deferred`: the pair loop over the visited slots, carrying the
     * tee's state (the loop skips the tee's own slot) and writing the
     * dragged hooked player back, then `newHook` and the speed cap.
     */
    method TickDeferred(me: nat, t: Tuning, sqrt: real -> real)
      requires Valid() && Slot(me) && 0.0 < t.hookLength
      modifies this
      ensures chars == DeferredList(old(chars), me, t, sqrt)
      ensures Valid() && (old(HooksConsistent()) ==> HooksConsistent())
    {
      ghost var cs0 := chars;
      var c := chars[me].value;
      var n := Visited(chars);
      var i := 0;
      while i < n
        invariant 0 <= i <= n && n == Visited(cs0) && |chars| == |cs0|
        invariant PairPass(cs0, me, 0, n, cs0[me].value, t, sqrt) == PairPass(chars, me, i, n, c, t, sqrt)
      {
        var s := PairStep(chars, me, i, c, t, sqrt);
        c, chars := s.0, s.1;
        i := i + 1;
      }
      c := c.(newHook := c.newHook && c.hookState == HookFlying);
      chars := chars[me := Some(c.(vel := CapSpeed(c.vel, sqrt)))];
      DeferredFacts(cs0, me, t, sqrt);
      SameLinksKeep(cs0, chars);
    }

    /**
     * The movement part of `tick` for a tee on the ground (`grounded`) aiming
     * along `dir`: gravity, the input (when `useInput`), then landing and
     * steering; only the tee's own slot changes.
     */
    method TickControl(me: nat, grounded: bool, dir: Vec, useInput: bool, t: Tuning)
      requires Valid() && Slot(me)
      modifies this
      ensures Valid() && (old(HooksConsistent()) ==> HooksConsistent())
      ensures Unmoved(old(chars), chars, me) && Slot(me)
      ensures Body(chars[me].value) == Body(Controlled(old(chars[me].value), grounded, dir, useInput, t))
      ensures chars[me].value.hookedPlayer ==
        if useInput && InputDetaches(old(chars[me].value)) then -1 else old(chars[me].value.hookedPlayer)
    {
      ghost var cs0 := chars;
      var c := chars[me].value;
      ghost var g := Fallen(c, t);
      ghost var i := if useInput then InputBody(g, grounded, dir, t) else g;
      FallAndInput(me, grounded, dir, useInput, t);
      var x := chars[me].value;
      ControlledSteps(c, g, i, grounded, dir, useInput, t);
      ghost var cs1 := chars;
      LandAndSteerIgnoresLink(x, grounded, t);
      LandAndSteerIgnoresLink(i, grounded, t);
      WriteBody(me, LandAndSteer(x, grounded, t));
      UnmovedTrans(cs0, cs1, chars, me);
    }

    /** Gravity and then, when `useInput`, the input step of `tick`, on the tee's slot only. */
    method FallAndInput(me: nat, grounded: bool, dir: Vec, useInput: bool, t: Tuning)
      requires Valid() && Slot(me)
      modifies this
      ensures Valid() && (old(HooksConsistent()) ==> HooksConsistent())
      ensures Unmoved(old(chars), chars, me) && Slot(me)
      ensures var g := Fallen(old(chars[me].value), t);
        Body(chars[me].value) == Body(if useInput then InputBody(g, grounded, dir, t) else g)
      ensures chars[me].value.hookedPlayer ==
        if useInput && InputDetaches(old(chars[me].value)) then -1 else old(chars[me].value.hookedPlayer)
    {
      ghost var cs0 := chars;
      var c := chars[me].value;
      var g := Fallen(c, t);
      WriteBody(me, g);
      if useInput {
        ghost var cs1 := chars;
        ghost var x := chars[me].value;
        InputBodyIgnoresLink(x, grounded, dir, t);
        InputBodyIgnoresLink(g, grounded, dir, t);
        ApplyInput(me, grounded, dir, t);
        UnmovedTrans(cs0, cs1, chars, me);
      }
    }

    /**
     * `tick`: the ground probe and the aim, the movement part
     * (`TickControl`), the hook step, then the deferred tick (when
     * `doDeferred`). Without the deferred tick only the tee's own slot
     * changes; in any case the roster stays well-formed and its hook links
     * stay consistent.
     */
    method Tick(me: nat, useInput: bool, doDeferred: bool, t: Tuning, sqrt: real -> real)
      requires Valid() && Slot(me) && collision != null
      requires doDeferred ==> 0.0 < t.hookLength
      modifies this
      ensures Valid() && (old(HooksConsistent()) ==> HooksConsistent())
      ensures |chars| == old(|chars|) && Slot(me)
      ensures !doDeferred ==> Unmoved(old(chars), chars, me)
    {
      ghost var cs0 := chars;
      var c := chars[me].value;
      var grounded := Grounded(c.pos);
      var dir := TargetDirection(c, sqrt);
      TickControl(me, grounded, dir, useInput, t);
      ghost var cs1 := chars;
      HookStep(me, t, sqrt);
      UnmovedTrans(cs0, cs1, chars, me);
      if doDeferred {
        TickDeferred(me, t, sqrt);
      }
    }

    /** The map sweep of `move` for velocity `v` from `pos`: `move_box` and the ground probe at its end, or a free move without a collision world. */
    function SweepResult(pos: Vec, v: Vec): (Vec, Vec, bool)
      requires Valid()
      reads this, collision, if collision != null then collision.Repr() else {}
    {
      if collision == null then (Add(pos, v), v, false)
      else
        var (np, nv) := collision.MoveBoxSpec(pos, Vec(PhysicalSize, PhysicalSize), v);
        (np, nv, Grounded(np))
    }

    /** What `move` makes of the tee: ramp, sweep, bookkeeping, then the player check when the tee checks players. */
    function MoveResult(me: nat, t: Tuning, pow: (real, real) -> real, sqrt: real -> real): Core
      requires Valid() && Slot(me) && TuningValid(t) && IsPow(pow)
      reads this, collision, if collision != null then collision.Repr() else {}
    {
      var c := chars[me].value;
      var ramp := MoveRamp(c, t, pow, sqrt);
      var v := Vec(Ramped(c.vel.x, ramp), c.vel.y);
      var s := SweepResult(c.pos, v);
      Moved(chars, me, c, t, ramp, v, s.0, s.1, s.2, sqrt)
    }

    /**
     * The player check of `move`: walk from the tee (`c`) towards `np` in
     * unit steps and stop at the first step within 28 units of a character
     * that blocks it.
     */
    method WalkToward(me: nat, c: Core, np: Vec, sqrt: real -> real) returns (pos: Vec)
      ensures pos == PlayerCheck(chars, me, c, np, sqrt)
    {
      var distance := Length(Sub(np, c.pos), sqrt);
      if !(distance > 0.0) {
        return np;
      }
      var end := (distance.Floor + 1) as nat;
      var lastPos := c.pos;
      var i := 0;
      while i < end
        invariant 0 <= i <= end
        invariant StepPos(chars, me, c, np, distance, 0, end, c.pos, sqrt) == StepPos(chars, me, c, np, distance, i, end, lastPos, sqrt)
      {
        var a := i as real / distance;
        var p := Add(c.pos, Scale(Sub(np, c.pos), a));
        var b := FindBlocker(me, c, p, sqrt);
        if b != -1 {
          if a > 0.0 {
            return lastPos;
          } else if Length(Sub(np, chars[b].value.pos), sqrt) > Length(Sub(p, chars[b].value.pos), sqrt) {
            return np;
          } else {
            return c.pos;
          }
        }
        lastPos := p;
        i := i + 1;
      }
      return np;
    }

    /** The scan over the visited slots for the first character that stops the tee at `pos`. */
    method FindBlocker(me: nat, c: Core, pos: Vec, sqrt: real -> real) returns (b: int)
      ensures b == FirstBlocker(chars, me, c, pos, 0, Visited(chars), sqrt)
    {
      var n := Visited(chars);
      var j := 0;
      while j < n
        invariant 0 <= j <= n
        invariant FirstBlocker(chars, me, c, pos, 0, n, sqrt) == FirstBlocker(chars, me, c, pos, j, n, sqrt)
      {
        if Occupied(chars, j) && j != me && Blocks(c, chars[j].value) && Length(Sub(pos, chars[j].value.pos), sqrt) < PhysicalSize {
          return j;
        }
        j := j + 1;
      }
      return -1;
    }

    /** `move`: the tee's new state is `MoveResult`; nothing else changes. */
    method Move(me: nat, t: Tuning, pow: (real, real) -> real, sqrt: real -> real)
      requires Valid() && Slot(me) && TuningValid(t) && IsPow(pow)
      modifies this
      ensures Valid() && (old(HooksConsistent()) ==> HooksConsistent())
      ensures Unmoved(old(chars), chars, me) && Slot(me)
      ensures Body(chars[me].value) == Body(old(MoveResult(me, t, pow, sqrt)))
      ensures chars[me].value.hookedPlayer == old(chars[me].value.hookedPlayer)
    {
      ghost var m := MoveResult(me, t, pow, sqrt);
      var c := chars[me].value;
      var ramp := MoveRamp(c, t, pow, sqrt);
      var v := Vec(Ramped(c.vel.x, ramp), c.vel.y);
      ghost var sw := SweepResult(c.pos, v);
      assert m == Moved(chars, me, c, t, ramp, v, sw.0, sw.1, sw.2, sqrt);
      var np, nv, grounded := Add(c.pos, v), v, false;
      if collision != null {
        np, nv := collision.MoveBox(c.pos, Vec(PhysicalSize, PhysicalSize), v);
        assert collision.tileMap == old(collision.tileMap);
        assert collision.Repr() == old(collision.Repr());
        assert (np, nv) == old(collision.MoveBoxSpec(c.pos, Vec(PhysicalSize, PhysicalSize), v));
        grounded := Grounded(np);
        assert grounded == old(Grounded(np));
      }
      assert (np, nv, grounded) == sw;
      var d := AfterSweep(c, ramp, v, nv, grounded);
      var pos := np;
      if ChecksPlayers(c, t) {
        pos := WalkToward(me, c, np, sqrt);
      }
      assert d.(pos := pos) == Moved(chars, me, c, t, ramp, v, np, nv, grounded, sqrt);
      WriteBody(me, d.(pos := pos));
    }
  }
}

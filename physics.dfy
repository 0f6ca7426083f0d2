/**
 * The second, time-step based character physics of `arcgame/game/physics.py`:
 * a character with position, velocity, a three-state hook and two air-jump
 * flags, advanced by `dt` seconds, and the world that holds the characters.
 * Lengths take the square root as a parameter, as in `Vec2`.
 */
module Physics {
  import opened Vec2
  import opened Collision

  /** The six input flags; `update_input` overwrites those named in its dictionary. */
  datatype Input = Input(left: bool, right: bool, up: bool, down: bool, jump: bool, hook: bool)

  const NoInput := Input(false, false, false, false, false, false)

  datatype HookState = Idle | Flying | Grabbed

  /** The `jumped` list: the first and the second air jump have been used. */
  datatype JumpFlags = JumpFlags(first: bool, second: bool)

  const Fresh := JumpFlags(false, false)

  const AirControl := 250.0
  const GroundControl := 200.0
  const AirFriction := 0.95
  const GroundFriction := 0.92
  const MaxSpeed := 100.0
  const JumpImpulse := 6.0
  const Gravity := Vec(0.0, 500.0)
  const HookMaxDistance := 384.0
  const HookFireSpeed := 800.0
  const HookDragAccel := 3.0
  /** How far in front of the character a fired hook starts. */
  const HookStart := 24.0
  /** The box `move_with_collision` and `is_on_ground` test. */
  const BodySize := Vec(20.0, 20.0)

  /** The horizontal push of one update: toward the pressed side (left wins), 200 per second on the ground, 250 in the air. */
  function Push(input: Input, onGround: bool, dt: real): (r: real)
    ensures !input.left && !input.right ==> r == 0.0
    ensures input.left ==> r == -(if onGround then GroundControl else AirControl) * dt
    ensures !input.left && input.right ==> r == (if onGround then GroundControl else AirControl) * dt
  {
    if input.left || input.right then
      var direction := if input.left then -1.0 else 1.0;
      var acceleration := if onGround then GroundControl else AirControl;
      direction * acceleration * dt
    else 0.0
  }

  /** Which jump, if any, a held jump input performs. */
  datatype Jump = NoJump | GroundJump | FirstAirJump | SecondAirJump

  /** The jump rule of `apply_input_forces`: from the ground, else the first air jump, else the second after the first. */
  function JumpOf(jump: bool, onGround: bool, flags: JumpFlags): (j: Jump)
    ensures !jump ==> j == NoJump
    ensures jump && onGround ==> j == GroundJump
    ensures j == SecondAirJump ==> flags.first && !flags.second
    ensures j == FirstAirJump ==> !flags.first && !onGround
    ensures jump && !onGround && (!flags.first || !flags.second) ==> j != NoJump
  {
    if jump && onGround then GroundJump
    else if jump && !flags.first then FirstAirJump
    else if jump && !flags.second && flags.first then SecondAirJump
    else NoJump
  }

  /** One flag after `dict.update(changes)`: the new value when `changes` names it, the old one otherwise. */
  function Override(flag: bool, name: string, changes: map<string, bool>): (r: bool)
    ensures name in changes ==> r == changes[name]
    ensures name !in changes ==> r == flag
  {
    if name in changes then changes[name] else flag
  }

  /** `update_input`: each of the six flags named in `changes` takes its value there; the others keep theirs. */
  function Overridden(current: Input, changes: map<string, bool>): (r: Input)
    ensures r.left == if "left" in changes then changes["left"] else current.left
    ensures r.right == if "right" in changes then changes["right"] else current.right
    ensures r.up == if "up" in changes then changes["up"] else current.up
    ensures r.down == if "down" in changes then changes["down"] else current.down
    ensures r.jump == if "jump" in changes then changes["jump"] else current.jump
    ensures r.hook == if "hook" in changes then changes["hook"] else current.hook
    ensures changes == map[] ==> r == current
  {
    Input(Override(current.left, "left", changes), Override(current.right, "right", changes),
      Override(current.up, "up", changes), Override(current.down, "down", changes),
      Override(current.jump, "jump", changes), Override(current.hook, "hook", changes))
  }

  /** A unit direction scaled by `m` is `m` long. */
  lemma ScaledUnit(dir: Vec, m: real)
    requires LengthSq(dir) == 1.0
    ensures LengthSq(Scale(dir, m)) == Square(m)
  {
    ScaleLengthSq(dir, m);
  }

  /** The zero direction scaled stays zero. */
  lemma ScaledZero(pos: Vec, dir: Vec)
    requires dir == Zero
    ensures Add(pos, Scale(dir, HookStart)) == pos && Scale(dir, HookFireSpeed) == Zero
  {
  }

  /** A point moved by `w` is `|w|` away from where it was. */
  lemma OffsetDistance(p: Vec, w: Vec)
    ensures DistanceSq(Add(p, w), p) == LengthSq(w)
  {
    assert Sub(Add(p, w), p) == w;
  }

  /** A fired hook toward a target away from the body starts 24 units out. */
  lemma HookLaunchStart(pos: Vec, target: Vec, sqrt: real -> real)
    requires IsSqrt(sqrt) && target != pos
    ensures DistanceSq(Add(pos, Scale(Normalize(Sub(target, pos), sqrt), HookStart)), pos) == Square(HookStart)
  {
    var d := Sub(target, pos);
    assert d != Zero by {
      assert target.x != pos.x || target.y != pos.y;
    }
    var dir := Normalize(d, sqrt);
    NormalizeUnit(d, sqrt);
    ScaledUnit(dir, HookStart);
    OffsetDistance(pos, Scale(dir, HookStart));
  }

  /** A fired hook toward a target away from the body flies 800 units per second. */
  lemma HookLaunchSpeed(pos: Vec, target: Vec, sqrt: real -> real)
    requires IsSqrt(sqrt) && target != pos
    ensures LengthSq(Scale(Normalize(Sub(target, pos), sqrt), HookFireSpeed)) == Square(HookFireSpeed)
  {
    var d := Sub(target, pos);
    assert d != Zero by {
      assert target.x != pos.x || target.y != pos.y;
    }
    NormalizeUnit(d, sqrt);
    ScaledUnit(Normalize(d, sqrt), HookFireSpeed);
  }

  /** A hook fired at the body itself starts on the body and does not move. */
  lemma HookLaunchAtBody(pos: Vec, sqrt: real -> real)
    requires IsSqrt(sqrt)
    ensures var dir := Normalize(Sub(pos, pos), sqrt);
      Add(pos, Scale(dir, HookStart)) == pos && Scale(dir, HookFireSpeed) == Zero
  {
    assert Sub(pos, pos) == Zero;
    NormalizeUnit(Sub(pos, pos), sqrt);
    ScaledZero(pos, Normalize(Sub(pos, pos), sqrt));
  }

  /** Zeroing velocity components never makes the vector longer. */
  lemma ZeroingShrinks(v: Vec, r: Vec)
    requires (r.x == v.x || r.x == 0.0) && (r.y == v.y || r.y == 0.0)
    ensures LengthSq(r) <= LengthSq(v)
  {
    SquareNonNegative(v.x);
    SquareNonNegative(v.y);
  }

  /** The ground probe of `is_on_ground`: the box one unit below the body's height collides. */
  predicate GroundBelow(cw: CollisionWorld, p: Vec)
    requires cw.Valid()
    reads cw, cw.Repr()
  {
    cw.CollideRect(Vec(p.x, p.y + BodySize.y + 1.0), BodySize)
  }

  /**
   * `move_with_collision` from `pos` at `vel` for `dt` seconds, answering
   * the new position, velocity and ground flag. Without a collision world,
   * a plain move by `vel * dt`. Otherwise a free target is taken whole; a
   * blocked one is tried along X, then along Y from wherever X left the
   * body, and each blocked axis has its velocity zeroed. The source zeroes
   * `vel.y` before testing `vel.y >= 0`, so a blocked Y move always lands.
   */
  function Slide(cw: CollisionWorld?, pos: Vec, vel: Vec, dt: real, onGround: bool): (Vec, Vec, bool)
    requires cw != null ==> cw.Valid()
    reads cw, if cw != null then cw.Repr() else {}
  {
    var n := Add(pos, Scale(vel, dt));
    if cw == null then (n, vel, onGround)
    else if !cw.CollideRect(n, BodySize) then (n, vel, GroundBelow(cw, n))
    else
      var xFree := !cw.CollideRect(Vec(n.x, pos.y), BodySize);
      var px := if xFree then n.x else pos.x;
      var yFree := !cw.CollideRect(Vec(px, n.y), BodySize);
      var newPos := Vec(px, if yFree then n.y else pos.y);
      var newVel := Vec(if xFree then vel.x else 0.0, if yFree then vel.y else 0.0);
      (newPos, newVel, if yFree then GroundBelow(cw, newPos) else newVel.y >= 0.0)
  }

  /**
   * What a slide promises: each velocity component is kept or zeroed (so
   * the speed never grows); with a collision world the body ends where it
   * was or in free space, and a blocked vertical move always lands it;
   * without one the move is exactly `pos + vel * dt`.
   */
  lemma SlideFacts(cw: CollisionWorld?, pos: Vec, vel: Vec, dt: real, onGround: bool)
    requires cw != null ==> cw.Valid()
    ensures var (p, v, g) := Slide(cw, pos, vel, dt, onGround);
      && (v.x == vel.x || v.x == 0.0) && (v.y == vel.y || v.y == 0.0)
      && LengthSq(v) <= LengthSq(vel)
      && (cw == null ==> p == Add(pos, Scale(vel, dt)) && v == vel && g == onGround)
      && (cw != null ==> p == pos || !cw.CollideRect(p, BodySize))
      && (cw != null && p.y != Add(pos, Scale(vel, dt)).y ==> v.y == 0.0 && g)
  {
    var (p, v, g) := Slide(cw, pos, vel, dt, onGround);
    ZeroingShrinks(vel, v);
  }

  /** Everything of a character that `update` changes or reads back, besides the input and the collision world. */
  datatype Body = Body(pos: Vec, vel: Vec, jumped: JumpFlags, doubleJumped: bool, onGround: bool,
                       hookState: HookState, hookPos: Vec, hookVel: Vec)

  /**
   * `update_hook_flying` on a body: the hook advances by `hookVel * dt`;
   * beyond reach it goes idle at the advanced point, on a solid point it
   * grabs where it was, and otherwise it flies on from the advanced point.
   */
  function HookFlown(b: Body, dt: real, sqrt: real -> real, cw: CollisionWorld?): (r: Body)
    requires cw != null ==> cw.Valid()
    reads cw, if cw != null then cw.Repr() else {}
    ensures r.hookState != Idle ==> Distance(Add(b.hookPos, Scale(b.hookVel, dt)), b.pos, sqrt) <= HookMaxDistance
    ensures r.hookState == Grabbed <==>
      r.hookState != Idle && (b.hookState == Grabbed || (cw != null && cw.CollidePoint(Add(b.hookPos, Scale(b.hookVel, dt)))))
    ensures r.(hookState := b.hookState, hookPos := b.hookPos) == b
  {
    var a := Add(b.hookPos, Scale(b.hookVel, dt));
    if Distance(a, b.pos, sqrt) > HookMaxDistance then b.(hookState := Idle, hookPos := a)
    else if cw != null && cw.CollidePoint(a) then b.(hookState := Grabbed)
    else b.(hookPos := a)
  }

  /** `update_hook_grabbed` on a body: beyond reach the velocity gains the drag toward the hook; nothing else changes. */
  function HookDragged(b: Body, dt: real, sqrt: real -> real): (r: Body)
    ensures r.(vel := b.vel) == b
    ensures Distance(b.hookPos, b.pos, sqrt) <= HookMaxDistance ==> r == b
  {
    if Distance(b.hookPos, b.pos, sqrt) > HookMaxDistance then
      b.(vel := Add(b.vel, Scale(Normalize(Sub(b.hookPos, b.pos), sqrt), HookDragAccel * dt * 100.0)))
    else b
  }

  /** The hook step at the head of `update`: a flying hook flies, a grabbed one drags, an idle one does nothing. */
  function HookStepped(b: Body, dt: real, sqrt: real -> real, cw: CollisionWorld?): (r: Body)
    requires cw != null ==> cw.Valid()
    reads cw, if cw != null then cw.Repr() else {}
    ensures b.hookState == Idle ==> r == b
    ensures b.hookState == Grabbed ==> r.hookState == Grabbed
    ensures r.pos == b.pos && r.jumped == b.jumped && r.onGround == b.onGround && r.doubleJumped == b.doubleJumped
  {
    match b.hookState
    case Idle => b
    case Flying => HookFlown(b, dt, sqrt, cw)
    case Grabbed => HookDragged(b, dt, sqrt)
  }

  /** `apply_input_forces` on a body: the horizontal push, then the jump `JumpOf` picks. */
  function Forced(b: Body, input: Input, dt: real): (r: Body)
    ensures r.vel.x == b.vel.x + Push(input, b.onGround, dt)
    ensures JumpOf(input.jump, b.onGround, b.jumped) == NoJump ==> r.vel.y == b.vel.y
    ensures JumpOf(input.jump, b.onGround, b.jumped) != NoJump ==> r.vel.y == -JumpImpulse
    ensures r.(vel := b.vel, jumped := b.jumped, onGround := b.onGround) == b
    ensures (b.jumped.second ==> b.jumped.first) ==> (r.jumped.second ==> r.jumped.first)
  {
    var v := b.vel.(x := b.vel.x + Push(input, b.onGround, dt));
    match JumpOf(input.jump, b.onGround, b.jumped)
    case NoJump => b.(vel := v)
    case GroundJump => b.(vel := v.(y := -JumpImpulse), onGround := false, jumped := Fresh)
    case FirstAirJump => b.(vel := v.(y := -JumpImpulse), jumped := b.jumped.(first := true))
    case SecondAirJump => b.(vel := v.(y := -JumpImpulse), jumped := b.jumped.(second := true))
  }

  /**
   * The middle of `update` on a body: gravity, the input forces, friction
   * chosen from the ground flag the input forces saw, and the clamp to the
   * maximum speed.
   */
  function Accelerated(b: Body, input: Input, dt: real, sqrt: real -> real): (r: Body)
    requires IsSqrt(sqrt)
    ensures LengthSq(r.vel) <= Square(MaxSpeed)
    ensures r.(vel := b.vel, jumped := b.jumped, onGround := b.onGround) == b
  {
    var g := b.(vel := Add(b.vel, Scale(Gravity, dt)));
    var friction := if !g.onGround then AirFriction else GroundFriction;
    var f := Forced(g, input, dt);
    ClampLengthBound(Scale(f.vel, friction), MaxSpeed, sqrt);
    f.(vel := ClampLength(Scale(f.vel, friction), MaxSpeed, sqrt))
  }

  /** `update` on a body: the hook step, `Accelerated`, and the collision slide. */
  function Updated(b: Body, input: Input, dt: real, sqrt: real -> real, cw: CollisionWorld?): (r: Body)
    requires IsSqrt(sqrt) && (cw != null ==> cw.Valid())
    reads cw, if cw != null then cw.Repr() else {}
    ensures r.hookState == HookStepped(b, dt, sqrt, cw).hookState
    ensures r.hookPos == HookStepped(b, dt, sqrt, cw).hookPos && r.hookVel == b.hookVel
    ensures r.doubleJumped == b.doubleJumped
  {
    var a := Accelerated(HookStepped(b, dt, sqrt, cw), input, dt, sqrt);
    var (p, w, ground) := Slide(cw, a.pos, a.vel, dt, a.onGround);
    a.(pos := p, vel := w, onGround := ground)
  }

  /** The clamp comes before the slide, and the slide only zeroes components, so an update never ends above the maximum speed. */
  lemma UpdatedSpeed(b: Body, input: Input, dt: real, sqrt: real -> real, cw: CollisionWorld?)
    requires IsSqrt(sqrt) && (cw != null ==> cw.Valid())
    ensures LengthSq(Updated(b, input, dt, sqrt, cw).vel) <= Square(MaxSpeed)
  {
    var a := Accelerated(HookStepped(b, dt, sqrt, cw), input, dt, sqrt);
    SlideFacts(cw, a.pos, a.vel, dt, a.onGround);
  }

  /** `CharacterPhysics`: one character's state. */
  class CharacterPhysics {
    var pos: Vec
    var vel: Vec
    var input: Input
    var hookState: HookState
    var hookPos: Vec
    var hookVel: Vec
    var jumped: JumpFlags
    var doubleJumped: bool
    var onGround: bool
    var collision: CollisionWorld?

    /** The collision world is well formed, and the second air jump is only ever used after the first. */
    ghost predicate Valid()
      reads this, collision, if collision != null then collision.Repr() else {}
    {
      (collision != null ==> collision.Valid()) && (jumped.second ==> jumped.first)
    }

    /** The body this character's fields hold. */
    function State(): Body
      reads this
    {
      Body(pos, vel, jumped, doubleJumped, onGround, hookState, hookPos, hookVel)
    }

    /** A character at rest at the origin with no input, its hook idle. */
    constructor (collision: CollisionWorld?)
      requires collision != null ==> collision.Valid()
      ensures Valid() && this.collision == collision
      ensures pos == Zero && vel == Zero && input == NoInput && hookState == Idle
      ensures jumped == Fresh && !onGround && !doubleJumped
    {
      pos := Zero;
      vel := Zero;
      input := NoInput;
      hookState := Idle;
      hookPos := Zero;
      hookVel := Zero;
      jumped := Fresh;
      doubleJumped := false;
      onGround := false;
      this.collision := collision;
    }

    /** `update_input`: every flag named in `changes` takes the given value; the others keep theirs. */
    method UpdateInput(changes: map<string, bool>)
      modifies this
      ensures input.left == if "left" in changes then changes["left"] else old(input.left)
      ensures input.right == if "right" in changes then changes["right"] else old(input.right)
      ensures input.up == if "up" in changes then changes["up"] else old(input.up)
      ensures input.down == if "down" in changes then changes["down"] else old(input.down)
      ensures input.jump == if "jump" in changes then changes["jump"] else old(input.jump)
      ensures input.hook == if "hook" in changes then changes["hook"] else old(input.hook)
      ensures changes == map[] ==> input == old(input)
      ensures input == Overridden(old(input), changes)
      ensures State() == old(State())
      ensures pos == old(pos) && vel == old(vel) && hookState == old(hookState) && jumped == old(jumped)
      ensures onGround == old(onGround) && collision == old(collision)
    {
      input := Overridden(input, changes);
    }

    /** `is_on_ground`: a box one pixel below the body's height collides; never without a collision world. */
    predicate IsOnGround()
      requires Valid()
      reads this, collision, if collision != null then collision.Repr() else {}
      ensures IsOnGround() ==> collision != null && collision.tileMap != null
    {
      collision != null && GroundBelow(collision, pos)
    }

    /**
     * `apply_input_forces`: the horizontal push, then the jump rule. A
     * ground jump leaves the ground and clears both flags; an air jump sets
     * its flag. The second flag is only set on top of the first.
     */
    method ApplyInputForces(dt: real)
      requires Valid()
      modifies this
      ensures Valid()
      ensures vel.x == old(vel.x) + Push(input, old(onGround), dt)
      ensures var j := JumpOf(input.jump, old(onGround), old(jumped));
        && (j == NoJump ==> vel.y == old(vel.y) && jumped == old(jumped) && onGround == old(onGround))
        && (j == GroundJump ==> vel.y == -JumpImpulse && jumped == Fresh && !onGround)
        && (j == FirstAirJump ==> vel.y == -JumpImpulse && jumped == old(jumped).(first := true) && onGround == old(onGround))
        && (j == SecondAirJump ==> vel.y == -JumpImpulse && jumped == old(jumped).(second := true) && onGround == old(onGround))
      ensures State() == old(Forced(State(), input, dt))
      ensures pos == old(pos) && input == old(input) && collision == old(collision)
      ensures hookState == old(hookState) && hookPos == old(hookPos) && hookVel == old(hookVel)
    {
      vel := vel.(x := vel.x + Push(input, onGround, dt));
      match JumpOf(input.jump, onGround, jumped)
      case NoJump =>
      case GroundJump =>
        vel := vel.(y := -JumpImpulse);
        onGround := false;
        jumped := Fresh;
      case FirstAirJump =>
        vel := vel.(y := -JumpImpulse);
        jumped := jumped.(first := true);
      case SecondAirJump =>
        vel := vel.(y := -JumpImpulse);
        jumped := jumped.(second := true);
    }

    /** `move_with_collision` on this character's state, as a function of it. */
    method MoveWithCollision(dt: real)
      requires Valid()
      modifies this
      ensures Valid()
      ensures (pos, vel, onGround) == old(Slide(collision, pos, vel, dt, onGround))
      ensures input == old(input) && jumped == old(jumped) && collision == old(collision)
      ensures hookState == old(hookState) && hookPos == old(hookPos) && hookVel == old(hookVel)
      ensures doubleJumped == old(doubleJumped)
    {
      var n := Add(pos, Scale(vel, dt));
      if collision == null {
        pos := n;
        return;
      }
      var newPos, newVel, landed := n, vel, onGround;
      if !collision.CollideRect(n, BodySize) {
        landed := GroundBelow(collision, n);
      } else {
        var xFree := !collision.CollideRect(Vec(n.x, pos.y), BodySize);
        var px := if xFree then n.x else pos.x;
        var yFree := !collision.CollideRect(Vec(px, n.y), BodySize);
        newPos := Vec(px, if yFree then n.y else pos.y);
        newVel := Vec(if xFree then vel.x else 0.0, if yFree then vel.y else 0.0);
        landed := if yFree then GroundBelow(collision, newPos) else newVel.y >= 0.0;
      }
      assert (newPos, newVel, landed) == Slide(collision, pos, vel, dt, onGround);
      pos, vel, onGround := newPos, newVel, landed;
    }

    /**
     * `fire_hook`: refused, changing nothing, unless the hook is idle;
     * otherwise the hook starts out from the body along the normalised
     * direction to the target and flies along it (24 units out and 800
     * units per second by `HookLaunchStart` and `HookLaunchSpeed`).
     */
    method FireHook(target: Vec, sqrt: real -> real) returns (ok: bool)
      modifies this
      ensures ok <==> old(hookState) == Idle
      ensures !ok ==> hookState == old(hookState) && hookPos == old(hookPos) && hookVel == old(hookVel)
      ensures ok ==> (hookState == Flying
        && hookPos == Add(pos, Scale(Normalize(Sub(target, pos), sqrt), HookStart))
        && hookVel == Scale(Normalize(Sub(target, pos), sqrt), HookFireSpeed))
      ensures pos == old(pos) && vel == old(vel) && input == old(input) && jumped == old(jumped)
      ensures onGround == old(onGround) && collision == old(collision)
    {
      if hookState != Idle {
        return false;
      }
      var dir := Normalize(Sub(target, pos), sqrt);
      hookPos := Add(pos, Scale(dir, HookStart));
      hookVel := Scale(dir, HookFireSpeed);
      hookState := Flying;
      return true;
    }

    /**
     * `update_hook_flying`: the hook advances by `hook_vel * dt`. Past 384
     * units from the body it goes idle (keeping the advanced point); on a
     * solid point it grabs and stays where it was.
     */
    method UpdateHookFlying(dt: real, sqrt: real -> real)
      requires Valid()
      modifies this
      ensures Valid()
      ensures var a := Add(old(hookPos), Scale(hookVel, dt));
        && (Distance(a, pos, sqrt) > HookMaxDistance ==> hookState == Idle && hookPos == a)
        && (Distance(a, pos, sqrt) <= HookMaxDistance && collision != null && collision.CollidePoint(a) ==>
              hookState == Grabbed && hookPos == old(hookPos))
        && (Distance(a, pos, sqrt) <= HookMaxDistance && !(collision != null && collision.CollidePoint(a)) ==>
              hookState == old(hookState) && hookPos == a)
      ensures hookState != Idle && hookPos != old(hookPos) ==> Distance(hookPos, pos, sqrt) <= HookMaxDistance
      ensures pos == old(pos) && vel == old(vel) && input == old(input) && jumped == old(jumped)
      ensures onGround == old(onGround) && collision == old(collision) && hookVel == old(hookVel)
      ensures old(hookState) == Flying ==> State() == old(HookFlown(State(), dt, sqrt, collision))
    {
      var before := hookPos;
      hookPos := Add(hookPos, Scale(hookVel, dt));
      if Distance(hookPos, pos, sqrt) > HookMaxDistance {
        hookState := Idle;
        return;
      }
      if collision != null && collision.CollidePoint(hookPos) {
        hookState := Grabbed;
        hookPos := before;
      }
    }

    /**
     * `update_hook_grabbed`: while the body is more than 384 units from the
     * hook, the velocity gains `300 * dt` toward it; nothing else changes.
     */
    method UpdateHookGrabbed(dt: real, sqrt: real -> real)
      modifies this
      ensures var d := Sub(hookPos, pos);
        && (Distance(hookPos, pos, sqrt) > HookMaxDistance ==>
              vel == Add(old(vel), Scale(Normalize(d, sqrt), HookDragAccel * dt * 100.0)))
        && (Distance(hookPos, pos, sqrt) <= HookMaxDistance ==> vel == old(vel))
      ensures pos == old(pos) && input == old(input) && jumped == old(jumped) && onGround == old(onGround)
      ensures collision == old(collision) && hookState == old(hookState) && hookPos == old(hookPos) && hookVel == old(hookVel)
      ensures State() == old(HookDragged(State(), dt, sqrt))
    {
      var d := Sub(hookPos, pos);
      var dir := Normalize(d, sqrt);
      if Distance(hookPos, pos, sqrt) > HookMaxDistance {
        vel := Add(vel, Scale(dir, HookDragAccel * dt * 100.0));
      }
    }

    /**
     * The drag of a grabbed hook beyond reach, `k` along the unit vector
     * toward the hook, changes the velocity by a vector of length `|k|`.
     */
    static lemma DragMagnitude(hookPos: Vec, pos: Vec, k: real, sqrt: real -> real)
      requires IsSqrt(sqrt) && Distance(hookPos, pos, sqrt) > HookMaxDistance
      ensures LengthSq(Scale(Normalize(Sub(hookPos, pos), sqrt), k)) == Square(k)
    {
      var d := Sub(hookPos, pos);
      LengthFacts(d, sqrt);
      NormalizeUnit(d, sqrt);
      ScaleLengthSq(Normalize(d, sqrt), k);
    }

    /** `release_hook`: the hook goes idle; nothing else changes. */
    method ReleaseHook()
      modifies this
      ensures hookState == Idle
      ensures pos == old(pos) && vel == old(vel) && input == old(input) && jumped == old(jumped) && onGround == old(onGround)
      ensures collision == old(collision) && hookPos == old(hookPos) && hookVel == old(hookVel)
    {
      hookState := Idle;
    }

    /** `reset_jumps`: both jump flags and the double-jump mark clear, only while on the ground. */
    method ResetJumps()
      requires Valid()
      modifies this
      ensures Valid()
      ensures old(onGround) ==> jumped == Fresh && !doubleJumped
      ensures !old(onGround) ==> jumped == old(jumped) && doubleJumped == old(doubleJumped)
      ensures pos == old(pos) && vel == old(vel) && input == old(input) && onGround == old(onGround)
      ensures collision == old(collision) && hookState == old(hookState)
    {
      if onGround {
        jumped := Fresh;
        doubleJumped := false;
      }
    }

    /** The hook step of `update`: a flying hook advances, a grabbed one drags. */
    method UpdateHook(dt: real, sqrt: real -> real)
      requires Valid()
      modifies this
      ensures Valid()
      ensures old(hookState) == Idle ==> hookState == Idle && vel == old(vel)
      ensures old(hookState) == Grabbed ==> hookState == Grabbed
      ensures pos == old(pos) && input == old(input) && jumped == old(jumped) && onGround == old(onGround)
      ensures collision == old(collision)
      ensures State() == old(HookStepped(State(), dt, sqrt, collision))
    {
      if hookState == Flying {
        UpdateHookFlying(dt, sqrt);
      } else if hookState == Grabbed {
        UpdateHookGrabbed(dt, sqrt);
      }
    }

    /** Gravity, the input forces, friction and the speed clamp of `update`, in the source's order. */
    method Accelerate(dt: real, sqrt: real -> real)
      requires Valid() && IsSqrt(sqrt)
      modifies this
      ensures Valid()
      ensures State() == old(Accelerated(State(), input, dt, sqrt))
      ensures input == old(input) && collision == old(collision)
    {
      vel := Add(vel, Scale(Gravity, dt));
      var friction := if !onGround then AirFriction else GroundFriction;
      ApplyInputForces(dt);
      vel := Scale(vel, friction);
      vel := ClampLength(vel, MaxSpeed, sqrt);
    }

    /** The part of `update` before the collision move. */
    method HookAndAccelerate(dt: real, sqrt: real -> real)
      requires Valid() && IsSqrt(sqrt)
      modifies this
      ensures Valid()
      ensures State() == old(Accelerated(HookStepped(State(), dt, sqrt, collision), input, dt, sqrt))
      ensures input == old(input) && collision == old(collision)
    {
      UpdateHook(dt, sqrt);
      Accelerate(dt, sqrt);
    }

    /**
     * `update`: the hook step, gravity, the input forces, friction (chosen
     * from the ground flag before the input ran), the clamp to 100, and the
     * collision move. The clamp comes before the move, and the move only
     * zeroes components, so the speed never ends above 100.
     */
    method Update(dt: real, sqrt: real -> real)
      requires Valid() && IsSqrt(sqrt)
      modifies this
      ensures Valid()
      ensures LengthSq(vel) <= Square(MaxSpeed)
      ensures old(hookState) == Idle ==> hookState == Idle
      ensures old(hookState) == Grabbed ==> hookState == Grabbed
      ensures input == old(input) && collision == old(collision)
      ensures State() == old(Updated(State(), input, dt, sqrt, collision))
    {
      ghost var b0 := State();
      UpdatedSpeed(b0, input, dt, sqrt, collision);
      ghost var a := Accelerated(HookStepped(b0, dt, sqrt, collision), input, dt, sqrt);
      HookAndAccelerate(dt, sqrt);
      assert collision != null ==> collision.tileMap == old(collision.tileMap) && collision.Repr() == old(collision.Repr());
      assert Slide(collision, a.pos, a.vel, dt, a.onGround) == old(Slide(collision, a.pos, a.vel, dt, a.onGround));
      MoveWithCollision(dt);
    }
  }

  /** `PhysicsWorld`: the characters, the shared collision world and the clock. */
  class PhysicsWorld {
    var characters: seq<CharacterPhysics>
    const collision: CollisionWorld
    var time: real

    constructor ()
      ensures characters == [] && time == 0.0 && fresh(collision) && collision.Valid() && collision.tileMap == null
    {
      characters := [];
      collision := new CollisionWorld(null);
      time := 0.0;
    }

    /** `add_character`: appended; it gets the shared collision world only when it had none. */
    method AddCharacter(c: CharacterPhysics)
      modifies this, c
      ensures characters == old(characters) + [c]
      ensures c.collision == if old(c.collision) == null then collision else old(c.collision)
      ensures c.pos == old(c.pos) && c.vel == old(c.vel) && c.hookState == old(c.hookState) && c.jumped == old(c.jumped)
      ensures time == old(time)
    {
      characters := characters + [c];
      if c.collision == null {
        c.collision := collision;
      }
    }

    /** `add_collision_map`: the shared collision world takes the map. */
    method AddCollisionMap(m: TileMap?)
      requires m != null ==> m.Valid()
      modifies collision
      ensures collision.Valid() && collision.tileMap == m
    {
      collision.SetMap(m);
    }

    /** One character's `update`, with only the facts the world's loop carries. */
    static method UpdateCharacter(c: CharacterPhysics, dt: real, sqrt: real -> real)
      requires c.Valid() && IsSqrt(sqrt)
      modifies c
      ensures c.Valid() && LengthSq(c.vel) <= Square(MaxSpeed)
    {
      c.Update(dt, sqrt);
    }

    /** `update` for the characters: the clock advances and every character is updated in list order, ending at most 100 fast. */
    method Update(dt: real, sqrt: real -> real)
      requires IsSqrt(sqrt)
      requires forall c :: c in characters ==> c.Valid()
      modifies this, set c | c in characters
      ensures characters == old(characters) && time == old(time) + dt
      ensures forall c :: c in characters ==> c.Valid() && LengthSq(c.vel) <= Square(MaxSpeed)
    {
      time := time + dt;
      var i := 0;
      while i < |characters|
        invariant 0 <= i <= |characters| && characters == old(characters) && time == old(time) + dt
        invariant forall c :: c in characters ==> c.Valid()
        invariant forall j :: 0 <= j < i ==> LengthSq(characters[j].vel) <= Square(MaxSpeed)
      {
        UpdateCharacter(characters[i], dt, sqrt);
        i := i + 1;
      }
    }
  }
}

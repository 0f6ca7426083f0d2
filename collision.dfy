/**
 * The tile grid and the collision queries over it (`arcgame/base/collision.py`).
 *
 * A `TileMap` is a fixed `height` x `width` grid of integer tile ids; 0 is
 * empty and 1 is solid.  World coordinates are reals; the tile holding a
 * coordinate is found by floor division by the tile size.  A
 * `CollisionWorld` answers point and rectangle queries against an optional
 * map and sweeps boxes through it.
 */
module Collision {
  import opened Vec2

  /** Python's `int(x // ts)` for a positive tile size: the floor of the quotient. */
  function TileCoord(x: real, tileSize: real): (t: int)
    requires 0.0 < tileSize
    ensures t as real <= x / tileSize < t as real + 1.0
  {
    (x / tileSize).Floor
  }

  /** The tile coordinate is the unique integer whose cell span contains the coordinate. */
  lemma TileCoordUnique(x: real, tileSize: real, t: int)
    requires 0.0 < tileSize
    requires t as real <= x / tileSize < t as real + 1.0
    ensures TileCoord(x, tileSize) == t
  {
  }

  /** `k` sub-steps of length `f`, summed one at a time as the sweep loop does. */
  function Times(k: nat, f: real): real
  {
    if k == 0 then 0.0 else Times(k - 1, f) + f
  }

  lemma {:induction false} TimesIsProduct(k: nat, f: real)
    ensures Times(k, f) == k as real * f
  {
    if k > 0 {
      TimesIsProduct(k - 1, f);
      assert (k - 1) as real * f + f == k as real * f;
    }
  }

  class TileMap {
    const width: nat
    const height: nat
    const tileSize: real
    /** `tiles[ty, tx]` is the id of the tile in row `ty`, column `tx`. */
    const tiles: array2<int>

    predicate Valid()
    {
      tiles.Length0 == height && tiles.Length1 == width && 0.0 < tileSize
    }

    /** A new map of the given size, every tile empty. */
    constructor (width: nat, height: nat, tileSize: real)
      requires 0.0 < tileSize
      ensures Valid() && fresh(tiles)
      ensures this.width == width && this.height == height && this.tileSize == tileSize
      ensures forall ty, tx :: 0 <= ty < height && 0 <= tx < width ==> tiles[ty, tx] == 0
    {
      this.width := width;
      this.height := height;
      this.tileSize := tileSize;
      tiles := new int[height, width]((ty, tx) => 0);
    }

    predicate InBounds(tx: int, ty: int)
    {
      0 <= tx < width && 0 <= ty < height
    }

    /**
     * `get_tile_index`: -1 exactly when the cell holding (x, y) lies outside
     * the grid, otherwise that cell's id.
     */
    function TileIndex(x: real, y: real): (r: int)
      requires Valid()
      reads tiles
      ensures var tx, ty := TileCoord(x, tileSize), TileCoord(y, tileSize);
        && (!InBounds(tx, ty) ==> r == -1)
        && (InBounds(tx, ty) ==> r == tiles[ty, tx])
    {
      var tx := TileCoord(x, tileSize);
      var ty := TileCoord(y, tileSize);
      if tx < 0 || tx >= width || ty < 0 || ty >= height then -1
      else tiles[ty, tx]
    }

    /**
     * `set_tile`: an in-bounds position overwrites exactly its own cell; an
     * out-of-bounds position changes nothing.
     */
    method SetTile(x: real, y: real, value: int)
      requires Valid()
      modifies tiles
      ensures var tx, ty := TileCoord(x, tileSize), TileCoord(y, tileSize);
        forall j, i :: 0 <= j < height && 0 <= i < width ==>
          tiles[j, i] == (if j == ty && i == tx then value else old(tiles[j, i]))
    {
      var tx := TileCoord(x, tileSize);
      var ty := TileCoord(y, tileSize);
      if 0 <= tx < width && 0 <= ty < height {
        tiles[ty, tx] := value;
      }
    }

    /** `is_solid`: the tile id is 1; so an out-of-bounds position (id -1) is never solid. */
    predicate IsSolid(x: real, y: real)
      requires Valid()
      reads tiles
      ensures IsSolid(x, y) <==>
        var tx, ty := TileCoord(x, tileSize), TileCoord(y, tileSize);
        InBounds(tx, ty) && tiles[ty, tx] == 1
    {
      TileIndex(x, y) == 1
    }

    /** `closest_tile_pos`: the top-left corner of the tile holding `p`, a whole number of tiles from the origin. */
    function ClosestTilePos(p: Vec): (r: Vec)
      requires Valid()
      ensures r.x / tileSize == TileCoord(p.x, tileSize) as real
      ensures r.y / tileSize == TileCoord(p.y, tileSize) as real
    {
      Vec(TileCoord(p.x, tileSize) as real * tileSize, TileCoord(p.y, tileSize) as real * tileSize)
    }
  }

  lemma OutOfBoundsNotSolid(m: TileMap, x: real, y: real)
    requires m.Valid()
    requires !m.InBounds(TileCoord(x, m.tileSize), TileCoord(y, m.tileSize))
    ensures !m.IsSolid(x, y)
  {
  }

  /**
   * `clamp_to_map_bounds`: the position clamped into the map's extent
   * `[0, width * tileSize] x [0, height * tileSize]`; a position already
   * inside is returned unchanged, and the result is the point of the extent
   * nearest to `pos`, axis by axis.
   */
  function ClampToMapBounds(pos: Vec, mapWidth: int, mapHeight: int, tileSize: real): (r: Vec)
    ensures var extent := Vec(mapWidth as real * tileSize, mapHeight as real * tileSize);
      && (0.0 <= extent.x && 0.0 <= extent.y ==> InRectangle(Zero, extent, r))
      && (InRectangle(Zero, extent, pos) ==> r == pos)
      && (pos.x <= 0.0 ==> r.x == 0.0) && (pos.y <= 0.0 ==> r.y == 0.0)
      && (0.0 <= extent.x <= pos.x ==> r.x == extent.x) && (0.0 <= extent.y <= pos.y ==> r.y == extent.y)
  {
    var maxX := mapWidth as real * tileSize;
    var maxY := mapHeight as real * tileSize;
    Vec(Max(0.0, Min(pos.x, maxX)), Max(0.0, Min(pos.y, maxY)))
  }

  /** Clamping into the map is idempotent. */
  lemma ClampToMapBoundsIdempotent(pos: Vec, mapWidth: nat, mapHeight: nat, tileSize: real)
    requires 0.0 < tileSize
    ensures var r := ClampToMapBounds(pos, mapWidth, mapHeight, tileSize);
      ClampToMapBounds(r, mapWidth, mapHeight, tileSize) == r
  {
    var extent := Vec(mapWidth as real * tileSize, mapHeight as real * tileSize);
    assert 0.0 <= extent.x && 0.0 <= extent.y;
  }

  /** Python's `pos + delta` and the four corners of a box. */
  function Corners(p: Vec, size: Vec): seq<Vec>
  {
    [p, Vec(p.x + size.x, p.y), Vec(p.x, p.y + size.y), Vec(p.x + size.x, p.y + size.y)]
  }

  /** The outcome of a box sweep: where it ended and how many X and Y sub-steps it took. */
  datatype Sweep = Sweep(pos: Vec, xSteps: nat, ySteps: nat)

  class CollisionWorld {
    var tileMap: TileMap?

    predicate Valid()
      reads this
    {
      tileMap != null ==> tileMap.Valid()
    }

    /** Every object whose state the queries read. */
    function Repr(): set<object>
      reads this
    {
      if tileMap == null then {this} else {this, tileMap.tiles}
    }

    constructor (m: TileMap?)
      requires m != null ==> m.Valid()
      ensures Valid() && tileMap == m
    {
      tileMap := m;
    }

    method SetMap(m: TileMap?)
      requires m != null ==> m.Valid()
      modifies this
      ensures Valid() && tileMap == m
    {
      tileMap := m;
    }

    /** `collide_point`: false whenever no map is set, otherwise the map's `is_solid`. */
    predicate CollidePoint(p: Vec)
      requires Valid()
      reads this, Repr()
      ensures CollidePoint(p) ==> tileMap != null
      ensures tileMap != null ==>
        var tx, ty := TileCoord(p.x, tileMap.tileSize), TileCoord(p.y, tileMap.tileSize);
        (CollidePoint(p) <==> tileMap.InBounds(tx, ty) && tileMap.tiles[ty, tx] == 1)
    {
      tileMap != null && tileMap.IsSolid(p.x, p.y)
    }

    /** `collide_rect`: some corner of the box is solid. */
    predicate CollideRect(p: Vec, size: Vec)
      requires Valid()
      reads this, Repr()
      ensures CollideRect(p, size) ==> tileMap != null
      ensures size == Zero ==> (CollideRect(p, size) <==> CollidePoint(p))
    {
      tileMap != null &&
      (CollidePoint(p) || CollidePoint(Vec(p.x + size.x, p.y)) ||
       CollidePoint(Vec(p.x, p.y + size.y)) || CollidePoint(Vec(p.x + size.x, p.y + size.y)))
    }

    lemma CollideRectCorners(p: Vec, size: Vec)
      requires Valid()
      ensures CollideRect(p, size) <==> exists c :: c in Corners(p, size) && CollidePoint(c)
    {
      if CollideRect(p, size) {
        var cs := Corners(p, size);
        if CollidePoint(cs[0]) {
          assert cs[0] in cs;
        } else if CollidePoint(cs[1]) {
          assert cs[1] in cs;
        } else if CollidePoint(cs[2]) {
          assert cs[2] in cs;
        } else {
          assert cs[3] in cs;
        }
      }
    }

    /**
     * `move_point`: the first free candidate among the full move, the move
     * along X only and the move along Y only; the start when all are blocked.
     */
    function MovePoint(p: Vec, delta: Vec): (r: Vec)
      requires Valid()
      reads this, Repr()
      ensures tileMap == null ==> r == Add(p, delta)
      ensures tileMap != null ==>
        var n := Add(p, delta);
        r in [n, Vec(n.x, p.y), Vec(p.x, n.y), p] &&
        (!CollidePoint(n) ==> r == n) &&
        (CollidePoint(n) && !CollidePoint(Vec(n.x, p.y)) ==> r == Vec(n.x, p.y)) &&
        (CollidePoint(n) && CollidePoint(Vec(n.x, p.y)) && !CollidePoint(Vec(p.x, n.y)) ==> r == Vec(p.x, n.y)) &&
        (CollidePoint(n) && CollidePoint(Vec(n.x, p.y)) && CollidePoint(Vec(p.x, n.y)) ==> r == p) &&
        (r != p ==> !CollidePoint(r))
    {
      var n := Add(p, delta);
      if tileMap == null then n
      else if !CollidePoint(n) then n
      else if !CollidePoint(Vec(n.x, p.y)) then Vec(n.x, p.y)
      else if !CollidePoint(Vec(p.x, n.y)) then Vec(p.x, n.y)
      else p
    }

    /**
     * The loop of `move_box`: up to `n` sub-steps from `p`, each first along X
     * by `fx` then along Y by `fy`; a sub-step is taken only when the box
     * there is free, and the first blocked sub-step ends the sweep.
     */
    function SweepFrom(p: Vec, size: Vec, fx: real, fy: real, n: nat): (s: Sweep)
      requires Valid()
      reads this, Repr()
      decreases n
    {
      if n == 0 then Sweep(p, 0, 0)
      else
        var tx := Vec(p.x + fx, p.y);
        if CollideRect(tx, size) then Sweep(p, 0, 0)
        else
          var ty := Vec(tx.x, tx.y + fy);
          if CollideRect(ty, size) then Sweep(tx, 1, 0)
          else
            var rest := SweepFrom(ty, size, fx, fy, n - 1);
            Sweep(rest.pos, rest.xSteps + 1, rest.ySteps + 1)
    }

    /** Every position the sweep accepts is free: it ends where it started or at a box that does not collide. */
    lemma {:induction false} SweepEndsFree(p: Vec, size: Vec, fx: real, fy: real, n: nat)
      requires Valid()
      ensures var s := SweepFrom(p, size, fx, fy, n);
        s.pos == p || !CollideRect(s.pos, size)
      decreases n
    {
      if n > 0 {
        var tx := Vec(p.x + fx, p.y);
        var ty := Vec(tx.x, tx.y + fy);
        if !CollideRect(tx, size) && !CollideRect(ty, size) {
          SweepEndsFree(ty, size, fx, fy, n - 1);
          assert SweepFrom(p, size, fx, fy, n).pos == SweepFrom(ty, size, fx, fy, n - 1).pos;
        }
      }
    }

    /**
     * The sweep takes at most `n` sub-steps along X, and along Y either as
     * many or one fewer; all `n` along X means all `n` along Y.
     */
    lemma {:induction false} SweepCounts(p: Vec, size: Vec, fx: real, fy: real, n: nat)
      requires Valid()
      ensures var s := SweepFrom(p, size, fx, fy, n);
        && s.ySteps <= s.xSteps <= n
        && s.xSteps <= s.ySteps + 1
      decreases n
    {
      if n > 0 {
        var tx := Vec(p.x + fx, p.y);
        if !CollideRect(tx, size) {
          var ty := Vec(tx.x, tx.y + fy);
          if !CollideRect(ty, size) {
            SweepCounts(ty, size, fx, fy, n - 1);
          }
        }
      }
    }

    /** The sweep moves by whole sub-steps: `xSteps` of `fx` and `ySteps` of `fy`. */
    lemma {:induction false} SweepPosition(p: Vec, size: Vec, fx: real, fy: real, n: nat)
      requires Valid()
      ensures var s := SweepFrom(p, size, fx, fy, n);
        s.pos == Vec(p.x + Times(s.xSteps, fx), p.y + Times(s.ySteps, fy))
      decreases n
    {
      if n > 0 {
        var tx := Vec(p.x + fx, p.y);
        if !CollideRect(tx, size) {
          var ty := Vec(tx.x, tx.y + fy);
          if !CollideRect(ty, size) {
            SweepPosition(ty, size, fx, fy, n - 1);
            SweepFreeStep(p, size, fx, fy, n);
          }
        }
      }
    }

    /** A sweep through a map with no solid cell completes every sub-step. */
    lemma SweepUnobstructed(p: Vec, size: Vec, fx: real, fy: real, n: nat)
      requires Valid() && tileMap != null
      requires NoSolid()
      ensures SweepFrom(p, size, fx, fy, n).xSteps == n
      ensures SweepFrom(p, size, fx, fy, n).ySteps == n
    {
      forall q: Vec ensures !CollideRect(q, size) {
        NoSolidMeansFree(q, size);
      }
      SweepThroughFree(p, size, fx, fy, n);
    }

    /** A sweep in which no box of the given size collides completes every sub-step. */
    lemma {:induction false} SweepThroughFree(p: Vec, size: Vec, fx: real, fy: real, n: nat)
      requires Valid()
      requires forall q: Vec :: !CollideRect(q, size)
      ensures SweepFrom(p, size, fx, fy, n).xSteps == n
      ensures SweepFrom(p, size, fx, fy, n).ySteps == n
      decreases n
    {
      if n > 0 {
        SweepThroughFree(Vec(p.x + fx, p.y + fy), size, fx, fy, n - 1);
        SweepFreeStep(p, size, fx, fy, n);
      }
    }

    /** A sub-step whose two boxes are free counts once along each axis. */
    lemma SweepFreeStep(p: Vec, size: Vec, fx: real, fy: real, n: nat)
      requires Valid() && 0 < n
      requires !CollideRect(Vec(p.x + fx, p.y), size) && !CollideRect(Vec(p.x + fx, p.y + fy), size)
      ensures var rest := SweepFrom(Vec(p.x + fx, p.y + fy), size, fx, fy, n - 1);
        SweepFrom(p, size, fx, fy, n) == Sweep(rest.pos, rest.xSteps + 1, rest.ySteps + 1)
    {
    }

    /** A loaded map none of whose cells is solid. */
    predicate NoSolid()
      requires Valid() && tileMap != null
      reads this, Repr()
    {
      forall ty, tx :: 0 <= ty < tileMap.height && 0 <= tx < tileMap.width ==> tileMap.tiles[ty, tx] != 1
    }

    lemma NoSolidMeansFree(p: Vec, size: Vec)
      requires Valid() && tileMap != null
      requires NoSolid()
      ensures !CollideRect(p, size)
    {
    }

    /** `move_box`'s step count: `max(1, int(max(|vx|, |vy|)))`. */
    static function StepCount(velocity: Vec): (steps: nat)
      ensures 1 <= steps
      ensures steps as real <= Max(1.0, Max(Abs(velocity.x), Abs(velocity.y)))
    {
      var d := Max(Abs(velocity.x), Abs(velocity.y));
      if d.Floor < 1 then 1 else d.Floor
    }

    /**
     * The velocity `move_box` returns, as intended: a component is zeroed
     * when the box covered less than that component's full distance along
     * its axis.
     */
    static function RemainingVelocity(delta: Vec, velocity: Vec): (r: Vec)
      ensures r.x == velocity.x || r.x == 0.0
      ensures r.y == velocity.y || r.y == 0.0
    {
      Vec(if Abs(delta.x) < Abs(velocity.x) then 0.0 else velocity.x,
          if Abs(delta.y) < Abs(velocity.y) then 0.0 else velocity.y)
    }

    /**
     * The velocity rule as written in `move_box`: the distance covered is
     * compared with `|v * steps|` rather than `|v|`.
     */
    static function RemainingVelocityAsWritten(delta: Vec, velocity: Vec, steps: nat): (r: Vec)
      ensures r.x == velocity.x || r.x == 0.0
      ensures r.y == velocity.y || r.y == 0.0
    {
      Vec(if Abs(delta.x) < Abs(velocity.x * steps as real) && steps > 0 then 0.0 else velocity.x,
          if Abs(delta.y) < Abs(velocity.y * steps as real) && steps > 0 then 0.0 else velocity.y)
    }

    /** The result of `move_box` (with the intended velocity rule) as a function of the state. */
    function MoveBoxSpec(p: Vec, size: Vec, velocity: Vec): (Vec, Vec)
      requires Valid()
      reads this, Repr()
    {
      if tileMap == null then (Add(p, velocity), velocity)
      else
        var steps := StepCount(velocity);
        var s := SweepFrom(p, size, velocity.x / steps as real, velocity.y / steps as real, steps);
        (s.pos, RemainingVelocity(Sub(s.pos, p), velocity))
    }

    /** Fraction of a whole: `k` of `n` equal parts of `v` fall short of `v` exactly when `k < n` and `v` is not 0. */
    static lemma PartialCoverage(k: nat, n: nat, v: real)
      requires k <= n && 1 <= n
      ensures Abs(k as real * (v / n as real)) < Abs(v) <==> k < n && v != 0.0
    {
      var q := k as real / n as real;
      assert k as real * (v / n as real) == q * v;
      assert 0.0 <= q <= 1.0;
      if v > 0.0 {
        assert Abs(q * v) == q * v;
        if k < n {
          assert q < 1.0;
          assert q * v < 1.0 * v;
        }
      } else if v < 0.0 {
        assert Abs(q * v) == q * (-v);
        if k < n {
          assert q < 1.0;
          assert q * (-v) < 1.0 * (-v);
        }
      }
    }

    /** One axis of the velocity rule: after `k` of `n` sub-steps of `v / n`, the component is zeroed exactly when it is non-zero and `k < n`. */
    static lemma AxisRule(k: nat, n: nat, v: real)
      requires k <= n && 1 <= n
      ensures Abs(Times(k, v / n as real)) < Abs(v) <==> k < n && v != 0.0
    {
      TimesIsProduct(k, v / n as real);
      PartialCoverage(k, n, v);
    }

    /** The velocity rule applied to a sweep of `kx` and `ky` sub-steps out of `n`. */
    static lemma VelocityRule(p: Vec, q: Vec, kx: nat, ky: nat, n: nat, velocity: Vec)
      requires kx <= n && ky <= n && 1 <= n
      requires q == Vec(p.x + Times(kx, velocity.x / n as real), p.y + Times(ky, velocity.y / n as real))
      ensures var r := RemainingVelocity(Sub(q, p), velocity);
        && (r.x == 0.0 && velocity.x != 0.0 <==> kx < n && velocity.x != 0.0)
        && (r.y == 0.0 && velocity.y != 0.0 <==> ky < n && velocity.y != 0.0)
    {
      assert Sub(q, p) == Vec(Times(kx, velocity.x / n as real), Times(ky, velocity.y / n as real));
      AxisRule(kx, n, velocity.x);
      AxisRule(ky, n, velocity.y);
    }

    /**
     * What `move_box` returns: with no map, the full move and the velocity
     * unchanged; otherwise a position that is the start or a free box, and
     * each velocity component zeroed exactly when it is non-zero and the
     * sweep was stopped before covering it.
     */
    lemma MoveBoxFacts(p: Vec, size: Vec, velocity: Vec)
      requires Valid()
      ensures tileMap == null ==> MoveBoxSpec(p, size, velocity) == (Add(p, velocity), velocity)
      ensures tileMap != null ==>
        var (q, r) := MoveBoxSpec(p, size, velocity);
        var steps := StepCount(velocity);
        var s := SweepFrom(p, size, velocity.x / steps as real, velocity.y / steps as real, steps);
        && (q == p || !CollideRect(q, size))
        && (r.x == 0.0 && velocity.x != 0.0 <==> s.xSteps < steps && velocity.x != 0.0)
        && (r.y == 0.0 && velocity.y != 0.0 <==> s.ySteps < steps && velocity.y != 0.0)
    {
      if tileMap != null {
        var steps := StepCount(velocity);
        var fx, fy := velocity.x / steps as real, velocity.y / steps as real;
        var s := SweepFrom(p, size, fx, fy, steps);
        SweepEndsFree(p, size, fx, fy, steps);
        SweepCounts(p, size, fx, fy, steps);
        SweepPosition(p, size, fx, fy, steps);
        VelocityRule(p, s.pos, s.xSteps, s.ySteps, steps, velocity);
      }
    }

    /** `|v| < |v * n|` once `v` is non-zero and `n` is at least 2. */
    static lemma ScaledExceeds(v: real, n: nat)
      requires v != 0.0 && 2 <= n
      ensures Abs(v) < Abs(v * n as real)
    {
      if v > 0.0 {
        assert v * n as real >= v * 2.0;
      } else {
        assert (-v) * n as real >= (-v) * 2.0;
      }
    }

    /** A sweep that completes all `n` sub-steps of `v / n` lands on `p + v`, where the rule as written zeroes any X speed of 2 or more. */
    static lemma FullSweepRules(p: Vec, q: Vec, n: nat, velocity: Vec)
      requires 2 <= n && velocity.x != 0.0
      requires q == Vec(p.x + Times(n, velocity.x / n as real), p.y + Times(n, velocity.y / n as real))
      ensures q == Add(p, velocity)
      ensures RemainingVelocityAsWritten(Sub(q, p), velocity, n).x == 0.0
      ensures RemainingVelocity(Sub(q, p), velocity) == velocity
    {
      TimesIsProduct(n, velocity.x / n as real);
      TimesIsProduct(n, velocity.y / n as real);
      assert Sub(q, p) == velocity;
      ScaledExceeds(velocity.x, n);
    }

    /**
     * The rule as written zeroes the X velocity of a box that nothing
     * blocks: in a map without solid tiles, any X speed of 2 or more is
     * reported as stopped, while the intended rule keeps it.
     */
    lemma AsWrittenStopsUnblockedBox(p: Vec, size: Vec, velocity: Vec)
      requires Valid() && tileMap != null
      requires NoSolid()
      requires velocity.x != 0.0 && 2 <= StepCount(velocity)
      ensures var steps := StepCount(velocity);
        var q := SweepFrom(p, size, velocity.x / steps as real, velocity.y / steps as real, steps).pos;
        && q == Add(p, velocity)
        && RemainingVelocityAsWritten(Sub(q, p), velocity, steps).x == 0.0
        && RemainingVelocity(Sub(q, p), velocity) == velocity
    {
      var steps := StepCount(velocity);
      var fx, fy := velocity.x / steps as real, velocity.y / steps as real;
      SweepUnobstructed(p, size, fx, fy, steps);
      SweepPosition(p, size, fx, fy, steps);
      FullSweepRules(p, SweepFrom(p, size, fx, fy, steps).pos, steps, velocity);
    }

    /**
     * `move_box`: sweep the box in `steps` equal sub-steps, X before Y,
     * stopping at the first blocked axis; then zero each velocity component
     * whose axis did not cover its full distance.
     */
    method MoveBox(p: Vec, size: Vec, velocity: Vec) returns (newPos: Vec, remaining: Vec)
      requires Valid()
      ensures (newPos, remaining) == MoveBoxSpec(p, size, velocity)
    {
      if tileMap == null {
        return Add(p, velocity), velocity;
      }
      var steps := StepCount(velocity);
      newPos := SweepBox(p, size, velocity.x / steps as real, velocity.y / steps as real, steps);
      remaining := RemainingVelocity(Sub(newPos, p), velocity);
    }

    /** The stepping loop of `move_box`. */
    method SweepBox(p: Vec, size: Vec, fx: real, fy: real, steps: nat) returns (newPos: Vec)
      requires Valid()
      ensures newPos == SweepFrom(p, size, fx, fy, steps).pos
    {
      newPos := Vec(p.x, p.y);
      var step := 0;
      while step < steps
        invariant 0 <= step <= steps
        invariant SweepFrom(newPos, size, fx, fy, steps - step).pos == SweepFrom(p, size, fx, fy, steps).pos
        decreases steps - step
      {
        var testX := Vec(newPos.x + fx, newPos.y);
        if CollideRect(testX, size) {
          break;
        }
        newPos := newPos.(x := newPos.x + fx);
        var testY := Vec(newPos.x, newPos.y + fy);
        if CollideRect(testY, size) {
          break;
        }
        newPos := newPos.(y := newPos.y + fy);
        step := step + 1;
      }
    }
  }
}

/**
 * The game world of `arcgame/game/world.py`: a fixed test layout of tiles
 * standing in for a loaded map, the tile lookup with `int()` truncation,
 * delegation to the collision world, and the `clamp_vel` move restrictions.
 */
module World {
  import opened Vec2
  import opened Collision
  import ListView

  const LayoutWidth: nat := 50
  const LayoutHeight: nat := 30

  /** The cells set by the first loop of `load_ddnet_map`: the ground row and three ledges near the bottom. */
  predicate GroundCell(x: int, y: int)
  {
    y == LayoutHeight - 1
    || (y == LayoutHeight - 2 && 5 < x < 15)
    || (y == LayoutHeight - 3 && 25 < x < 35)
    || (y == LayoutHeight - 4 && x > 40)
  }

  /** The floating platforms `load_ddnet_map` adds afterwards. */
  predicate PlatformCell(x: int, y: int)
  {
    (y == 15 && 5 <= x < 10) || (y == 10 && 20 <= x < 25) || (y == 5 && 30 <= x < 35)
  }

  /** The tile id of cell `(x, y)` of the built-in layout: 1 (solid) or 0 (empty). */
  function LayoutCell(x: int, y: int): int
  {
    if GroundCell(x, y) || PlatformCell(x, y) then 1 else 0
  }

  /** A grid of `h` rows of `w` cells each. */
  predicate IsGrid(t: seq<seq<int>>, w: nat, h: nat)
  {
    |t| == h && forall y :: 0 <= y < h ==> |t[y]| == w
  }

  /** Sets cells `lo .. hi-1` of row `row` to 1, leaving every other cell as it was. */
  method FillRow(t: seq<seq<int>>, row: nat, lo: nat, hi: nat) returns (u: seq<seq<int>>)
    requires IsGrid(t, LayoutWidth, LayoutHeight) && row < LayoutHeight && lo <= hi <= LayoutWidth
    ensures IsGrid(u, LayoutWidth, LayoutHeight)
    ensures forall y, x :: 0 <= y < LayoutHeight && 0 <= x < LayoutWidth ==>
      u[y][x] == (if y == row && lo <= x < hi then 1 else t[y][x])
  {
    u := t;
    var x := lo;
    while x < hi
      invariant lo <= x <= hi
      invariant IsGrid(u, LayoutWidth, LayoutHeight)
      invariant forall y, i :: 0 <= y < LayoutHeight && 0 <= i < LayoutWidth ==>
        u[y][i] == (if y == row && lo <= i < x then 1 else t[y][i])
    {
      u := u[row := u[row][x := 1]];
      x := x + 1;
    }
  }

  /** The nested loops of `load_ddnet_map` that build the test layout. */
  method BuildLayout() returns (t: seq<seq<int>>)
    ensures IsGrid(t, LayoutWidth, LayoutHeight)
    ensures forall y, x :: 0 <= y < LayoutHeight && 0 <= x < LayoutWidth ==> t[y][x] == LayoutCell(x, y)
  {
    t := seq(LayoutHeight, y => seq(LayoutWidth, x => 0));
    var x := 0;
    while x < LayoutWidth
      invariant 0 <= x <= LayoutWidth
      invariant IsGrid(t, LayoutWidth, LayoutHeight)
      invariant forall y, i :: 0 <= y < LayoutHeight && 0 <= i < LayoutWidth ==>
        t[y][i] == (if i < x && GroundCell(i, y) then 1 else 0)
    {
      t := t[LayoutHeight - 1 := t[LayoutHeight - 1][x := 1]];
      if x > 5 && x < 15 {
        t := t[LayoutHeight - 2 := t[LayoutHeight - 2][x := 1]];
      }
      if x > 25 && x < 35 {
        t := t[LayoutHeight - 3 := t[LayoutHeight - 3][x := 1]];
      }
      if x > 40 {
        t := t[LayoutHeight - 4 := t[LayoutHeight - 4][x := 1]];
      }
      x := x + 1;
    }
    t := FillRow(t, 15, 5, 10);
    t := FillRow(t, 10, 20, 25);
    t := FillRow(t, 5, 30, 35);
  }

  /** A whole number of tiles lands on that tile. */
  lemma TileCoordOfCorner(x: nat, tileSize: real)
    requires 0.0 < tileSize
    ensures TileCoord(x as real * tileSize, tileSize) == x
  {
    assert x as real * tileSize / tileSize == x as real;
    TileCoordUnique(x as real * tileSize, tileSize, x);
  }

  /** A quotient of a non-negative number by a larger one lies in [0, 1). */
  lemma QuotientBelowOne(a: real, b: real)
    requires 0.0 <= a < b
    ensures 0.0 <= a / b < 1.0
  {
    var q := a / b;
    assert q * b == a;
  }

  class GameWorld {
    var width: nat
    var height: nat
    var tileSize: real
    /** `tiles[y][x]` is the id of the tile in row `y`, column `x`. */
    var tiles: seq<seq<int>>
    const collisionWorld: CollisionWorld
    var tileMap: TileMap?

    predicate Valid()
      reads this, collisionWorld
    {
      && IsGrid(tiles, width, height)
      && 0.0 < tileSize
      && collisionWorld.Valid()
      && (tileMap != null ==> tileMap.Valid())
    }

    /** A world with no map: an empty grid and a collision world without a tile map. */
    constructor ()
      ensures Valid() && fresh(collisionWorld)
      ensures width == 0 && height == 0 && tileSize == 32.0 && tiles == []
      ensures tileMap == null && collisionWorld.tileMap == null
    {
      width := 0;
      height := 0;
      tileSize := 32.0;
      tiles := [];
      collisionWorld := new CollisionWorld(null);
      tileMap := null;
    }

    /**
     * `load_ddnet_map`: with a missing file nothing changes and the load
     * fails; otherwise the world holds the 50 x 30 test layout, a fresh tile
     * map that agrees with it cell by cell, and the collision world uses
     * that tile map. Whether the path exists is a parameter.
     */
    method LoadDdnetMap(pathExists: bool) returns (ok: bool)
      requires Valid()
      modifies this, collisionWorld
      ensures Valid() && ok == pathExists
      ensures !pathExists ==>
        && width == old(width) && height == old(height) && tiles == old(tiles)
        && tileMap == old(tileMap) && collisionWorld.tileMap == old(collisionWorld.tileMap)
      ensures pathExists ==>
        && width == LayoutWidth && height == LayoutHeight && tileSize == 32.0
        && (forall y, x :: 0 <= y < height && 0 <= x < width ==> tiles[y][x] == LayoutCell(x, y))
        && tileMap != null && fresh(tileMap) && collisionWorld.tileMap == tileMap
        && tileMap.width == width && tileMap.height == height && tileMap.tileSize == tileSize
        && (forall y, x :: 0 <= y < height && 0 <= x < width ==> tileMap.tiles[y, x] == tiles[y][x])
    {
      if !pathExists {
        return false;
      }
      var t := BuildLayout();
      var m := new TileMap(LayoutWidth, LayoutHeight, 32.0);
      var y := 0;
      while y < LayoutHeight
        invariant 0 <= y <= LayoutHeight
        invariant forall j, i :: 0 <= j < LayoutHeight && 0 <= i < LayoutWidth ==>
          m.tiles[j, i] == (if j < y then t[j][i] else 0)
      {
        var x := 0;
        while x < LayoutWidth
          invariant 0 <= x <= LayoutWidth
          invariant forall j, i :: 0 <= j < LayoutHeight && 0 <= i < LayoutWidth ==>
            m.tiles[j, i] == (if j < y || (j == y && i < x) then t[j][i] else 0)
        {
          TileCoordOfCorner(x, 32.0);
          TileCoordOfCorner(y, 32.0);
          m.SetTile(x as real * 32.0, y as real * 32.0, t[y][x]);
          x := x + 1;
        }
        y := y + 1;
      }
      width := LayoutWidth;
      height := LayoutHeight;
      tileSize := 32.0;
      tiles := t;
      tileMap := m;
      collisionWorld.SetMap(m);
      ok := true;
    }

    /**
     * `get_tile`: the tile under world position (x, y), found by truncating
     * `x / tile_size` and `y / tile_size` toward zero; -1 exactly when the
     * truncated cell is outside the grid.
     */
    function GetTile(x: real, y: real): (r: int)
      requires Valid()
      reads this, collisionWorld
      ensures var tx, ty := ListView.Trunc(x / tileSize), ListView.Trunc(y / tileSize);
        && (!(0 <= tx < width && 0 <= ty < height) ==> r == -1)
        && (0 <= tx < width && 0 <= ty < height ==> r == tiles[ty][tx])
    {
      var tx := ListView.Trunc(x / tileSize);
      var ty := ListView.Trunc(y / tileSize);
      if tx < 0 || tx >= width || ty < 0 || ty >= height then -1
      else tiles[ty][tx]
    }

    /**
     * Truncation puts the strip just left of (or above) the map into column
     * (row) 0: such a position reads tile 0's id rather than -1, which is
     * where `get_tile` and the collision map's flooring lookup disagree.
     */
    lemma GetTileNegativeStrip(x: real, y: real)
      requires Valid() && 0 < width && 0 < height
      requires -tileSize < x < 0.0 && 0.0 <= y < tileSize
      ensures GetTile(x, y) == tiles[0][0]
    {
      QuotientBelowOne(-x, tileSize);
      QuotientBelowOne(y, tileSize);
      assert -(x / tileSize) == -x / tileSize;
    }

    /**
     * Away from negative coordinates the two lookups agree: once the map is
     * loaded, `get_tile` and the collision map's `get_tile_index` read the
     * same id.
     */
    lemma GetTileAgreesWithTileMap(x: real, y: real)
      requires Valid() && tileMap != null
      requires tileMap.width == width && tileMap.height == height && tileMap.tileSize == tileSize
      requires forall j, i :: 0 <= j < height && 0 <= i < width ==> tileMap.tiles[j, i] == tiles[j][i]
      requires 0.0 <= x && 0.0 <= y
      ensures GetTile(x, y) == tileMap.TileIndex(x, y)
    {
      assert 0.0 <= x / tileSize && 0.0 <= y / tileSize;
      TileCoordUnique(x, tileSize, ListView.Trunc(x / tileSize));
      TileCoordUnique(y, tileSize, ListView.Trunc(y / tileSize));
    }

    /** `check_collision`: the collision world's box test. */
    predicate CheckCollision(pos: Vec, size: Vec)
      requires Valid()
      reads this, collisionWorld, collisionWorld.Repr()
      ensures CheckCollision(pos, size) ==> collisionWorld.tileMap != null
      ensures size == Zero ==> (CheckCollision(pos, size) <==> collisionWorld.CollidePoint(pos))
    {
      collisionWorld.CollideRect(pos, size)
    }

    /** `move_box`: delegated to the collision world. */
    method MoveBox(pos: Vec, size: Vec, velocity: Vec) returns (newPos: Vec, remaining: Vec)
      requires Valid()
      ensures (newPos, remaining) == collisionWorld.MoveBoxSpec(pos, size, velocity)
    {
      newPos, remaining := collisionWorld.MoveBox(pos, size, velocity);
    }
  }

  /** Python's `n & b != 0` for a single-bit mask `b` (exact for negative `n` too). */
  predicate HasBit(n: int, b: nat)
    requires 0 < b
  {
    (n / b) % 2 == 1
  }

  /**
   * `clamp_vel`: bit 1 forbids moving left, 2 right, 4 up and 8 down; a
   * forbidden direction's component is zeroed and every other component
   * passes through unchanged.
   */
  function ClampVel(restrictions: int, vel: Vec): (r: Vec)
    ensures r.x == vel.x || r.x == 0.0
    ensures r.y == vel.y || r.y == 0.0
    ensures HasBit(restrictions, 1) ==> 0.0 <= r.x
    ensures HasBit(restrictions, 2) ==> r.x <= 0.0
    ensures HasBit(restrictions, 4) ==> 0.0 <= r.y
    ensures HasBit(restrictions, 8) ==> r.y <= 0.0
    ensures (vel.x < 0.0 && !HasBit(restrictions, 1)) || (vel.x > 0.0 && !HasBit(restrictions, 2)) ==> r.x == vel.x
    ensures (vel.y < 0.0 && !HasBit(restrictions, 4)) || (vel.y > 0.0 && !HasBit(restrictions, 8)) ==> r.y == vel.y
  {
    var x := if HasBit(restrictions, 1) && vel.x < 0.0 then 0.0 else vel.x;
    var x' := if HasBit(restrictions, 2) && x > 0.0 then 0.0 else x;
    var y := if HasBit(restrictions, 4) && vel.y < 0.0 then 0.0 else vel.y;
    var y' := if HasBit(restrictions, 8) && y > 0.0 then 0.0 else y;
    Vec(x', y')
  }

  /** No restriction bits: `clamp_vel` is the identity. */
  lemma ClampVelNoRestrictions(vel: Vec)
    ensures ClampVel(0, vel) == vel
  {
  }

  /** Clamping twice with the same restrictions is clamping once. */
  lemma ClampVelIdempotent(restrictions: int, vel: Vec)
    ensures ClampVel(restrictions, ClampVel(restrictions, vel)) == ClampVel(restrictions, vel)
  {
  }
}

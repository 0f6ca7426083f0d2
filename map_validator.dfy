/**
 * The map validator (`arcgame/map/map_validator.py`): checks of a parsed
 * map's version, dimensions, file size, game layer, spawn points and tile
 * rows, collected as errors and warnings, and the spawn requirements of each
 * game type. Whether the file exists and its bytes are parameters; the
 * messages are constructors carrying the values the texts mention.
 */
module MapValidator {
  import opened Wrappers
  import opened Bytes
  import opened Text
  import opened MapParser

  /** The errors, warnings and compatibility issues the validator reports. */
  datatype Message =
    | MissingFile(path: string)
    | BadExtension(path: string)
    | Unparseable(path: string)
    | UnusualVersion(version: int)
    | InvalidDimensions
    | LargeDimensions
    | EmptyFile
    | VeryLargeFile
    | NoGameLayer
    | NoSpawnPoints
    | InconsistentRow(row: int, width: int, expected: int)
    | DeathmatchSpawns
    | CtfSpawns
    | RaceNeedsEntities

  /** Larger dimensions are only unusual. */
  const MaxDimension: int := 1000
  /** Larger files (50 MB) are only unusual. */
  const LargeFileBytes: int := 50 * 1024 * 1024

  /** The tile ids that mark spawn points. */
  predicate IsSpawnTile(t: int)
  {
    t == 1 || t == 2 || t == 3 || t == 4
  }

  /** The number of spawn tiles in a row. */
  function RowSpawns(row: seq<int>): (n: nat)
    ensures n <= |row|
  {
    if row == [] then 0 else RowSpawns(row[..|row| - 1]) + (if IsSpawnTile(row[|row| - 1]) then 1 else 0)
  }

  /** The number of spawn tiles in all rows. */
  function SpawnCount(tiles: seq<seq<int>>): nat
  {
    if tiles == [] then 0 else SpawnCount(tiles[..|tiles| - 1]) + RowSpawns(tiles[|tiles| - 1])
  }

  /** A row has no spawn tile exactly when none of its cells is one. */
  lemma {:induction false} RowSpawnsZero(row: seq<int>)
    ensures RowSpawns(row) == 0 <==> forall x :: 0 <= x < |row| ==> !IsSpawnTile(row[x])
  {
    if row != [] {
      var init := row[..|row| - 1];
      RowSpawnsZero(init);
      assert forall x :: 0 <= x < |init| ==> init[x] == row[x];
    }
  }

  /** The map has no spawn tile exactly when no cell of any row is one. */
  lemma {:induction false} SpawnCountZero(tiles: seq<seq<int>>)
    ensures SpawnCount(tiles) == 0 <==>
      forall y, x :: 0 <= y < |tiles| && 0 <= x < |tiles[y]| ==> !IsSpawnTile(tiles[y][x])
  {
    if tiles != [] {
      var init := tiles[..|tiles| - 1];
      SpawnCountZero(init);
      RowSpawnsZero(tiles[|tiles| - 1]);
      assert forall y :: 0 <= y < |init| ==> init[y] == tiles[y];
    }
  }

  /**
   * The inconsistent-width errors for the first `n` rows against the width
   * `w`: one per row whose length differs, in row order.
   */
  function Mismatches(tiles: seq<seq<int>>, w: int, n: nat): seq<Message>
    requires n <= |tiles|
  {
    if n == 0 then []
    else Mismatches(tiles, w, n - 1) + (if |tiles[n - 1]| != w then [InconsistentRow(n - 1, |tiles[n - 1]|, w)] else [])
  }

  /**
   * The errors for the first `n` rows name only rows among them whose length
   * differs from `w`, name every such row, and name each row once, in order.
   */
  lemma {:induction false} MismatchesExact(tiles: seq<seq<int>>, w: int, n: nat)
    requires n <= |tiles|
    ensures var m := Mismatches(tiles, w, n);
      && (forall e :: e in m ==> e.InconsistentRow? && 0 <= e.row < n && e.width == |tiles[e.row]| != w && e.expected == w)
      && (forall i :: 0 <= i < n && |tiles[i]| != w ==> InconsistentRow(i, |tiles[i]|, w) in m)
      && (forall j, k :: 0 <= j < k < |m| ==> m[j].row < m[k].row)
  {
    if n > 0 {
      MismatchesExact(tiles, w, n - 1);
      var prev := Mismatches(tiles, w, n - 1);
      var last := if |tiles[n - 1]| != w then [InconsistentRow(n - 1, |tiles[n - 1]|, w)] else [];
      var m := prev + last;
      assert m == Mismatches(tiles, w, n);
      forall e | e in m
        ensures e.InconsistentRow? && 0 <= e.row < n && e.width == |tiles[e.row]| != w && e.expected == w
      {
        assert e in prev || e in last;
      }
      forall j, k | 0 <= j < k < |m| ensures m[j].row < m[k].row {
        if k >= |prev| {
          assert m[k] == last[0] && m[j] == prev[j] && prev[j] in prev;
        } else {
          assert m[j] == prev[j] && m[k] == prev[k];
        }
      }
    }
  }

  /** `_validate_tile_integrity`'s errors: every row whose length differs from the first row's. */
  function IntegrityErrors(tiles: seq<seq<int>>): seq<Message>
  {
    if tiles == [] then [] else Mismatches(tiles, |tiles[0]|, |tiles|)
  }

  /** `has_game_layer`: there is a first row and it is not empty. */
  predicate HasGameLayer(tiles: seq<seq<int>>)
  {
    |tiles| > 0 && |tiles[0]| > 0
  }

  /** `_validate_basic_structure`'s errors: invalid dimensions, then an empty file. */
  function StructureErrors(s: MapState, fileSize: int): seq<Message>
  {
    (if s.width <= 0 || s.height <= 0 then [InvalidDimensions] else [])
    + (if fileSize == 0 then [EmptyFile] else [])
  }

  /**
   * `_validate_basic_structure`'s warnings: a version other than 3 or 4,
   * positive dimensions over 1000, a file over 50 MB.
   */
  function StructureWarnings(s: MapState, fileSize: int): seq<Message>
  {
    (if s.version != 3 && s.version != 4 then [UnusualVersion(s.version)] else [])
    + (if !(s.width <= 0 || s.height <= 0) && (s.width > MaxDimension || s.height > MaxDimension) then [LargeDimensions] else [])
    + (if fileSize != 0 && fileSize > LargeFileBytes then [VeryLargeFile] else [])
  }

  /**
   * Non-positive dimensions are an error and never also a warning; positive
   * dimensions over 1000 are only a warning; an empty file is an error and
   * a file over 50 MB a warning; a version other than 3 or 4 is a warning.
   */
  lemma StructureFacts(s: MapState, fileSize: int)
    ensures InvalidDimensions in StructureErrors(s, fileSize) <==> s.width <= 0 || s.height <= 0
    ensures LargeDimensions in StructureWarnings(s, fileSize) <==>
      0 < s.width && 0 < s.height && (s.width > MaxDimension || s.height > MaxDimension)
    ensures EmptyFile in StructureErrors(s, fileSize) <==> fileSize == 0
    ensures VeryLargeFile in StructureWarnings(s, fileSize) <==> fileSize > LargeFileBytes
    ensures UnusualVersion(s.version) in StructureWarnings(s, fileSize) <==> s.version != 3 && s.version != 4
    ensures LargeDimensions !in StructureErrors(s, fileSize) && InvalidDimensions !in StructureWarnings(s, fileSize)
  {
  }

  /** The entity types counted as player, red and blue spawns. */
  predicate IsPlayerSpawn(kind: string) { kind == "player_spawn" || kind == "player" }
  predicate IsRedSpawn(kind: string) { kind == "red_spawn" || kind == "flag_red" }
  predicate IsBlueSpawn(kind: string) { kind == "blue_spawn" || kind == "flag_blue" }

  /** An entity with a type that counts as a spawn of some team. */
  predicate IsSpawnEntity(e: Entity)
  {
    e.kind.Some? && (IsPlayerSpawn(e.kind.value) || IsRedSpawn(e.kind.value) || IsBlueSpawn(e.kind.value))
  }

  /** The number of spawn entities. */
  function SpawnEntities(entities: seq<Entity>): (n: nat)
    ensures n == 0 <==> forall i :: 0 <= i < |entities| ==> !IsSpawnEntity(entities[i])
  {
    if entities == [] then 0
    else SpawnEntities(entities[..|entities| - 1]) + (if IsSpawnEntity(entities[|entities| - 1]) then 1 else 0)
  }

  /** `validate_compatibility_with_settings`'s issue for a game type and a number of spawn tiles. */
  function CompatibilityIssues(gameType: string, spawns: nat): (issues: seq<Message>)
    ensures gameType == "DM" ==> (issues != [] <==> spawns < 2)
    ensures gameType == "CTF" ==> (issues != [] <==> spawns < 4)
    ensures gameType == "Race" || gameType == "DDRace" ==> issues == [RaceNeedsEntities]
    ensures gameType !in {"DM", "CTF", "Race", "DDRace"} ==> issues == []
    ensures |issues| <= 1
  {
    if gameType == "DM" then (if spawns < 2 then [DeathmatchSpawns] else [])
    else if gameType == "CTF" then (if spawns < 4 then [CtfSpawns] else [])
    else if gameType == "Race" || gameType == "DDRace" then [RaceNeedsEntities]
    else []
  }

  /** The number of spawn tiles in one row, counted cell by cell. */
  method CountRowSpawns(row: seq<int>) returns (count: nat)
    ensures count == RowSpawns(row)
  {
    count := 0;
    for x := 0 to |row|
      invariant count == RowSpawns(row[..x])
    {
      assert row[..x + 1][..x] == row[..x];
      if IsSpawnTile(row[x]) {
        count := count + 1;
      }
    }
    assert row[..|row|] == row;
  }

  /** `_find_spawn_tiles`: the spawn tiles of the map, counted row by row. */
  method FindSpawnTiles(md: MapData) returns (count: nat)
    ensures count == SpawnCount(md.tiles)
  {
    var tiles := md.tiles;
    count := 0;
    for y := 0 to |tiles|
      invariant count == SpawnCount(tiles[..y])
    {
      assert tiles[..y + 1][..y] == tiles[..y];
      var inRow := CountRowSpawns(tiles[y]);
      count := count + inRow;
    }
    assert tiles[..|tiles|] == tiles;
  }

  /**
   * `validate_compatibility_with_settings`: Deathmatch needs 2 spawn tiles,
   * CTF 4, and Race and DDRace always call for entity checks.
   */
  method ValidateCompatibilityWithSettings(md: MapData, gameType: string) returns (issues: seq<Message>)
    ensures issues == CompatibilityIssues(gameType, SpawnCount(md.tiles))
  {
    issues := [];
    if gameType == "DM" {
      var spawns := FindSpawnTiles(md);
      if spawns < 2 {
        issues := issues + [DeathmatchSpawns];
      }
    } else if gameType == "CTF" {
      var spawns := FindSpawnTiles(md);
      if spawns < 4 {
        issues := issues + [CtfSpawns];
      }
    } else if gameType == "Race" || gameType == "DDRace" {
      issues := issues + [RaceNeedsEntities];
    }
  }

  /** `MapValidator`: the errors and warnings of the last validation. */
  class Validator {
    var errors: seq<Message>
    var warnings: seq<Message>

    constructor ()
      ensures errors == [] && warnings == []
    {
      errors, warnings := [], [];
    }

    /** `_validate_basic_structure`. */
    method ValidateBasicStructure(md: MapData, fileSize: int)
      modifies this
      ensures errors == old(errors) + StructureErrors(md.State(), fileSize)
      ensures warnings == old(warnings) + StructureWarnings(md.State(), fileSize)
    {
      var version, width, height := md.version, md.width, md.height;
      if version != 3 && version != 4 {
        warnings := warnings + [UnusualVersion(version)];
      }
      if width <= 0 || height <= 0 {
        errors := errors + [InvalidDimensions];
      } else if width > MaxDimension || height > MaxDimension {
        warnings := warnings + [LargeDimensions];
      }
      if fileSize == 0 {
        errors := errors + [EmptyFile];
      } else if fileSize > LargeFileBytes {
        warnings := warnings + [VeryLargeFile];
      }
    }

    /** `_validate_required_layers`: an error exactly when there is no non-empty first row. */
    method ValidateRequiredLayers(md: MapData)
      modifies this
      ensures warnings == old(warnings)
      ensures errors == old(errors) + (if HasGameLayer(md.tiles) then [] else [NoGameLayer])
    {
      if !(|md.tiles| > 0 && |md.tiles[0]| > 0) {
        errors := errors + [NoGameLayer];
      }
    }

    /**
     * `_validate_spawn_points`: an error exactly when no entity is a spawn
     * of any team and no tile is a spawn tile.
     */
    method ValidateSpawnPoints(md: MapData)
      modifies this
      ensures warnings == old(warnings)
      ensures errors == old(errors) + (if SpawnEntities(md.entities) == 0 && SpawnCount(md.tiles) == 0 then [NoSpawnPoints] else [])
    {
      var playerSpawns, redSpawns, blueSpawns := 0, 0, 0;
      var entities := md.entities;
      for i := 0 to |entities|
        invariant playerSpawns + redSpawns + blueSpawns == SpawnEntities(entities[..i])
      {
        assert entities[..i + 1][..i] == entities[..i];
        var kind := entities[i].kind;
        if kind.Some? {
          if IsPlayerSpawn(kind.value) {
            playerSpawns := playerSpawns + 1;
          } else if IsRedSpawn(kind.value) {
            redSpawns := redSpawns + 1;
          } else if IsBlueSpawn(kind.value) {
            blueSpawns := blueSpawns + 1;
          }
        }
      }
      assert entities[..|entities|] == entities;
      if playerSpawns == 0 && redSpawns == 0 && blueSpawns == 0 {
        var spawnTiles := FindSpawnTiles(md);
        if spawnTiles == 0 {
          errors := errors + [NoSpawnPoints];
        }
      }
    }

    /** `_validate_tile_integrity`: one error per row whose length differs from the first row's, in row order. */
    method ValidateTileIntegrity(md: MapData)
      modifies this
      ensures warnings == old(warnings)
      ensures errors == old(errors) + IntegrityErrors(md.tiles)
    {
      var tiles := md.tiles;
      if tiles == [] {
        return;
      }
      var width := |tiles[0]|;
      for i := 0 to |tiles|
        invariant warnings == old(warnings)
        invariant errors == old(errors) + Mismatches(tiles, width, i)
      {
        if |tiles[i]| != width {
          errors := errors + [InconsistentRow(i, |tiles[i]|, width)];
        }
      }
    }

    /**
     * `validate_map`: the lists start empty; a missing file, a name not
     * ending in `.map` (in any case) or bytes the parser rejects give one
     * error; otherwise the four checks run in turn. The map is valid
     * exactly when no error was found.
     */
    method ValidateMap(path: string, fileExists: bool, content: seq<byte>) returns (valid: bool)
      modifies this
      ensures valid <==> errors == []
      ensures !fileExists ==> errors == [MissingFile(path)] && warnings == []
      ensures fileExists && !EndsWith(Lower(path), ".map") ==> errors == [BadExtension(path)] && warnings == []
      ensures fileExists && EndsWith(Lower(path), ".map") && |content| < 4 ==> errors == [Unparseable(path)] && warnings == []
      ensures fileExists && EndsWith(Lower(path), ".map") && 4 <= |content| ==>
        var s := Parsed(content).value;
        && errors == StructureErrors(s, |content|) + (if HasGameLayer(s.tiles) then [] else [NoGameLayer])
                     + (if SpawnEntities(s.entities) == 0 && SpawnCount(s.tiles) == 0 then [NoSpawnPoints] else [])
                     + IntegrityErrors(s.tiles)
        && warnings == StructureWarnings(s, |content|)
    {
      errors, warnings := [], [];
      if !fileExists {
        errors := errors + [MissingFile(path)];
        return false;
      }
      if !EndsWith(Lower(path), ".map") {
        errors := errors + [BadExtension(path)];
        return false;
      }
      valid := ParseAndCheck(path, content);
    }

    /** The rest of `validate_map` once the file is known to exist with a `.map` name: parse, then check. */
    method ParseAndCheck(path: string, content: seq<byte>) returns (valid: bool)
      requires errors == [] && warnings == []
      modifies this
      ensures valid <==> errors == []
      ensures |content| < 4 ==> errors == [Unparseable(path)] && warnings == []
      ensures 4 <= |content| ==>
        var s := Parsed(content).value;
        && errors == StructureErrors(s, |content|) + (if HasGameLayer(s.tiles) then [] else [NoGameLayer])
                     + (if SpawnEntities(s.entities) == 0 && SpawnCount(s.tiles) == 0 then [NoSpawnPoints] else [])
                     + IntegrityErrors(s.tiles)
        && warnings == StructureWarnings(s, |content|)
    {
      var parser := new Parser();
      var parsed := parser.Parse(content);
      if parsed.None? {
        errors := errors + [Unparseable(path)];
        return false;
      }
      var md := parsed.value;
      RunChecks(md, |content|);
      return |errors| == 0;
    }

    /** The four checks of `validate_map`, in order, on a parsed map. */
    method RunChecks(md: MapData, fileSize: int)
      modifies this
      ensures errors == old(errors) + StructureErrors(md.State(), fileSize)
        + (if HasGameLayer(md.tiles) then [] else [NoGameLayer])
        + (if SpawnEntities(md.entities) == 0 && SpawnCount(md.tiles) == 0 then [NoSpawnPoints] else [])
        + IntegrityErrors(md.tiles)
      ensures warnings == old(warnings) + StructureWarnings(md.State(), fileSize)
    {
      ValidateBasicStructure(md, fileSize);
      ValidateRequiredLayers(md);
      ValidateSpawnPoints(md);
      ValidateTileIntegrity(md);
    }
  }
}

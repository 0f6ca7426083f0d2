/**
 * The reader of `.map` files (`arcgame/map/map_parser.py`): a cursor over
 * the file's bytes, readers for bytes, little-endian signed 32-bit
 * integers, raw 32-bit floats and NUL-terminated strings, and the item
 * loop that dispatches on each item's type and fills a `MapData` record.
 *
 * The file's contents are the parameter of `Parse`. Strings are kept as
 * their bytes and floats as their four raw bytes.
 */
module MapParser {
  import opened Wrappers
  import opened Bytes
  import opened ListView

  /** The only exception the item loop catches: the cursor ran out of bytes. */
  datatype ParseError = EndOfFile

  /** The signed 32-bit little-endian integer stored at `o`. */
  function IntAt(data: seq<byte>, o: int): int
    requires 0 <= o && o + 4 <= |data|
  {
    DecodeI32(data[o..o + 4])
  }

  /**
   * The `w` integers stored one after another from `start`, in order.
   */
  function Row(data: seq<byte>, start: int, w: nat): (r: seq<int>)
    requires 0 <= start && start + 4 * w <= |data|
    ensures |r| == w
  {
    if w == 0 then [] else Row(data, start, w - 1) + [IntAt(data, start + 4 * (w - 1))]
  }

  /** `h` rows of `w` integers stored row after row from `base`. */
  function Grid(data: seq<byte>, base: int, w: nat, h: nat): (g: seq<seq<int>>)
    requires 0 <= base && base + 4 * Cells(w, h) <= |data|
    ensures |g| == h
  {
    if h == 0 then []
    else
      CellsGrow(w, h - 1);
      Grid(data, base, w, h - 1) + [Row(data, base + 4 * Cells(w, h - 1), w)]
  }

  /** The number of cells in `h` rows of `w`. */
  function Cells(w: nat, h: nat): nat
  {
    w * h
  }

  /** One more row holds `w` more cells. */
  lemma CellsGrow(w: nat, h: nat)
    ensures Cells(w, h + 1) == Cells(w, h) + w
  {
  }

  /** Rows `0` to `y` of a grid of `h` rows, with `y < h`, take no more cells than the whole grid. */
  lemma RowsBound(w: nat, h: nat, y: nat)
    requires y < h
    ensures Cells(w, y) + w <= Cells(w, h)
  {
    CellsGrow(w, y);
    assert w * (y + 1) <= w * h;
  }

  /** Entry `x` of a row is the integer at `start + 4 * x`. */
  lemma {:induction false} RowAt(data: seq<byte>, start: int, w: nat, x: nat)
    requires 0 <= start && start + 4 * w <= |data| && x < w
    ensures Row(data, start, w)[x] == IntAt(data, start + 4 * x)
  {
    if x < w - 1 {
      RowAt(data, start, w - 1, x);
    }
  }

  /** Cell `(y, x)` of a grid is the integer stored `w * y + x` places after `base`. */
  lemma {:induction false} GridAt(data: seq<byte>, base: int, w: nat, h: nat, y: nat, x: nat)
    requires 0 <= base && base + 4 * Cells(w, h) <= |data| && y < h && x < w
    ensures |Grid(data, base, w, h)[y]| == w
    ensures Grid(data, base, w, h)[y][x] == IntAt(data, base + 4 * (Cells(w, y) + x))
  {
    CellsGrow(w, h - 1);
    if y < h - 1 {
      GridAt(data, base, w, h - 1, y, x);
    } else {
      RowAt(data, base + 4 * Cells(w, y), w, x);
    }
  }

  /**
   * `_skip_bytes` as written: the cursor moves by `count`, capped at the
   * end of the data but not at its start, so a negative count moves it
   * back.
   */
  function SkipAsWritten(offset: int, count: int, length: int): (r: int)
    ensures r <= length
    ensures offset + count <= length ==> r == offset + count
  {
    if offset + count > length then length else offset + count
  }

  /**
   * A file holding the version 3, then an item of type 0 whose size is -8.
   * After reading that item's type and size the cursor is at 12, and
   * skipping -8 bytes brings it back to 4, where the same item is read
   * again: as written, `_parse_items` never finishes on this file.
   */
  lemma NegativeSizeRepeatsItemAsWritten()
    ensures var file: seq<byte> := [3, 0, 0, 0, 0, 0, 0, 0, 0xF8, 0xFF, 0xFF, 0xFF];
      && IntAt(file, 0) == 3
      && IntAt(file, 4) == 0 && IntAt(file, 8) == -8
      && SkipAsWritten(4 + 8, IntAt(file, 8), |file|) == 4
  {
    var file: seq<byte> := [3, 0, 0, 0, 0, 0, 0, 0, 0xF8, 0xFF, 0xFF, 0xFF];
    assert file[8..12] == [0xF8, 0xFF, 0xFF, 0xFF];
    assert file[4..8] == [0, 0, 0, 0];
    assert file[0..4] == [3, 0, 0, 0];
  }

  /** The extra bytes a tile layer of a version carries before its tiles: flags, level and colour. */
  function TileLayerExtra(version: int): (n: int)
    ensures n == (if version >= 2 then 4 else 0) + (if version >= 3 then 4 else 0) + (if version >= 4 then 16 else 0)
    ensures 0 <= n <= 24
  {
    if version >= 4 then 24 else if version >= 3 then 8 else if version >= 2 then 4 else 0
  }

  /** A tileset image: its name and size; the pixels are skipped. */
  datatype Image = Image(name: seq<byte>, width: int, height: int)

  /** An animation envelope's header. */
  datatype Envelope = Envelope(numPoints: int, channels: int, sustainPoint: int, loopStart: int, inverted: int)

  /** A group of layers; `x` and `y` are the raw bytes of two 32-bit floats. */
  datatype Group = Group(version: int, name: seq<byte>, x: seq<byte>, y: seq<byte>,
                         parallaxX: int, parallaxY: int, offsetX: int, offsetY: int,
                         useClipping: int, clipX: int, clipY: int, clipW: int, clipH: int)

  /** An entity record; `kind` is its `'type'` entry, if it has one. */
  datatype Entity = Entity(kind: Option<string>)

  /** The contents of a `MapData` at one moment. */
  datatype MapState = MapState(version: int, author: seq<byte>, name: seq<byte>, width: int, height: int,
                               tiles: seq<seq<int>>, entities: seq<Entity>,
                               groups: seq<Group>, images: seq<Image>, envelopes: seq<Envelope>)

  /** The number of times `range(n)` runs. */
  function RangeLen(n: int): (r: nat)
    ensures n <= 0 ==> r == 0
    ensures n >= 0 ==> r == n
  {
    if n < 0 then 0 else n
  }

  /** Where a tile layer's tiles start: after its version, width, height and the extras its version carries. */
  function TileLayerBase(data: seq<byte>, o: int): (b: int)
    requires 0 <= o && o + 12 <= |data|
    ensures o + 12 <= b <= |data|
  {
    Min(|data|, o + 12 + TileLayerExtra(IntAt(data, o)))
  }

  /** A tile layer at `o` is complete: its header and all its tiles are in the data. */
  predicate TileLayerFits(data: seq<byte>, o: int)
    requires 0 <= o
  {
    o + 12 <= |data|
    && TileLayerBase(data, o) + 4 * Cells(RangeLen(IntAt(data, o + 4)), RangeLen(IntAt(data, o + 8))) <= |data|
  }

  /**
   * How parsing may change a map record: the version stays, the first tile
   * layer's dimensions and tiles stay, the lists only grow, an author or a
   * name once found stays, and a name is only found after an author.
   */
  predicate Evolves(before: MapState, after: MapState)
  {
    && after.version == before.version && after.entities == before.entities
    && (before.width != 0 && before.height != 0 ==>
          after.width == before.width && after.height == before.height && after.tiles == before.tiles)
    && before.groups <= after.groups && before.images <= after.images && before.envelopes <= after.envelopes
    && (before.author != [] ==> after.author == before.author)
    && (before.name != [] ==> after.name == before.name)
    && ((before.name != [] ==> before.author != []) ==> (after.name != [] ==> after.author != []))
  }

  /** Parsing two items in a row changes a record only as parsing one may. */
  lemma EvolvesTransitive(a: MapState, b: MapState, c: MapState)
    requires Evolves(a, b) && Evolves(b, c)
    ensures Evolves(a, c)
  {
  }


  /** What one item leaves behind: the cursor and the record, or a stop because the data ran out. */
  datatype Step = Next(offset: int, state: MapState) | Stop

  /**
   * The cursor, author and name after the strings of an info item from `o`
   * up to `end`: each string is offered to the author while that is empty,
   * then to the name while that is empty; a string without its NUL ends
   * the item with the cursor at the end of the data.
   */
  function InfoStrings(data: seq<byte>, o: int, end: int, author: seq<byte>, name: seq<byte>)
    : (r: (int, seq<byte>, seq<byte>))
    requires 0 <= o <= |data|
    ensures o <= r.0 <= |data|
    decreases |data| - o
  {
    if o >= end then (o, author, name)
    else
      var k := NulFrom(data, o);
      if k == |data| then (|data|, author, name)
      else if author == [] then InfoStrings(data, k + 1, end, data[o..k], name)
      else if name == [] then InfoStrings(data, k + 1, end, author, data[o..k])
      else InfoStrings(data, k + 1, end, author, name)
  }

  /** An author or a name, once found, is never replaced by a later string. */
  lemma {:induction false} InfoStringsKeep(data: seq<byte>, o: int, end: int, author: seq<byte>, name: seq<byte>)
    requires 0 <= o <= |data|
    ensures var r := InfoStrings(data, o, end, author, name);
      && (author != [] ==> r.1 == author)
      && (name != [] ==> r.2 == name)
      && (author != [] || name == [] ==> (r.2 != [] ==> r.1 != []))
    decreases |data| - o
  {
    if o < end {
      var k := NulFrom(data, o);
      if k < |data| {
        if author == [] {
          InfoStringsKeep(data, k + 1, end, data[o..k], name);
        } else if name == [] {
          InfoStringsKeep(data, k + 1, end, author, data[o..k]);
        } else {
          InfoStringsKeep(data, k + 1, end, author, name);
        }
      }
    }
  }

  /** With no author yet, a non-empty first string inside the item becomes the author. */
  lemma InfoFirstAuthor(data: seq<byte>, o: int, end: int, name: seq<byte>)
    requires 0 <= o < end && o <= |data|
    requires NulFrom(data, o) < |data| && NulFrom(data, o) > o
    ensures InfoStrings(data, o, end, [], name).1 == data[o..NulFrom(data, o)]
  {
    var k := NulFrom(data, o);
    InfoStringsKeep(data, k + 1, end, data[o..k], name);
  }

  /** With an author and no name yet, a non-empty first string inside the item becomes the name. */
  lemma InfoNextName(data: seq<byte>, o: int, end: int, author: seq<byte>)
    requires 0 <= o < end && o <= |data| && author != []
    requires NulFrom(data, o) < |data| && NulFrom(data, o) > o
    ensures InfoStrings(data, o, end, author, []).2 == data[o..NulFrom(data, o)]
  {
    var k := NulFrom(data, o);
    InfoStringsKeep(data, k + 1, end, author, data[o..k]);
  }

  /** An image item at `o`: its name, width and height recorded, its pixels skipped. */
  function ImageStep(data: seq<byte>, o: int, st: MapState): (r: Step)
    requires 0 <= o <= |data|
    ensures r.Next? ==> o <= r.offset <= |data|
  {
    var k := NulFrom(data, o);
    if k + 9 > |data| then Stop
    else
      var w, h := IntAt(data, k + 1), IntAt(data, k + 5);
      Next(Min(|data|, k + 9 + Max(0, w * h * 4)), st.(images := st.images + [Image(data[o..k], w, h)]))
  }

  /** An envelope item at `o`: the five integers of its header recorded. */
  function EnvelopeStep(data: seq<byte>, o: int, st: MapState): (r: Step)
    requires 0 <= o <= |data|
    ensures r.Next? ==> o <= r.offset <= |data|
  {
    if o + 20 > |data| then Stop
    else
      Next(o + 20, st.(envelopes := st.envelopes + [Envelope(IntAt(data, o), IntAt(data, o + 4),
        IntAt(data, o + 8), IntAt(data, o + 12), IntAt(data, o + 16))]))
  }

  /** The group whose position and nine integers are stored from `b`. */
  function GroupAt(data: seq<byte>, b: int, version: int, name: seq<byte>): Group
    requires 0 <= b && b + 44 <= |data|
  {
    var n := Row(data, b + 8, 9);
    Group(version, name, data[b..b + 4], data[b + 4..b + 8], n[0], n[1], n[2], n[3], n[4], n[5], n[6], n[7], n[8])
  }

  /**
   * The group item at `o`, read: the cursor after it and the group it
   * records, none before version 1 and unnamed before version 2; nothing
   * when the data runs out.
   */
  function GroupRead(data: seq<byte>, o: int): (r: Option<(int, Option<Group>)>)
    requires 0 <= o <= |data|
    ensures r.Some? ==> o <= r.value.0 <= |data|
  {
    if o + 4 > |data| then None else GroupFrom(data, o + 4, IntAt(data, o))
  }

  /** The rest of a group item of `version` from `p`, just after the version. */
  function GroupFrom(data: seq<byte>, p: int, version: int): (r: Option<(int, Option<Group>)>)
    requires 0 <= p <= |data|
    ensures r.Some? ==> p <= r.value.0 <= |data|
  {
    if version < 1 then Some((p, None))
    else if version < 2 then GroupBodyRead(data, p, version, [])
    else
      var k := NulFrom(data, p);
      if k == |data| then None else GroupBodyRead(data, k + 1, version, data[p..k])
  }

  /** A group item from version 1 on reads its body after the name, or fails for want of the name's NUL. */
  lemma GroupFromBody(data: seq<byte>, p: int, version: int)
    requires 0 <= p <= |data| && 1 <= version
    ensures version < 2 ==> GroupFrom(data, p, version) == GroupBodyRead(data, p, version, [])
    ensures version >= 2 && NulFrom(data, p) < |data| ==>
      GroupFrom(data, p, version) == GroupBodyRead(data, NulFrom(data, p) + 1, version, data[p..NulFrom(data, p)])
  {
  }

  /** The group body at `b`, if all of it is in the data. */
  function GroupBodyRead(data: seq<byte>, b: int, version: int, name: seq<byte>): (r: Option<(int, Option<Group>)>)
    requires 0 <= b <= |data|
    ensures r.Some? ==> b <= r.value.0 <= |data|
  {
    if b + 44 > |data| then None else Some((b + 44, Some(GroupAt(data, b, version, name))))
  }

  /** A group item at `o`: its group, if it has one, appended to the groups. */
  function GroupStep(data: seq<byte>, o: int, st: MapState): (r: Step)
    requires 0 <= o <= |data|
    ensures r.Next? ==> o <= r.offset <= |data|
  {
    match GroupRead(data, o)
    case None => Stop
    case Some((q, g)) => Next(q, if g.None? then st else st.(groups := st.groups + [g.value]))
  }

  /** A tile layer at `o`: kept as the map's grid only when no earlier layer set the dimensions. */
  function TileLayerStep(data: seq<byte>, o: int, st: MapState): (r: Step)
    requires 0 <= o <= |data|
    ensures r.Next? ==> o <= r.offset <= |data|
  {
    if !TileLayerFits(data, o) then Stop
    else
      var w, h := IntAt(data, o + 4), IntAt(data, o + 8);
      var base := TileLayerBase(data, o);
      Next(base + 4 * Cells(RangeLen(w), RangeLen(h)),
           if st.width != 0 && st.height != 0 then st
           else st.(width := w, height := h, tiles := Grid(data, base, RangeLen(w), RangeLen(h))))
  }

  /** A layer item at `o` of `size` bytes: a tile layer (type 0) from version 2 on is parsed, any other type skipped. */
  function LayerStep(data: seq<byte>, o: int, size: int, st: MapState): (r: Step)
    requires 0 <= o <= |data|
    ensures r.Next? ==> o <= r.offset <= |data|
  {
    if o + 4 > |data| then Stop
    else if IntAt(data, o) < 2 then Next(o + 4, st)
    else if o + 8 > |data| then Stop
    else if IntAt(data, o + 4) == 0 then TileLayerStep(data, o + 8, st)
    else Next(Min(|data|, o + 8 + Max(0, size - 8)), st)
  }

  /**
   * One item at `o`: its type and size, then the part its type calls for
   * (1 info, 2 image, 3 envelope, 4 group, 5 layer); any other type is
   * skipped by its size.
   */
  function ItemStep(data: seq<byte>, o: int, st: MapState): (r: Step)
    requires 0 <= o <= |data|
    ensures r.Next? ==> o + 8 <= r.offset <= |data|
  {
    if o + 8 > |data| then Stop
    else
      var kind, size, p := IntAt(data, o), IntAt(data, o + 4), o + 8;
      if kind == 1 then
        var info := InfoStrings(data, p, p + size, st.author, st.name);
        Next(info.0, st.(author := info.1, name := info.2))
      else if kind == 2 then ImageStep(data, p, st)
      else if kind == 3 then EnvelopeStep(data, p, st)
      else if kind == 4 then GroupStep(data, p, st)
      else if kind == 5 then LayerStep(data, p, size, st)
      else Next(Min(|data|, p + Max(0, size)), st)
  }

  /** The record after items are parsed from `o` until the data is used up or an item runs out of data. */
  function ItemsFrom(data: seq<byte>, o: int, st: MapState): MapState
    requires 0 <= o <= |data|
    decreases |data| - o
  {
    if o == |data| then st
    else match ItemStep(data, o, st)
      case Stop => st
      case Next(q, s) => ItemsFrom(data, q, s)
  }

  /** The record a file parses to: none without a version, else the items after it, from an empty record. */
  function Parsed(content: seq<byte>): (r: Option<MapState>)
    ensures r.None? <==> |content| < 4
  {
    if |content| < 4 then None
    else Some(ItemsFrom(content, 4, MapState(IntAt(content, 0), [], [], 0, 0, [], [], [], [], [])))
  }

  /** One item changes a record only as `Evolves` allows. */
  lemma ItemStepEvolves(data: seq<byte>, o: int, st: MapState)
    requires 0 <= o <= |data|
    ensures ItemStep(data, o, st).Next? ==> Evolves(st, ItemStep(data, o, st).state)
  {
    if o + 8 <= |data| && IntAt(data, o) == 1 {
      InfoStringsKeep(data, o + 8, o + 8 + IntAt(data, o + 4), st.author, st.name);
    }
  }

  /** The whole item loop changes a record only as `Evolves` allows. */
  lemma {:induction false} ItemsFromEvolves(data: seq<byte>, o: int, st: MapState)
    requires 0 <= o <= |data|
    ensures Evolves(st, ItemsFrom(data, o, st))
    decreases |data| - o
  {
    if o < |data| {
      var step := ItemStep(data, o, st);
      if step.Next? {
        ItemStepEvolves(data, o, st);
        ItemsFromEvolves(data, step.offset, step.state);
        EvolvesTransitive(st, step.state, ItemsFrom(data, step.offset, step.state));
      }
    }
  }

  /**
   * A parsed file keeps the version it starts with and has no entities; it
   * has a name only if it has an author.
   */
  lemma ParsedFacts(content: seq<byte>)
    requires 4 <= |content|
    ensures var s := Parsed(content).value;
      && s.version == IntAt(content, 0) && s.entities == []
      && (s.name != [] ==> s.author != [])
  {
    ItemsFromEvolves(content, 4, MapState(IntAt(content, 0), [], [], 0, 0, [], [], [], [], []));
  }

  /** `MapData`: what the parser has found so far. */
  class MapData {
    var version: int
    var author: seq<byte>
    var name: seq<byte>
    var width: int
    var height: int
    var tiles: seq<seq<int>>
    var entities: seq<Entity>
    var groups: seq<Group>
    var images: seq<Image>
    var envelopes: seq<Envelope>

    /** The record `parse` creates after reading the version: everything else empty or zero. */
    constructor (version: int)
      ensures State() == MapState(version, [], [], 0, 0, [], [], [], [], [])
    {
      this.version := version;
      author, name := [], [];
      width, height, tiles, entities := 0, 0, [], [];
      groups, images, envelopes := [], [], [];
    }

    function State(): MapState
      reads this
    {
      MapState(version, author, name, width, height, tiles, entities, groups, images, envelopes)
    }

    /** Whether a tile layer has already set the dimensions, so that later ones leave them alone. */
    predicate HasMainLayer()
      reads this
    {
      width != 0 && height != 0
    }
  }

  /** `MapParser`: the bytes being parsed and the cursor into them. */
  class Parser {
    var data: seq<byte>
    var offset: int

    ghost predicate Valid()
      reads this
    {
      0 <= offset <= |data|
    }

    constructor ()
      ensures Valid() && data == [] && offset == 0
    {
      data, offset := [], 0;
    }

    /** `_read_byte`: the byte at the cursor, which moves on by one; end of file past the last byte. */
    method ReadByte() returns (r: Result<byte, ParseError>)
      requires Valid()
      modifies this
      ensures Valid() && data == old(data)
      ensures old(offset) < |data| ==> r == Ok(data[old(offset)]) && offset == old(offset) + 1
      ensures old(offset) >= |data| ==> r == Err(EndOfFile) && offset == old(offset)
    {
      if offset >= |data| {
        return Err(EndOfFile);
      }
      r := Ok(data[offset]);
      offset := offset + 1;
    }

    /** `_read_int`: with four bytes left, the signed integer they hold, and the cursor moves on by four. */
    method ReadInt() returns (r: Result<int, ParseError>)
      requires Valid()
      modifies this
      ensures Valid() && data == old(data)
      ensures old(offset) + 4 <= |data| ==> r == Ok(IntAt(data, old(offset))) && offset == old(offset) + 4
      ensures old(offset) + 4 > |data| ==> r == Err(EndOfFile) && offset == old(offset)
    {
      if offset + 4 > |data| {
        return Err(EndOfFile);
      }
      r := Ok(DecodeI32(data[offset..offset + 4]));
      offset := offset + 4;
    }

    /** `_read_float`: with four bytes left, those bytes, and the cursor moves on by four. */
    method ReadFloat() returns (r: Result<seq<byte>, ParseError>)
      requires Valid()
      modifies this
      ensures Valid() && data == old(data)
      ensures old(offset) + 4 <= |data| ==> r == Ok(data[old(offset)..old(offset) + 4]) && offset == old(offset) + 4
      ensures old(offset) + 4 > |data| ==> r == Err(EndOfFile) && offset == old(offset)
    {
      if offset + 4 > |data| {
        return Err(EndOfFile);
      }
      r := Ok(data[offset..offset + 4]);
      offset := offset + 4;
    }

    /**
     * `_read_string`: the bytes up to the next NUL, with the cursor just
     * past the NUL; without a NUL, end of file with the cursor at the end.
     */
    method ReadString() returns (r: Result<seq<byte>, ParseError>)
      requires Valid()
      modifies this
      ensures Valid() && data == old(data)
      ensures var k := NulFrom(data, old(offset));
        if k < |data| then r == Ok(data[old(offset)..k]) && offset == k + 1
        else r == Err(EndOfFile) && offset == |data|
    {
      var start, i := offset, offset;
      while i < |data| && data[i] != 0
        invariant start <= i <= |data|
        invariant NulFrom(data, start) == NulFrom(data, i)
        decreases |data| - i
      {
        i := i + 1;
      }
      offset := i;
      if i >= |data| {
        return Err(EndOfFile);
      }
      r := Ok(data[start..i]);
      offset := i + 1;
    }

    /**
     * `_skip_bytes`: the cursor moves forward by `count`, stopping at the
     * end of the data; a negative count leaves it where it is.
     */
    method SkipBytes(count: int)
      requires Valid()
      modifies this
      ensures Valid() && data == old(data)
      ensures old(offset) <= offset
      ensures offset == Min(|data|, old(offset) + Max(0, count))
    {
      offset := offset + Max(0, count);
      if offset > |data| {
        offset := |data|;
      }
    }

    /**
     * The tile rows of a tile layer: `h` rows of `w` integers read one after
     * another; end of file when the data runs out before the last one.
     */
    method ReadTiles(w: nat, h: nat) returns (r: Result<seq<seq<int>>, ParseError>)
      requires Valid()
      modifies this
      ensures Valid() && data == old(data) && old(offset) <= offset
      ensures r.Ok? <==> old(offset) + 4 * Cells(w, h) <= |data|
      ensures r.Ok? ==> r.value == Grid(data, old(offset), w, h) && offset == old(offset) + 4 * Cells(w, h)
    {
      var base := offset;
      var tiles: seq<seq<int>> := [];
      var y := 0;
      while y < h
        invariant 0 <= y <= h && data == old(data) && Valid()
        invariant offset == base + 4 * Cells(w, y) && tiles == Grid(data, base, w, y)
      {
        CellsGrow(w, y);
        var row := ReadRow(w);
        if row.Err? {
          RowsBound(w, h, y);
          return Err(EndOfFile);
        }
        tiles := tiles + [row.value];
        y := y + 1;
      }
      return Ok(tiles);
    }

    /** One row of `w` tiles, read one integer after another. */
    method ReadRow(w: nat) returns (r: Result<seq<int>, ParseError>)
      requires Valid()
      modifies this
      ensures Valid() && data == old(data) && old(offset) <= offset
      ensures r.Ok? <==> old(offset) + 4 * w <= |data|
      ensures r.Ok? ==> r.value == Row(data, old(offset), w) && offset == old(offset) + 4 * w
    {
      var start := offset;
      var row: seq<int> := [];
      var x := 0;
      while x < w
        invariant 0 <= x <= w && data == old(data) && Valid()
        invariant offset == start + 4 * x && row == Row(data, start, x)
      {
        var cell := ReadInt();
        if cell.Err? {
          return Err(EndOfFile);
        }
        row := row + [cell.value];
        x := x + 1;
      }
      return Ok(row);
    }

    /**
     * `_parse_tile_layer`: the version, width and height, then the flags,
     * level and colour the version carries are skipped, then height rows of
     * width tiles are read. Only the first layer whose width and height are
     * both non-zero is kept as the map's dimensions and tiles.
     */
    method ParseTileLayer(md: MapData, size: int) returns (r: Result<(), ParseError>)
      requires Valid()
      modifies this, md
      ensures Valid() && data == old(data) && old(offset) <= offset
      ensures r.Ok? <==> TileLayerFits(data, old(offset))
      ensures r.Err? || old(md.HasMainLayer()) ==> md.State() == old(md.State())
      ensures r.Ok? && !old(md.HasMainLayer()) ==>
        var w, h := IntAt(data, old(offset) + 4), IntAt(data, old(offset) + 8);
        md.State() == old(md.State()).(width := w, height := h,
                                       tiles := Grid(data, TileLayerBase(data, old(offset)), RangeLen(w), RangeLen(h)))
      ensures var st := TileLayerStep(data, old(offset), old(md.State()));
        (r.Ok? <==> st.Next?) && (r.Ok? ==> offset == st.offset && md.State() == st.state)
    {
      var layer := ReadTileLayer();
      if layer.Err? {
        return Err(EndOfFile);
      }
      if md.width == 0 || md.height == 0 {
        md.width, md.height, md.tiles := layer.value.0, layer.value.1, layer.value.2;
      }
      return Ok(());
    }

    /** The width, height and tile rows of the tile layer at the cursor, with the cursor just past its last tile. */
    method ReadTileLayer() returns (r: Result<(int, int, seq<seq<int>>), ParseError>)
      requires Valid()
      modifies this
      ensures Valid() && data == old(data) && old(offset) <= offset
      ensures r.Ok? <==> TileLayerFits(data, old(offset))
      ensures r.Ok? ==>
        var w, h := IntAt(data, old(offset) + 4), IntAt(data, old(offset) + 8);
        var base := TileLayerBase(data, old(offset));
        && r.value == (w, h, Grid(data, base, RangeLen(w), RangeLen(h)))
        && offset == base + 4 * Cells(RangeLen(w), RangeLen(h))
    {
      var version := ReadInt();
      if version.Err? {
        return Err(EndOfFile);
      }
      var width := ReadInt();
      if width.Err? {
        return Err(EndOfFile);
      }
      var height := ReadInt();
      if height.Err? {
        return Err(EndOfFile);
      }
      SkipExtras(version.value);
      var tiles := ReadTiles(RangeLen(width.value), RangeLen(height.value));
      if tiles.Err? {
        return Err(EndOfFile);
      }
      return Ok((width.value, height.value, tiles.value));
    }

    /** The flags, level and colour of a tile layer of `version`, skipped. */
    method SkipExtras(version: int)
      requires Valid()
      modifies this
      ensures Valid() && data == old(data)
      ensures offset == Min(|data|, old(offset) + TileLayerExtra(version))
    {
      if version >= 2 {
        SkipBytes(4);
      }
      if version >= 3 {
        SkipBytes(4);
      }
      if version >= 4 {
        SkipBytes(16);
      }
    }

    /**
     * `_parse_layer_item`: layers before version 2 are ignored after their
     * version; otherwise a tile layer (type 0) is parsed and any other type
     * is skipped.
     */
    method ParseLayerItem(md: MapData, size: int) returns (r: Result<(), ParseError>)
      requires Valid()
      modifies this, md
      ensures Valid() && data == old(data) && old(offset) <= offset
      ensures Evolves(old(md.State()), md.State())
      ensures md.State() == old(md.State()).(width := md.width, height := md.height, tiles := md.tiles)
      ensures md.State() != old(md.State()) ==>
        old(offset) + 8 <= |data| && IntAt(data, old(offset)) >= 2 && IntAt(data, old(offset) + 4) == 0
      ensures var st := LayerStep(data, old(offset), size, old(md.State()));
        (r.Ok? <==> st.Next?) && (r.Ok? ==> offset == st.offset && md.State() == st.state)
      ensures r.Err? ==> md.State() == old(md.State())
    {
      var layerVersion := ReadInt();
      if layerVersion.Err? {
        return Err(EndOfFile);
      }
      r := Ok(());
      if layerVersion.value >= 2 {
        var typeId := ReadInt();
        if typeId.Err? {
          return Err(EndOfFile);
        }
        if typeId.value == 0 {
          r := ParseTileLayer(md, size - 8);
        } else {
          SkipBytes(size - 8);
        }
      }
    }

    /**
     * `_parse_group_item`: a group is recorded only from version 1 on, and
     * it has a name only from version 2 on.
     */
    method ParseGroupItem(md: MapData, size: int) returns (r: Result<(), ParseError>)
      requires Valid()
      modifies this, md
      ensures Valid() && data == old(data) && old(offset) <= offset
      ensures md.State() == old(md.State()).(groups := md.groups)
      ensures Evolves(old(md.State()), md.State())
      ensures r.Err? ==> md.groups == old(md.groups)
      ensures r.Ok? ==> old(offset) + 4 <= |data|
      ensures r.Ok? && IntAt(data, old(offset)) < 1 ==> md.groups == old(md.groups)
      ensures r.Ok? && IntAt(data, old(offset)) >= 1 ==>
        var v := IntAt(data, old(offset));
        && |md.groups| == |old(md.groups)| + 1 && md.groups[..|old(md.groups)|] == old(md.groups)
        && md.groups[|old(md.groups)|].version == v
        && (v < 2 ==> md.groups[|old(md.groups)|].name == [])
        && (v >= 2 ==> md.groups[|old(md.groups)|].name == data[old(offset) + 4..NulFrom(data, old(offset) + 4)])
      ensures var st := GroupStep(data, old(offset), old(md.State()));
        (r.Ok? <==> st.Next?) && (r.Ok? ==> offset == st.offset && md.State() == st.state)
    {
      var g := ReadGroup();
      if g.Err? {
        return Err(EndOfFile);
      }
      if g.value.Some? {
        md.groups := md.groups + [g.value.value];
      }
      return Ok(());
    }

    /** A group item at the cursor, read: its group, if its version records one. */
    method ReadGroup() returns (r: Result<Option<Group>, ParseError>)
      requires Valid()
      modifies this
      ensures Valid() && data == old(data) && old(offset) <= offset
      ensures r.Ok? <==> GroupRead(data, old(offset)).Some?
      ensures r.Ok? ==> (offset, r.value) == GroupRead(data, old(offset)).value
    {
      var version := ReadInt();
      if version.Err? {
        return Err(EndOfFile);
      }
      if version.value < 1 {
        return Ok(None);
      }
      ghost var p := offset;
      var name: seq<byte> := [];
      if version.value >= 2 {
        var s := ReadString();
        if s.Err? {
          return Err(EndOfFile);
        }
        name := s.value;
      }
      GroupFromBody(data, p, version.value);
      var g := ReadGroupBody(version.value, name);
      if g.Err? {
        return Err(EndOfFile);
      }
      return Ok(Some(g.value));
    }

    /** The position floats and the nine integers of a group, after its version and name. */
    method ReadGroupBody(version: int, name: seq<byte>) returns (r: Result<Group, ParseError>)
      requires Valid()
      modifies this
      ensures Valid() && data == old(data) && old(offset) <= offset
      ensures r.Ok? <==> old(offset) + 44 <= |data|
      ensures r.Ok? ==> r.value.version == version && r.value.name == name
      ensures r.Ok? ==> r.value == GroupAt(data, old(offset), version, name) && offset == old(offset) + 44
      ensures r.Ok? ==> (offset, Some(r.value)) == GroupBodyRead(data, old(offset), version, name).value
    {
      var x := ReadFloat();
      if x.Err? { return Err(EndOfFile); }
      var y := ReadFloat();
      if y.Err? { return Err(EndOfFile); }
      // parallax x and y, offset x and y, clipping flag, clip x, y, width and height
      var n := ReadRow(9);
      if n.Err? { return Err(EndOfFile); }
      return Ok(Group(version, name, x.value, y.value, n.value[0], n.value[1], n.value[2], n.value[3],
                      n.value[4], n.value[5], n.value[6], n.value[7], n.value[8]));
    }

    /** `_parse_image_item`: the name and size of an image are recorded and its RGBA pixels skipped. */
    method ParseImageItem(md: MapData, size: int) returns (r: Result<(), ParseError>)
      requires Valid()
      modifies this, md
      ensures Valid() && data == old(data) && old(offset) <= offset
      ensures md.State() == old(md.State()).(images := md.images)
      ensures Evolves(old(md.State()), md.State())
      ensures r.Err? ==> md.images == old(md.images)
      ensures r.Ok? ==>
        var k := NulFrom(data, old(offset));
        && k + 9 <= |data|
        && md.images == old(md.images) + [Image(data[old(offset)..k], IntAt(data, k + 1), IntAt(data, k + 5))]
      ensures var st := ImageStep(data, old(offset), old(md.State()));
        (r.Ok? <==> st.Next?) && (r.Ok? ==> offset == st.offset && md.State() == st.state)
    {
      var name := ReadString();
      if name.Err? {
        return Err(EndOfFile);
      }
      var width := ReadInt();
      if width.Err? {
        return Err(EndOfFile);
      }
      var height := ReadInt();
      if height.Err? {
        return Err(EndOfFile);
      }
      SkipBytes(width.value * height.value * 4);
      md.images := md.images + [Image(name.value, width.value, height.value)];
      return Ok(());
    }

    /** `_parse_envelope_item`: the five integers of an envelope's header are recorded. */
    method ParseEnvelopeItem(md: MapData, size: int) returns (r: Result<(), ParseError>)
      requires Valid()
      modifies this, md
      ensures Valid() && data == old(data) && old(offset) <= offset
      ensures md.State() == old(md.State()).(envelopes := md.envelopes)
      ensures Evolves(old(md.State()), md.State())
      ensures r.Ok? <==> old(offset) + 20 <= |data|
      ensures r.Err? ==> md.envelopes == old(md.envelopes)
      ensures r.Ok? ==> md.envelopes == old(md.envelopes) + [Envelope(IntAt(data, old(offset)), IntAt(data, old(offset) + 4),
        IntAt(data, old(offset) + 8), IntAt(data, old(offset) + 12), IntAt(data, old(offset) + 16))]
      ensures var st := EnvelopeStep(data, old(offset), old(md.State()));
        (r.Ok? <==> st.Next?) && (r.Ok? ==> offset == st.offset && md.State() == st.state)
    {
      var numPoints := ReadInt();
      if numPoints.Err? { return Err(EndOfFile); }
      var channels := ReadInt();
      if channels.Err? { return Err(EndOfFile); }
      var sustainPoint := ReadInt();
      if sustainPoint.Err? { return Err(EndOfFile); }
      var loopStart := ReadInt();
      if loopStart.Err? { return Err(EndOfFile); }
      var inverted := ReadInt();
      if inverted.Err? { return Err(EndOfFile); }
      md.envelopes := md.envelopes + [Envelope(numPoints.value, channels.value, sustainPoint.value, loopStart.value, inverted.value)];
      return Ok(());
    }

    /**
     * `_parse_info_item`: strings are read until `size` bytes are consumed
     * or the data runs out; the first non-empty one becomes the author and
     * the next non-empty one the name, and the rest are ignored.
     */
    method ParseInfoItem(md: MapData, size: int)
      requires Valid()
      modifies this, md
      ensures Valid() && data == old(data) && old(offset) <= offset
      ensures md.State() == old(md.State()).(author := md.author, name := md.name)
      ensures Evolves(old(md.State()), md.State())
      ensures (offset, md.author, md.name) == InfoStrings(data, old(offset), old(offset) + size, old(md.author), old(md.name))
    {
      var start := offset;
      var author, name := md.author, md.name;
      while offset < start + size
        modifies this
        invariant Valid() && data == old(data) && old(offset) <= offset
        invariant InfoStrings(data, offset, start + size, author, name)
               == InfoStrings(data, start, start + size, old(md.author), old(md.name))
        decreases |data| - offset
      {
        var s := ReadString();
        if s.Err? {
          assert InfoStrings(data, offset, start + size, author, name) == (offset, author, name);
          break;
        }
        if author == [] {
          author := s.value;
        } else if name == [] {
          name := s.value;
        }
      }
      md.author, md.name := author, name;
      InfoStringsKeep(data, start, start + size, old(md.author), old(md.name));
    }

    /**
     * One round of `_parse_items`: an item's type and size, then the part
     * the type calls for; types 0 and 6 and unknown types are skipped by
     * their size.
     */
    method ParseItem(md: MapData) returns (r: Result<(), ParseError>)
      requires Valid()
      modifies this, md
      ensures Valid() && data == old(data)
      ensures Evolves(old(md.State()), md.State())
      ensures r.Ok? ==> old(offset) + 8 <= offset
      ensures var st := ItemStep(data, old(offset), old(md.State()));
        (r.Ok? <==> st.Next?) && (r.Ok? ==> offset == st.offset && md.State() == st.state)
      ensures r.Err? ==> md.State() == old(md.State())
    {
      var itemType := ReadInt();
      if itemType.Err? {
        return Err(EndOfFile);
      }
      var itemSize := ReadInt();
      if itemSize.Err? {
        return Err(EndOfFile);
      }
      var size := itemSize.value;
      r := Ok(());
      if itemType.value == 1 {
        ParseInfoItem(md, size);
      } else if itemType.value == 2 {
        r := ParseImageItem(md, size);
      } else if itemType.value == 3 {
        r := ParseEnvelopeItem(md, size);
      } else if itemType.value == 4 {
        r := ParseGroupItem(md, size);
      } else if itemType.value == 5 {
        r := ParseLayerItem(md, size);
      } else {
        SkipBytes(size);
      }
    }

    /** `_parse_items`: items are parsed until the data is used up or one of them runs out of data. */
    method ParseItems(md: MapData)
      requires Valid()
      modifies this, md
      ensures Valid() && data == old(data)
      ensures Evolves(old(md.State()), md.State())
      ensures md.State() == ItemsFrom(data, old(offset), old(md.State()))
    {
      while offset < |data|
        invariant Valid() && data == old(data)
        invariant Evolves(old(md.State()), md.State())
        invariant ItemsFrom(data, offset, md.State()) == ItemsFrom(data, old(offset), old(md.State()))
        decreases |data| - offset
      {
        ghost var before := md.State();
        var r := ParseItem(md);
        EvolvesTransitive(old(md.State()), before, md.State());
        if r.Err? {
          break;
        }
      }
    }

    /**
     * `parse`: the version is the first integer; without it the file is
     * rejected, otherwise a record with that version is filled by the items
     * that follow.
     */
    method Parse(content: seq<byte>) returns (r: Option<MapData>)
      modifies this
      ensures Valid() && data == content
      ensures r.None? <==> |content| < 4
      ensures r.Some? ==> fresh(r.value) && r.value.version == IntAt(content, 0) && r.value.entities == []
      ensures r.Some? ==> (r.value.name != [] ==> r.value.author != [])
      ensures r.None? <==> Parsed(content).None?
      ensures r.Some? ==> r.value.State() == Parsed(content).value
    {
      data, offset := content, 0;
      var version := ReadInt();
      if version.Err? {
        return None;
      }
      var md := new MapData(version.value);
      ParseItems(md);
      return Some(md);
    }
  }
}

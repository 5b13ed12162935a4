/**
 The per-pixel oracle for a scanline: background and window from tile maps, and the object pixel that wins among the
 first ten objects on the line.
 */
module SpatialOracle {
  import opened Arithmetic
  import opened Bits
  import opened Wrappers
  import opened Ppu

  const VRAM_BASE := 0x8000
  const VRAM_SIZE := 0x2000
  const OAM_SIZE := 0xA0
  const OBJECTS := 40
  const OBJECTS_PER_LINE := 10

  datatype Snapshot = Snapshot(ly: int, regs: PpuRegs, vram: seq<byte>, oam: seq<byte>,
                               wyTriggered: bool, windowLineCounter: int)

  datatype OracleError = WrongLine | BadShape | VramAddress(addr: int)

  datatype PixelSource = Background | Window | Object

  datatype LayerSample = LayerSample(source: PixelSource, colorIdx: int, shade: int, tileId: int,
                                     mapX: int, mapY: int, tileX: int, tileY: int)

  datatype ObjPixelSample = ObjPixelSample(spriteIndex: int, x: int, y: int, tileId: int, colorIdx: int, shade: int,
                                           palette: int, bgOverObj: bool, xFlip: bool, yFlip: bool)

  datatype PixelResult = PixelResult(x: int, y: int, shade: int, source: PixelSource, bg: LayerSample,
                                     window: Option<LayerSample>, effectiveBg: LayerSample, obj: Option<ObjPixelSample>)

  predicate Shaped(s: Snapshot) {
    |s.vram| == VRAM_SIZE && |s.oam| == OAM_SIZE
  }

  // ---- video memory ----

  function PaletteLookup(colorIdx: int, palette: int): (shade: int)
    ensures 0 <= shade < 4
  {
    match colorIdx % 4
    case 0 => palette % 4
    case 1 => palette / 4 % 4
    case 2 => palette / 16 % 4
    case _ => palette / 64 % 4
  }

  /** A palette is four two-bit shades, colour 0's lowest. */
  lemma {:induction false} PaletteIsFourShades(colorIdx: nat, palette: nat)
    requires colorIdx < 4
    ensures PaletteLookup(colorIdx, palette) ==
            2 * AsBit(BitOf(palette, 2 * colorIdx + 1)) + AsBit(BitOf(palette, 2 * colorIdx))
    decreases colorIdx
  {
    if colorIdx == 0 {
      LowTwoBits(palette);
    } else {
      PaletteIsFourShades(colorIdx - 1, palette / 4);
      NextShade(colorIdx, palette);
      BitsOfQuarter(palette, 2 * colorIdx - 2);
      BitsOfQuarter(palette, 2 * colorIdx - 1);
    }
  }

  lemma LowTwoBits(value: nat)
    ensures value % 4 == 2 * AsBit(BitOf(value, 1)) + AsBit(BitOf(value, 0))
  {
    var half := value / 2;
    Divides(value, 4, half / 2, 2 * (half % 2) + value % 2);
    assert BitOf(value, 1) == BitOf(half, 0);
  }

  lemma NextShade(colorIdx: nat, palette: nat)
    requires 0 < colorIdx < 4
    ensures PaletteLookup(colorIdx, palette) == PaletteLookup(colorIdx - 1, palette / 4)
  {
    assert palette / 16 == palette / 4 / 4 && palette / 64 == palette / 4 / 16;
  }

  lemma BitsOfQuarter(value: nat, k: nat)
    ensures BitOf(value, k + 2) == BitOf(value / 4, k)
  {
    assert BitOf(value, k + 2) == BitOf(value / 2, k + 1) == BitOf(value / 2 / 2, k);
    assert value / 2 / 2 == value / 4;
  }

  function VramRead(s: Snapshot, addr: int): (r: Result<byte, OracleError>)
    requires Shaped(s)
    ensures r.Success? <==> VRAM_BASE <= addr < VRAM_BASE + VRAM_SIZE
  {
    if VRAM_BASE <= addr < VRAM_BASE + VRAM_SIZE then Success(s.vram[addr - VRAM_BASE]) else Failure(VramAddress(addr))
  }

  /** Two bits of colour, the high one from the high byte. */
  function PixelColor(lo: byte, hi: byte, bit: nat): (color: int)
    ensures 0 <= color < 4
  {
    2 * AsBit(BitOf(hi, bit)) + AsBit(BitOf(lo, bit))
  }

  /** The eight pixels of a row, leftmost from the highest bits. */
  function DecodeTileRow(lo: byte, hi: byte): (row: seq<int>)
    ensures |row| == 8
  {
    seq(8, i requires 0 <= i < 8 => PixelColor(lo, hi, 7 - i))
  }

  function TileRowFromAddr(s: Snapshot, addr: int): Result<seq<int>, OracleError>
    requires Shaped(s)
  {
    match VramRead(s, addr)
    case Failure(e) => Failure(e)
    case Success(lo) =>
      match VramRead(s, addr + 1)
      case Failure(e) => Failure(e)
      case Success(hi) => Success(DecodeTileRow(lo, hi))
  }

  function BgwinTileAddr(lcdc: Lcdc, tileId: int, row: int): int {
    var rowOffset := row % 8 * 2;
    var tile := tileId % 256;
    if lcdc.bgwinDataHi then 0x8000 + tile * 16 + rowOffset
    else if tile >= 0x80 then 0x8800 + (tile - 0x80) * 16 + rowOffset
    else 0x9000 + tile * 16 + rowOffset
  }

  function ObjTileAddr(tall: bool, tileId: int, row: int, yFlip: bool): int {
    var height := if tall then 16 else 8;
    var effectiveRow := if yFlip then height - 1 - row else row;
    var baseTile := if tall then tileId % 256 - tileId % 2 else tileId % 256;
    var tileIndex := baseTile + AsBit(tall && effectiveRow >= 8);
    0x8000 + tileIndex * 16 + effectiveRow % 8 * 2
  }

  /** Tile numbers are signed around 0x9000 in one mode and unsigned from 0x8000 in the other; the two modes share
      exactly the tiles numbered 0x80 and up. */
  lemma BgwinTileAddrModes(lcdc: Lcdc, tileId: int, row: int)
    ensures var addr := BgwinTileAddr(lcdc, tileId, row);
            && VRAM_BASE <= addr && addr + 1 < 0x9800
            && (!lcdc.bgwinDataHi ==>
                  addr == 0x9000 + 16 * (if tileId % 256 < 128 then tileId % 256 else tileId % 256 - 256) + row % 8 * 2)
    ensures BgwinTileAddr(lcdc.(bgwinDataHi := true), tileId, row) ==
             BgwinTileAddr(lcdc.(bgwinDataHi := false), tileId, row)
            <==> tileId % 256 >= 128
  {
  }

  /** An object's rows lie one after another in the lower half of tile memory, from its (for tall objects: even) tile
      on. */
  lemma ObjRowsAreConsecutive(tall: bool, tileId: byte, row: int, yFlip: bool)
    requires 0 <= row < if tall then 16 else 8
    ensures var first := if tall then tileId - tileId % 2 else tileId;
            var drawn := if yFlip then (if tall then 15 else 7) - row else row;
            var addr := ObjTileAddr(tall, tileId, row, yFlip);
            addr == VRAM_BASE + 16 * first + 2 * drawn && addr + 1 < 0x9000
  {
    var drawn := if yFlip then (if tall then 15 else 7) - row else row;
    assert drawn == if drawn >= 8 then drawn % 8 + 8 else drawn % 8;
  }

  // ---- background and window ----

  /** The sample of a layer at a position on its map. */
  function LayerAt(source: PixelSource, high: bool, x: int, y: int, s: Snapshot): Result<LayerSample, OracleError>
    requires Shaped(s)
  {
    var mapX, mapY, tileX, tileY := x / 8 % 32, y / 8 % 32, x % 8, y % 8;
    match VramRead(s, (if high then 0x9C00 else 0x9800) + mapY * 32 + mapX)
    case Failure(e) => Failure(e)
    case Success(tileId) =>
      match TileRowFromAddr(s, BgwinTileAddr(s.regs.lcdc, tileId, tileY))
      case Failure(e) => Failure(e)
      case Success(row) =>
        Success(LayerSample(source, row[tileX], PaletteLookup(row[tileX], s.regs.bgp), tileId,
                            mapX, mapY, tileX, tileY))
  }

  function BgSample(x: int, s: Snapshot): Result<LayerSample, OracleError>
    requires Shaped(s)
  {
    LayerAt(Background, s.regs.lcdc.bgMapHi, (s.regs.scx + x) % 256, (s.regs.scy + s.ly) % 256, s)
  }

  function WindowSample(x: int, s: Snapshot): Result<Option<LayerSample>, OracleError>
    requires Shaped(s)
  {
    var originX := s.regs.wx - 7;
    if !s.regs.lcdc.winEnable || !s.wyTriggered || x < originX then Success(None)
    else
      match LayerAt(Window, s.regs.lcdc.winMapHi, x - originX, s.windowLineCounter, s)
      case Failure(e) => Failure(e)
      case Success(sample) => Success(Some(sample))
  }

  /** Where a tile's first row stands in video memory. */
  function TileStart(lcdc: Lcdc, tileId: byte): int {
    if lcdc.bgwinDataHi then 16 * tileId else 0x1000 + 16 * (if tileId < 128 then tileId else tileId - 256)
  }

  /** The two bits of a pixel, counted from the right end of its row, as quotients of the row's two bytes. */
  lemma ColorIs(lo: byte, hi: byte, bit: nat)
    ensures PixelColor(lo, hi, bit) == 2 * (hi / Pow2(bit) % 2) + lo / Pow2(bit) % 2
  {
    BitFrom(hi, bit, Pow2(bit));
    BitFrom(lo, bit, Pow2(bit));
  }

  /** What a layer shows at a place of its map: the pixel of the tile the map names there. */
  predicate ShowsTile(sample: LayerSample, source: PixelSource, high: bool, x: int, y: int, s: Snapshot)
    requires Shaped(s)
  {
    var tile := s.vram[(if high then 0x1C00 else 0x1800) + 32 * (y / 8 % 32) + x / 8 % 32];
    var row := TileStart(s.regs.lcdc, tile) + 2 * (y % 8);
    && 0 <= row < 0x17FF
    && sample.source == source && sample.tileId == tile
    && sample.mapX == x / 8 % 32 && sample.mapY == y / 8 % 32 && sample.tileX == x % 8 && sample.tileY == y % 8
    && sample.colorIdx == PixelColor(s.vram[row], s.vram[row + 1], 7 - x % 8)
    && sample.shade == PaletteLookup(sample.colorIdx, s.regs.bgp)
  }

  /** A layer shows, at each place, the pixel of the tile its map names there; no sample reads outside video memory. */
  lemma LayerShowsMapTile(source: PixelSource, high: bool, x: int, y: int, s: Snapshot)
    requires Shaped(s)
    ensures var r := LayerAt(source, high, x, y, s); r.Success? && ShowsTile(r.value, source, high, x, y, s)
  {
    var tile := s.vram[(if high then 0x1C00 else 0x1800) + 32 * (y / 8 % 32) + x / 8 % 32];
    TileRowStands(s.regs.lcdc, tile, y % 8);
  }

  /** The background shows its map from the scroll position on. */
  lemma BackgroundShows(x: int, s: Snapshot)
    requires Shaped(s)
    ensures var r := BgSample(x, s);
            r.Success? && ShowsTile(r.value, Background, s.regs.lcdc.bgMapHi, s.regs.scx + x, s.regs.scy + s.ly, s)
  {
    LayerIsTorus(Background, s.regs.lcdc.bgMapHi, s.regs.scx + x, s.regs.scy + s.ly, s);
    LayerShowsMapTile(Background, s.regs.lcdc.bgMapHi, s.regs.scx + x, s.regs.scy + s.ly, s);
  }

  /** The window shows from seven left of WX on, if it is on and its line has come, and shows its map from the left edge
      and its own line counter on. */
  lemma WindowShows(x: int, s: Snapshot)
    requires Shaped(s)
    ensures var r := WindowSample(x, s);
            && r.Success?
            && (r.value.Some? <==> s.regs.lcdc.winEnable && s.wyTriggered && x + 7 >= s.regs.wx)
            && (r.value.Some? ==>
                  ShowsTile(r.value.value, Window, s.regs.lcdc.winMapHi, x + 7 - s.regs.wx, s.windowLineCounter, s))
  {
    LayerShowsMapTile(Window, s.regs.lcdc.winMapHi, x + 7 - s.regs.wx, s.windowLineCounter, s);
  }

  lemma TileRowStands(lcdc: Lcdc, tile: byte, row: nat)
    requires row < 8
    ensures BgwinTileAddr(lcdc, tile, row) == VRAM_BASE + TileStart(lcdc, tile) + 2 * row
    ensures 0 <= TileStart(lcdc, tile) + 2 * row < 0x17FF
  {
    BgwinTileAddrModes(lcdc, tile, row);
  }

  lemma LayerStaysInVram(source: PixelSource, high: bool, x: int, y: int, s: Snapshot)
    requires Shaped(s)
    ensures var r := LayerAt(source, high, x, y, s);
            r.Success? && r.value.source == source && 0 <= r.value.colorIdx < 4 && 0 <= r.value.shade < 4
  {
    LayerShowsMapTile(source, high, x, y, s);
  }

  lemma WrapsAt256(x: int)
    ensures x % 256 / 8 % 32 == x / 8 % 32 && x % 256 % 8 == x % 8
  {
    var low, tile, turns := x % 8, x / 8 % 32, x / 8 / 32;
    assert x == low + 8 * (tile + 32 * turns);
    Divides(x, 256, turns, low + 8 * tile);
    Divides(low + 8 * tile, 8, tile, low);
  }

  /** A layer's map is a torus 256 pixels a side. */
  lemma LayerIsTorus(source: PixelSource, high: bool, x: int, y: int, s: Snapshot)
    requires Shaped(s)
    ensures LayerAt(source, high, x, y, s) == LayerAt(source, high, x % 256, y % 256, s)
  {
    WrapsAt256(x);
    WrapsAt256(y);
  }

  /** Scrolling is moving the viewpoint: scrolling by some pixels, round the torus, shows at each place what was that
      many pixels further right and down. */
  lemma ScrollingMovesViewpoint(x: int, dx: int, dy: int, s: Snapshot)
    requires Shaped(s)
    ensures var scrolled := s.(regs := s.regs.(scx := (s.regs.scx + dx) % 256, scy := (s.regs.scy + dy) % 256));
            BgSample(x, scrolled) == BgSample(x + dx, s.(ly := s.ly + dy))
  {
    ScrolledBy(s.regs.scx, dx, x);
    ScrolledBy(s.regs.scy, dy, s.ly);
  }

  lemma ScrolledBy(scroll: int, d: int, place: int)
    ensures ((scroll + d) % 256 + place) % 256 == (scroll + (place + d)) % 256
  {
    AddMod(scroll + d, place, 256);
    assert (scroll + d) + place == scroll + (place + d);
  }

  // ---- objects ----

  datatype Entry = Entry(index: int, y: int, x: int, tile: byte, flags: byte)

  function EntryAt(s: Snapshot, i: nat): Entry
    requires Shaped(s) && i < OBJECTS
  {
    Entry(i, s.oam[4 * i], s.oam[4 * i + 1], s.oam[4 * i + 2], s.oam[4 * i + 3])
  }

  function Height(s: Snapshot): int {
    if s.regs.lcdc.objSize8x16 then 16 else 8
  }

  predicate Hits(s: Snapshot, i: nat)
    requires Shaped(s) && i < OBJECTS
  {
    EntryAt(s, i).y <= s.ly + 16 < EntryAt(s, i).y + Height(s)
  }

  function HitsBelow(s: Snapshot, n: nat): nat
    requires Shaped(s) && n <= OBJECTS
  {
    if n == 0 then 0 else HitsBelow(s, n - 1) + AsBit(Hits(s, n - 1))
  }

  /** Among the first ten of the line. */
  predicate OnLine(s: Snapshot, i: nat)
    requires Shaped(s) && i < OBJECTS
  {
    Hits(s, i) && HitsBelow(s, i) < OBJECTS_PER_LINE
  }

  /** An entry as memory holds it, of an on-line object below a bound. */
  predicate OnLineEntry(s: Snapshot, e: Entry, n: nat)
    requires Shaped(s) && n <= OBJECTS
  {
    0 <= e.index < n && e == EntryAt(s, e.index) && OnLine(s, e.index)
  }

  predicate InMemoryOrder(selected: seq<Entry>) {
    forall k, m :: 0 <= k < m < |selected| ==> selected[k].index < selected[m].index
  }

  /** A list of entries, in memory order, that holds exactly the on-line ones below a bound. */
  ghost predicate HoldsLine(s: Snapshot, selected: seq<Entry>, n: nat)
    requires Shaped(s) && n <= OBJECTS
  {
    && InMemoryOrder(selected)
    && (forall e :: e in selected ==> OnLineEntry(s, e, n))
    && (forall i :: 0 <= i < n && OnLine(s, i) ==> EntryAt(s, i) in selected)
  }

  /** The first ten hits below a bound. */
  function LineBelow(s: Snapshot, n: nat): seq<Entry>
    requires Shaped(s) && n <= OBJECTS
  {
    if n == 0 then []
    else
      var before := LineBelow(s, n - 1);
      if Hits(s, n - 1) && |before| < OBJECTS_PER_LINE then before + [EntryAt(s, n - 1)] else before
  }

  method SelectedLineSprites(s: Snapshot) returns (selected: seq<Entry>)
    requires Shaped(s)
    ensures HoldsLine(s, selected, OBJECTS)
    ensures |selected| == if HitsBelow(s, OBJECTS) < OBJECTS_PER_LINE then HitsBelow(s, OBJECTS) else OBJECTS_PER_LINE
  {
    selected := ScanObjects(s);
    ghost var line := LineHolds(s, OBJECTS);
  }

  method ScanObjects(s: Snapshot) returns (selected: seq<Entry>)
    requires Shaped(s)
    ensures selected == LineBelow(s, OBJECTS)
  {
    selected := [];
    var spriteHeight := if s.regs.lcdc.objSize8x16 then 16 else 8;
    var scanline := s.ly + 16;
    var i: nat := 0;
    while i < OBJECTS
      invariant i <= OBJECTS
      invariant selected == LineBelow(s, i) && |selected| < OBJECTS_PER_LINE
    {
      var base := i * 4;
      var yPos, xPos := s.oam[base], s.oam[base + 1];
      LineStep(s, i, selected, Entry(i, yPos, xPos, s.oam[base + 2], s.oam[base + 3]));
      if yPos <= scanline < yPos + spriteHeight {
        selected := selected + [Entry(i, yPos, xPos, s.oam[base + 2], s.oam[base + 3])];
        if |selected| == OBJECTS_PER_LINE {
          FullLineStays(s, i + 1, OBJECTS);
          return;
        }
      }
      i := i + 1;
    }
  }

  lemma LineStep(s: Snapshot, i: nat, before: seq<Entry>, e: Entry)
    requires Shaped(s) && i < OBJECTS && before == LineBelow(s, i) && |before| < OBJECTS_PER_LINE
    requires e == EntryAt(s, i)
    ensures LineBelow(s, i + 1) == if e.y <= s.ly + 16 < e.y + Height(s) then before + [e] else before
  {
  }

  lemma {:induction false} FullLineStays(s: Snapshot, m: nat, n: nat)
    requires Shaped(s) && m <= n <= OBJECTS && |LineBelow(s, m)| == OBJECTS_PER_LINE
    ensures LineBelow(s, n) == LineBelow(s, m)
  {
    if m < n {
      FullLineStays(s, m, n - 1);
    }
  }

  /** The scan holds, in memory order, exactly the objects that hit the line with fewer than ten hits before them. */
  lemma {:induction false} LineHolds(s: Snapshot, n: nat) returns (line: seq<Entry>)
    requires Shaped(s) && n <= OBJECTS
    ensures line == LineBelow(s, n) && HoldsLine(s, line, n)
    ensures |line| == if HitsBelow(s, n) < OBJECTS_PER_LINE then HitsBelow(s, n) else OBJECTS_PER_LINE
    decreases n
  {
    if n == 0 {
      line := [];
    } else {
      var before := LineHolds(s, n - 1);
      line := if Hits(s, n - 1) && |before| < OBJECTS_PER_LINE then before + [EntryAt(s, n - 1)] else before;
      NextOnLine(s, before, line, n - 1);
    }
  }

  lemma NextOnLine(s: Snapshot, before: seq<Entry>, next: seq<Entry>, i: nat)
    requires Shaped(s) && i < OBJECTS && HoldsLine(s, before, i)
    requires next == if OnLine(s, i) then before + [EntryAt(s, i)] else before
    ensures HoldsLine(s, next, i + 1)
  {
    if OnLine(s, i) {
      forall k | 0 <= k < |before|
        ensures before[k].index < i
      {
        assert before[k] in before;
      }
    }
    forall e | e in next
      ensures OnLineEntry(s, e, i + 1)
    {
      assert e in before ==> OnLineEntry(s, e, i);
    }
    forall j | 0 <= j < i + 1 && OnLine(s, j)
      ensures EntryAt(s, j) in next
    {
      if j < i {
        assert EntryAt(s, j) in before;
      }
    }
  }

  predicate Covers(e: Entry, x: int) {
    e.x - 8 <= x < e.x
  }

  /** The colour of an object's own picture, unflipped, `row` from its top and `col` from its left. */
  function Picture(s: Snapshot, tile: byte, row: nat, col: nat): int
    requires Shaped(s) && row < Height(s) && col < 8
  {
    var first := if s.regs.lcdc.objSize8x16 then tile - tile % 2 else tile;
    PixelColor(s.vram[16 * first + 2 * row], s.vram[16 * first + 2 * row + 1], 7 - col)
  }

  /** What an object shows at a place it covers: its picture, mirrored as its flags say. */
  function ObjectColor(s: Snapshot, i: nat, x: int): int
    requires Shaped(s) && i < OBJECTS && Hits(s, i) && Covers(EntryAt(s, i), x)
  {
    var e := EntryAt(s, i);
    var row, col := s.ly + 16 - e.y, x + 8 - e.x;
    Picture(s, e.tile, if BitOf(e.flags, 6) then Height(s) - 1 - row else row,
            if BitOf(e.flags, 5) then 7 - col else col)
  }

  function SampleOf(s: Snapshot, i: nat, x: int): ObjPixelSample
    requires Shaped(s) && i < OBJECTS && Hits(s, i) && Covers(EntryAt(s, i), x)
  {
    var e, color := EntryAt(s, i), ObjectColor(s, i, x);
    var palette := if BitOf(e.flags, 4) then s.regs.obp1 else s.regs.obp0;
    ObjPixelSample(i, e.x - 8, e.y - 16, if s.regs.lcdc.objSize8x16 then e.tile - e.tile % 2 else e.tile, color,
                   PaletteLookup(color, palette), palette, BitOf(e.flags, 7), BitOf(e.flags, 5), BitOf(e.flags, 6))
  }

  /** An opaque object pixel at a place. */
  predicate Candidate(s: Snapshot, i: int, x: int)
    requires Shaped(s)
  {
    0 <= i < OBJECTS && OnLine(s, i) && Covers(EntryAt(s, i), x) && ObjectColor(s, i, x) != 0
  }

  /** Leftmost first, then lowest in memory. */
  predicate Before(a: Entry, b: Entry) {
    a.x < b.x || (a.x == b.x && a.index <= b.index)
  }

  /** The right answer at a place: nothing when there is no opaque pixel, else the sample of the first by priority. */
  ghost predicate Wins(s: Snapshot, x: int, winner: Option<ObjPixelSample>)
    requires Shaped(s)
  {
    match winner
    case None => !s.regs.lcdc.objEnable || forall i :: 0 <= i < OBJECTS ==> !Candidate(s, i, x)
    case Some(sample) =>
      var w := sample.spriteIndex;
      && s.regs.lcdc.objEnable && Candidate(s, w, x) && sample == SampleOf(s, w, x)
      && forall i :: 0 <= i < OBJECTS && Candidate(s, i, x) ==> Before(EntryAt(s, w), EntryAt(s, i))
  }

  lemma WinnerIsUnique(s: Snapshot, x: int, a: Option<ObjPixelSample>, b: Option<ObjPixelSample>)
    requires Shaped(s) && Wins(s, x, a) && Wins(s, x, b)
    ensures a == b
  {
  }

  /** The row an object's tile address leads to is that row of its picture. */
  lemma DecodedRow(s: Snapshot, tile: byte, row: nat, yFlip: bool, decoded: Result<seq<int>, OracleError>)
    requires Shaped(s) && row < Height(s)
    requires decoded == TileRowFromAddr(s, ObjTileAddr(s.regs.lcdc.objSize8x16, tile, row, yFlip))
    ensures decoded.Success? && |decoded.value| == 8
    ensures forall col :: 0 <= col < 8 ==>
              decoded.value[col] == Picture(s, tile, if yFlip then Height(s) - 1 - row else row, col)
  {
    ObjRowsAreConsecutive(s.regs.lcdc.objSize8x16, tile, row, yFlip);
  }

  /** An entry's sample, read off its four bytes of object memory. */
  lemma SampleSays(s: Snapshot, i: nat, x: int)
    requires Shaped(s) && i < OBJECTS && Hits(s, i) && Covers(EntryAt(s, i), x)
    ensures var p := SampleOf(s, i, x);
            var y, right, tile, flags := s.oam[4 * i], s.oam[4 * i + 1], s.oam[4 * i + 2], s.oam[4 * i + 3];
            var tall := s.regs.lcdc.objSize8x16;
            var row, col := s.ly + 16 - y, x + 8 - right;
            && p.spriteIndex == i && p.x + 8 == right && p.y + 16 == y
            && p.tileId == (if tall then tile - tile % 2 else tile)
            && p.palette == (if flags / 16 % 2 == 1 then s.regs.obp1 else s.regs.obp0)
            && (p.xFlip <==> flags / 32 % 2 == 1) && (p.yFlip <==> flags / 64 % 2 == 1)
            && (p.bgOverObj <==> flags / 128 % 2 == 1)
            && 0 <= row < (if tall then 16 else 8) && 0 <= col < 8
            && p.colorIdx == Picture(s, tile, if p.yFlip then (if tall then 15 else 7) - row else row,
                                     if p.xFlip then 7 - col else col)
            && p.shade == PaletteLookup(p.colorIdx, p.palette)
  {
    ByteBits(s.oam[4 * i + 3]);
  }

  /** Whether an entry hits the line, read off object memory. */
  predicate OnLineBytes(s: Snapshot, i: nat)
    requires Shaped(s) && i < OBJECTS
  {
    0 <= s.ly + 16 - s.oam[4 * i] < if s.regs.lcdc.objSize8x16 then 16 else 8
  }

  /** The objects on a line: they hit it, and fewer than ten before them do. */
  lemma OnLineIff(s: Snapshot, i: nat)
    requires Shaped(s) && i < 40
    ensures OnLine(s, i) <==> OnLineBytes(s, i) && |set j: nat | j < i && OnLineBytes(s, j)| < 10
  {
    HitsAreCounted(s, i);
  }

  lemma {:induction false} HitsAreCounted(s: Snapshot, n: nat)
    requires Shaped(s) && n <= 40
    ensures HitsBelow(s, n) == |set j: nat | j < n && OnLineBytes(s, j)|
  {
    if n > 0 {
      HitsAreCounted(s, n - 1);
      OneMoreHit(s, n - 1, set j: nat | j < n - 1 && OnLineBytes(s, j), set j: nat | j < n && OnLineBytes(s, j));
    }
  }

  lemma OneMoreHit(s: Snapshot, n: nat, before: set<nat>, all: set<nat>)
    requires Shaped(s) && n < 40 && before == (set j: nat | j < n && OnLineBytes(s, j))
    requires all == (set j: nat | j < n + 1 && OnLineBytes(s, j))
    ensures |all| == |before| + if OnLineBytes(s, n) then 1 else 0
  {
    if OnLineBytes(s, n) {
      assert all == before + {n};
    } else {
      assert all == before;
    }
  }

  /** An opaque object pixel, read off object memory. */
  lemma CandidateIff(s: Snapshot, x: int, i: nat)
    requires Shaped(s) && i < 40
    ensures Candidate(s, i, x) <==>
            OnLine(s, i) && 0 <= x + 8 - s.oam[4 * i + 1] < 8 && SampleOf(s, i, x).colorIdx != 0
  {
  }

  /** The winner at a place: none if objects are off or none is opaque there, else the one furthest left, and of these
      the first in memory. */
  lemma WinnerIs(s: Snapshot, x: int, i: nat, winner: Option<ObjPixelSample>)
    requires Shaped(s) && i < 40 && winner == Winner(s, x)
    ensures winner.Some? ==>
              var w := winner.value.spriteIndex;
              s.regs.lcdc.objEnable && 0 <= w < 40 && Candidate(s, w, x) && winner.value == SampleOf(s, w, x)
    ensures s.regs.lcdc.objEnable && Candidate(s, i, x) ==>
              winner.Some? &&
              var w := winner.value;
              w.x + 8 < s.oam[4 * i + 1] || (w.x + 8 == s.oam[4 * i + 1] && w.spriteIndex <= i)
  {
    WinnerWins(s, x);
  }

  /** The first by priority among the opaque object pixels below a bound. */
  function BestObject(s: Snapshot, x: int, n: nat): (best: Option<nat>)
    requires Shaped(s) && n <= OBJECTS
    ensures best.Some? ==> best.value < n && Candidate(s, best.value, x)
  {
    if n == 0 then None
    else
      var best := BestObject(s, x, n - 1);
      if Candidate(s, n - 1, x) && (best.None? || EntryAt(s, n - 1).x < EntryAt(s, best.value).x) then Some(n - 1)
      else best
  }

  lemma {:induction false} BestObjectIsFirst(s: Snapshot, x: int, n: nat)
    requires Shaped(s) && n <= OBJECTS
    ensures var best := BestObject(s, x, n);
            forall i :: 0 <= i < n && Candidate(s, i, x) ==>
              best.Some? && Before(EntryAt(s, best.value), EntryAt(s, i))
  {
    if n > 0 {
      BestObjectIsFirst(s, x, n - 1);
    }
  }

  function Winner(s: Snapshot, x: int): Option<ObjPixelSample>
    requires Shaped(s)
  {
    var best := BestObject(s, x, OBJECTS);
    if s.regs.lcdc.objEnable && best.Some? then Some(SampleOf(s, best.value, x)) else None
  }

  /** There is a right answer at every place, so it is the only one. */
  lemma WinnerWins(s: Snapshot, x: int)
    requires Shaped(s)
    ensures Wins(s, x, Winner(s, x))
  {
    BestObjectIsFirst(s, x, OBJECTS);
  }

  /** The colour the scan decodes, or none for an object that does not cover the place. */
  method DecodeObject(s: Snapshot, e: Entry, x: int) returns (r: Result<Option<ObjPixelSample>, OracleError>)
    requires Shaped(s) && 0 <= e.index < OBJECTS && e == EntryAt(s, e.index) && Hits(s, e.index)
    ensures r.Success?
    ensures r.value == if Covers(e, x) && ObjectColor(s, e.index, x) != 0 then Some(SampleOf(s, e.index, x)) else None
  {
    var spriteHeight := if s.regs.lcdc.objSize8x16 then 16 else 8;
    var spriteX, spriteY := e.x - 8, e.y - 16;
    if !(spriteX <= x < spriteX + 8) {
      return Success(None);
    }
    var row := s.ly - spriteY;
    if !(0 <= row < spriteHeight) {
      return Success(None);
    }
    var xFlip, yFlip := BitOf(e.flags, 5), BitOf(e.flags, 6);
    var tileAddr := ObjTileAddr(s.regs.lcdc.objSize8x16, e.tile, row, yFlip);
    var decoded := TileRowFromAddr(s, tileAddr);
    DecodedRow(s, e.tile, row, yFlip, decoded);
    if decoded.Failure? {
      assert false;
    }
    var rowPixels, col := decoded.value, x - spriteX;
    var colorIdx := if xFlip then rowPixels[7 - col] else rowPixels[col];
    assert colorIdx == ObjectColor(s, e.index, x);
    if colorIdx == 0 {
      return Success(None);
    }
    var palette := if BitOf(e.flags, 4) then s.regs.obp1 else s.regs.obp0;
    r := Success(Some(ObjPixelSample(e.index, spriteX, spriteY,
                                     if s.regs.lcdc.objSize8x16 then e.tile - e.tile % 2 else e.tile, colorIdx,
                                     PaletteLookup(colorIdx, palette), palette, BitOf(e.flags, 7), xFlip, yFlip)));
  }

  method ObjSample(x: int, s: Snapshot) returns (r: Result<Option<ObjPixelSample>, OracleError>)
    requires Shaped(s)
    ensures r.Success? && Wins(s, x, r.value)
  {
    if !s.regs.lcdc.objEnable {
      return Success(None);
    }
    var winner: Option<ObjPixelSample> := None;
    var winnerX, winnerIndex := 0, 0;
    var selected := SelectedLineSprites(s);
    for k := 0 to |selected|
      invariant BestBelow(s, x, selected, k, winner)
      invariant winner.Some? ==> winner.value.spriteIndex == winnerIndex && EntryAt(s, winnerIndex).x == winnerX
    {
      var e := selected[k];
      assert e in selected && OnLineEntry(s, e, OBJECTS);
      var sample := DecodeObject(s, e, x);
      if sample.Failure? {
        return sample;
      }
      NextBest(s, x, selected, k, winner, sample.value);
      if sample.value.Some? {
        if winner.None? || e.x < winnerX || (e.x == winnerX && e.index < winnerIndex) {
          winner, winnerX, winnerIndex := sample.value, e.x, e.index;
        }
      }
    }
    WholeLineScanned(s, x, selected, winner);
    r := Success(winner);
  }

  /** The best by priority of the first `k` selected objects. */
  ghost predicate BestBelow(s: Snapshot, x: int, selected: seq<Entry>, k: nat, winner: Option<ObjPixelSample>)
    requires Shaped(s) && k <= |selected|
  {
    match winner
    case None => forall m :: 0 <= m < k ==> !Candidate(s, selected[m].index, x)
    case Some(sample) =>
      var w := sample.spriteIndex;
      && Candidate(s, w, x) && sample == SampleOf(s, w, x)
      && forall m :: 0 <= m < k && Candidate(s, selected[m].index, x) ==> Before(EntryAt(s, w), selected[m])
  }

  lemma NextBest(s: Snapshot, x: int, selected: seq<Entry>, k: nat, winner: Option<ObjPixelSample>,
      sample: Option<ObjPixelSample>)
    requires Shaped(s) && k < |selected| && BestBelow(s, x, selected, k, winner)
    requires var e := selected[k];
             OnLineEntry(s, e, OBJECTS) &&
             sample == if Candidate(s, e.index, x) then Some(SampleOf(s, e.index, x)) else None
    ensures var e := selected[k];
            var better := sample.Some? &&
              (winner.None? || (var w := EntryAt(s, winner.value.spriteIndex);
                                e.x < w.x || (e.x == w.x && e.index < w.index)));
            BestBelow(s, x, selected, k + 1, if better then sample else winner)
  {
  }

  /** The best of the selected objects is the best of all. */
  lemma WholeLineScanned(s: Snapshot, x: int, selected: seq<Entry>, winner: Option<ObjPixelSample>)
    requires Shaped(s) && s.regs.lcdc.objEnable && HoldsLine(s, selected, OBJECTS)
    requires BestBelow(s, x, selected, |selected|, winner)
    ensures Wins(s, x, winner)
  {
    forall i | 0 <= i < OBJECTS && Candidate(s, i, x)
      ensures winner.Some? && Before(EntryAt(s, winner.value.spriteIndex), EntryAt(s, i))
    {
      assert EntryAt(s, i) in selected;
      var m :| 0 <= m < |selected| && selected[m] == EntryAt(s, i);
      assert Candidate(s, selected[m].index, x);
    }
  }

  /** Flipping mirrors: where two objects differ in their flips only, one shows at each place what the other shows at
      the mirror place, left and right exchanged if the X flips differ, top and bottom if the Y flips do. */
  lemma FlipsMirror(s: Snapshot, t: Snapshot, i: nat, x: int)
    requires Shaped(s) && Shaped(t) && i < OBJECTS && Hits(s, i) && Covers(EntryAt(s, i), x)
    requires t.vram == s.vram && t.regs == s.regs
    requires var a, b := EntryAt(s, i), EntryAt(t, i);
             && (a.x, a.y, a.tile) == (b.x, b.y, b.tile)
             && t.ly == if BitOf(a.flags, 6) == BitOf(b.flags, 6) then s.ly else 2 * a.y + Height(s) - 33 - s.ly
    ensures var a, b := EntryAt(s, i), EntryAt(t, i);
            var place := if BitOf(a.flags, 5) == BitOf(b.flags, 5) then x else 2 * a.x - 9 - x;
            Hits(t, i) && Covers(b, place) && ObjectColor(s, i, x) == ObjectColor(t, i, place)
  {
  }

  // ---- the pixel ----

  method PixelShade(x: int, ly: int, s: Snapshot) returns (r: Result<PixelResult, OracleError>)
    ensures ly != s.ly ==> r == Failure(WrongLine)
    ensures ly == s.ly && (|s.vram| != 0x2000 || |s.oam| != 160) ==> r == Failure(BadShape)
    ensures ly == s.ly && |s.vram| == 0x2000 && |s.oam| == 160 ==> r == Success(Pixel(x, s)) && Composed(x, s, r.value)
  {
    if ly != s.ly {
      return Failure(WrongLine);
    }
    if |s.vram| != VRAM_SIZE || |s.oam| != OAM_SIZE {
      return Failure(BadShape);
    }
    LayersStayInVram(x, s);
    var bg, window := BgSample(x, s), WindowSample(x, s);
    var obj := ObjSample(x, s);
    WinnerWins(s, x);
    WinnerIsUnique(s, x, Winner(s, x), obj.value);
    match (bg, window, obj) {
      case (Failure(e), _, _) => r := Failure(e);
      case (_, Failure(e), _) => r := Failure(e);
      case (_, _, Failure(e)) => r := Failure(e);
      case (Success(b), Success(w), Success(o)) => r := Success(Compose(x, s, b, w, o));
    }
  }

  function Compose(x: int, s: Snapshot, bg: LayerSample, window: Option<LayerSample>,
      obj: Option<ObjPixelSample>): PixelResult {
    var effectiveBg := if window.Some? then window.value else bg;
    var bgEnabled := s.regs.lcdc.bgEnable;
    var bgBlocksObj := bgEnabled && effectiveBg.colorIdx != 0 && obj.Some? && obj.value.bgOverObj;
    if obj.Some? && !bgBlocksObj then PixelResult(x, s.ly, obj.value.shade, Object, bg, window, effectiveBg, obj)
    else PixelResult(x, s.ly, if bgEnabled then effectiveBg.shade else 0, effectiveBg.source,
                     bg, window, effectiveBg, obj)
  }

  /** The pixel of a snapshot at a place. */
  function Pixel(x: int, s: Snapshot): PixelResult
    requires Shaped(s)
  {
    LayersStayInVram(x, s);
    Compose(x, s, BgSample(x, s).value, WindowSample(x, s).value, Winner(s, x))
  }

  lemma LayersStayInVram(x: int, s: Snapshot)
    requires Shaped(s)
    ensures BgSample(x, s).Success? && WindowSample(x, s).Success?
    ensures 0 <= BgSample(x, s).value.shade < 4 && BgSample(x, s).value.source == Background
    ensures WindowSample(x, s).value.Some? ==>
              0 <= WindowSample(x, s).value.value.shade < 4 && WindowSample(x, s).value.value.source == Window
  {
    LayerStaysInVram(Background, s.regs.lcdc.bgMapHi, (s.regs.scx + x) % 256, (s.regs.scy + s.ly) % 256, s);
    LayerStaysInVram(Window, s.regs.lcdc.winMapHi, x - (s.regs.wx - 7), s.windowLineCounter, s);
  }

  /** A pixel composed right: the winning object shows unless it yields to a background that is on and not colour 0;
      otherwise the window over the background, or shade 0 with both off. */
  ghost predicate Composed(x: int, s: Snapshot, p: PixelResult)
    requires Shaped(s)
  {
    && (p.x, p.y) == (x, s.ly) && 0 <= p.shade < 4
    && Success(p.bg) == BgSample(x, s) && Success(p.window) == WindowSample(x, s)
    && p.effectiveBg == (if p.window.Some? then p.window.value else p.bg)
    && Wins(s, x, p.obj)
    && (p.source == Object <==>
        p.obj.Some? && (p.obj.value.bgOverObj ==> !s.regs.lcdc.bgEnable || p.effectiveBg.colorIdx == 0))
    && (p.source == Object ==> p.shade == p.obj.value.shade)
    && (p.source != Object ==>
          p.source == p.effectiveBg.source && p.shade == if s.regs.lcdc.bgEnable then p.effectiveBg.shade else 0)
  }
}

/**
 The ST7789 panel link: the generator of golden command transcripts, and the decoder
 that replays SPI bytes onto a panel image. Feeding any frame transcript to the
 decoder, whatever its state, paints exactly that frame.
 */
module St7789 {
  import opened Bits
  import opened Wrappers

  const PANEL_WIDTH := 320
  const PANEL_HEIGHT := 240
  const FRAME_WIDTH := 160
  const FRAME_HEIGHT := 144
  const FRAME_PIXELS := FRAME_WIDTH * FRAME_HEIGHT
  const WINDOW_X0 := 80
  const WINDOW_Y0 := 48
  const WINDOW_X1 := WINDOW_X0 + FRAME_WIDTH - 1
  const WINDOW_Y1 := WINDOW_Y0 + FRAME_HEIGHT - 1

  const CASET := 0x2A
  const RASET := 0x2B
  const RAMWR := 0x2C

  const TWO_64 := 0x1_0000_0000_0000_0000

  type word = x: int | 0 <= x < 0x1_0000

  /** The RGB565 colour of a 2-bit shade; the producer's and the consumer's tables are the same four values. */
  function Colour(shade: byte): word {
    if shade % 4 == 0 then 0xFFFF else if shade % 4 == 1 then 0xAD55 else if shade % 4 == 2 then 0x52AA else 0x0000
  }

  /** The grey level a captured frame stores for palette entry 0 to 3. */
  function Grey(index: nat): byte {
    if index == 0 then 0xFF else if index == 1 then 0xAA else if index == 2 then 0x55 else 0x00
  }

  // ---- transcripts ----

  /** One SPI byte; `dc` low marks a command. */
  datatype Entry = Entry(dc: bool, value: byte)

  datatype Window = Window(x0: int, x1: int, y0: int, y1: int)

  function WindowBounds(width: int, height: int, centered: bool): Result<Window, string> {
    if width <= 0 || height <= 0 then Failure("width and height must be positive")
    else if width > PANEL_WIDTH || height > PANEL_HEIGHT then Failure("frame exceeds ST7789 panel bounds")
    else
      var x0 := if centered then (PANEL_WIDTH - width) / 2 else 0;
      var y0 := if centered then (PANEL_HEIGHT - height) / 2 else 0;
      Success(Window(x0, x0 + width - 1, y0, y0 + height - 1))
  }

  function Hi(x: int): byte {
    x / 0x100 % 0x100
  }

  function Lo(x: int): byte {
    x % 0x100
  }

  function Range(command: byte, start: int, end: int): seq<Entry> {
    [Entry(false, command), Entry(true, Hi(start)), Entry(true, Lo(start)), Entry(true, Hi(end)), Entry(true, Lo(end))]
  }

  function Header(w: Window): seq<Entry> {
    Range(CASET, w.x0, w.x1) + Range(RASET, w.y0, w.y1) + [Entry(false, RAMWR)]
  }

  function Pixel(shade: byte): seq<Entry> {
    [Entry(true, Hi(Colour(shade))), Entry(true, Lo(Colour(shade)))]
  }

  function Pixels(frame: seq<byte>): seq<Entry> {
    if frame == [] then [] else Pixels(frame[..|frame| - 1]) + Pixel(frame[|frame| - 1])
  }

  /** The transcript, or the error the generator raises: the size is checked before the window. */
  function Transcript(frame: seq<byte>, width: int, height: int, centered: bool): Result<seq<Entry>, string> {
    if |frame| != width * height then Failure("frame size does not match the window")
    else
      match WindowBounds(width, height, centered)
      case Failure(e) => Failure(e)
      case Success(w) => Success(Header(w) + Pixels(frame))
  }

  method GenerateWindowedFrameTranscript(frame: seq<byte>, width: int, height: int, centered: bool)
    returns (r: Result<seq<Entry>, string>)
    ensures r == Transcript(frame, width, height, centered)
  {
    if |frame| != width * height {
      return Failure("frame size does not match the window");
    }
    var bounds := WindowBounds(width, height, centered);
    if bounds.Failure? {
      return Failure(bounds.error);
    }
    var transcript := Header(bounds.value);
    for index := 0 to |frame|
      invariant transcript == Header(bounds.value) + Pixels(frame[..index])
    {
      assert frame[..index + 1][..index] == frame[..index];
      transcript := transcript + Pixel(frame[index]);
    }
    assert frame[..|frame|] == frame;
    r := Success(transcript);
  }

  /** The four colours are the four greys, one 85 apart from the next, cut to five, six and five bits. */
  lemma ColourIsGrey(shade: byte)
    ensures Grey(shade % 4) == 85 * (3 - shade % 4)
    ensures Colour(shade) == Grey(shade % 4) / 8 * 2048 + Grey(shade % 4) / 4 * 32 + Grey(shade % 4) / 8
  {
  }

  /** A frame that fits gets a window of its size: in the corner, or with margins that differ by at most one. */
  lemma WindowIsPlaced(width: int, height: int, centered: bool)
    ensures WindowBounds(width, height, centered).Success? <==> 0 < width <= 320 && 0 < height <= 240
    ensures WindowBounds(width, height, centered).Success? ==>
              var w := WindowBounds(width, height, centered).value;
              && w.x1 - w.x0 + 1 == width && w.y1 - w.y0 + 1 == height
              && (centered ==> 0 <= (319 - w.x1) - w.x0 <= 1 && 0 <= (239 - w.y1) - w.y0 <= 1)
              && (!centered ==> w.x0 == 0 && w.y0 == 0)
  {
  }

  /** The bytes on the wire: two window commands with their bounds, the write command, then from byte 11 on two bytes
      for each pixel's colour, high bytes first. */
  lemma BytesOnTheWire(frame: seq<byte>, width: int, height: int, centered: bool, w: Window, t: seq<Entry>, k: nat,
      m: nat, colour: word)
    requires Transcript(frame, width, height, centered) == Success(t)
    requires WindowBounds(width, height, centered) == Success(w)
    requires k < |frame| && m == 11 + 2 * k && colour == Colour(frame[k])
    ensures |frame| == width * height && |t| == 11 + 2 * |frame|
    ensures t[0] == Entry(false, 0x2A) && t[5] == Entry(false, 0x2B) && t[10] == Entry(false, 0x2C)
    ensures WordAt(t, 1, w.x0) && WordAt(t, 3, w.x1) && WordAt(t, 6, w.y0) && WordAt(t, 8, w.y1)
    ensures WordAt(t, m, colour)
  {
    HeaderBytes(w, Header(w), Pixels(frame), t);
    PixelsLength(frame);
    PixelOnTheWire(frame, Header(w), t, k, 2 * k, m, colour);
  }

  lemma PixelOnTheWire(frame: seq<byte>, header: seq<Entry>, t: seq<Entry>, k: nat, i: nat, m: nat, colour: word)
    requires t == header + Pixels(frame) && |header| == 11 && k < |frame| && i == 2 * k && m == 11 + i
    requires colour == Colour(frame[k])
    ensures WordAt(t, m, colour)
  {
    PixelBytes(frame, k, i, colour);
    WordBehind(header, Pixels(frame), t, i, m, colour);
  }

  lemma HeaderBytes(w: Window, header: seq<Entry>, pixels: seq<Entry>, t: seq<Entry>)
    requires 0 <= w.x0 <= w.x1 < 320 && 0 <= w.y0 <= w.y1 < 240 && header == Header(w) && t == header + pixels
    ensures |header| == 11 && t[0] == Entry(false, 0x2A) && t[5] == Entry(false, 0x2B) && t[10] == Entry(false, 0x2C)
    ensures WordAt(t, 1, w.x0) && WordAt(t, 3, w.x1) && WordAt(t, 6, w.y0) && WordAt(t, 8, w.y1)
  {
    RangeBytes(CASET, w.x0, w.x1, Range(CASET, w.x0, w.x1));
    RangeBytes(RASET, w.y0, w.y1, Range(RASET, w.y0, w.y1));
    var x, y := Range(CASET, w.x0, w.x1), Range(RASET, w.y0, w.y1);
    assert t == x + (y + ([Entry(false, RAMWR)] + pixels));
  }

  lemma RangeBytes(command: byte, start: int, end: int, r: seq<Entry>)
    requires 0 <= start < 0x1_0000 && 0 <= end < 0x1_0000 && r == Range(command, start, end)
    ensures |r| == 5 && r[0] == Entry(false, command) && WordAt(r, 1, start) && WordAt(r, 3, end)
  {
  }

  lemma WordBehind(front: seq<Entry>, back: seq<Entry>, t: seq<Entry>, k: nat, m: nat, x: int)
    requires t == front + back && m == |front| + k && WordAt(back, k, x)
    ensures WordAt(t, m, x)
  {
  }

  /** Two data bytes that spell a number, the high one first. */
  predicate WordAt(t: seq<Entry>, k: nat, x: int) {
    k + 1 < |t| && t[k].dc && t[k + 1].dc && Spelled(t[k].value, t[k + 1].value) == x
  }

  function Spelled(hi: int, lo: int): int {
    256 * hi + lo
  }

  lemma {:induction false} PixelsLength(frame: seq<byte>)
    ensures |Pixels(frame)| == 2 * |frame|
  {
    if frame != [] {
      PixelsLength(frame[..|frame| - 1]);
    }
  }

  lemma {:induction false} PixelBytes(frame: seq<byte>, k: nat, i: nat, colour: word)
    requires k < |frame| && i == 2 * k && colour == Colour(frame[k])
    ensures WordAt(Pixels(frame), i, colour)
    decreases |frame|
  {
    var n := |frame| - 1;
    PixelsLength(frame[..n]);
    if k < n {
      PixelBytes(frame[..n], k, i, colour);
      WordStays(Pixels(frame[..n]), Pixel(frame[n]), Pixels(frame), i, colour);
    }
  }

  lemma WordStays(front: seq<Entry>, back: seq<Entry>, t: seq<Entry>, k: nat, x: int)
    requires t == front + back && WordAt(front, k, x)
    ensures WordAt(t, k, x)
  {
  }

  // ---- the decoder ----

  datatype State = State(
    window: Window, command: byte, params: seq<byte>, paramCount: nat,
    ramwrActive: bool, hiPending: bool, hi: byte, writeX: int, writeY: int,
    pixelsWritten: nat, completedFrames: nat, panel: seq<word>)

  predicate Shaped(d: State) {
    |d.params| == 4 && |d.panel| == PANEL_WIDTH * PANEL_HEIGHT
  }

  predicate VisibleWindow(w: Window) {
    w == Window(WINDOW_X0, WINDOW_X1, WINDOW_Y0, WINDOW_Y1)
  }

  predicate OnPanel(x: int, y: int) {
    0 <= x < PANEL_WIDTH && 0 <= y < PANEL_HEIGHT
  }

  function StartRamwr(d: State): State {
    d.(ramwrActive := true, hiPending := false, pixelsWritten := 0, writeX := d.window.x0, writeY := d.window.y0)
  }

  /** The cursor after one pixel: along the row, then to the next row's start; the last row is never left. */
  function AdvanceWriteCursor(d: State): State {
    if d.writeX < d.window.x1 then d.(writeX := d.writeX + 1)
    else d.(writeX := d.window.x0, writeY := if d.writeY < d.window.y1 then d.writeY + 1 else d.writeY)
  }

  function Word(hi: byte, lo: byte): (x: word) {
    var h: int := hi;
    h * 0x100 + lo
  }

  /** This byte completes a frame. */
  predicate Completes(d: State, e: Entry) {
    e.dc && d.ramwrActive && d.hiPending && VisibleWindow(d.window) && (d.pixelsWritten + 1) % TWO_32 == FRAME_PIXELS
  }

  /** The panel with the pixel whose low byte arrives, unless the cursor is off the panel. */
  function Dotted(d: State, value: byte): seq<word>
    requires Shaped(d)
  {
    if OnPanel(d.writeX, d.writeY) then d.panel[d.writeY * PANEL_WIDTH + d.writeX := Word(d.hi, value)] else d.panel
  }

  function PixelByte(d: State, value: byte): State
    requires Shaped(d)
  {
    AdvanceWriteCursor(d.(
      hiPending := false, panel := Dotted(d, value), pixelsWritten := (d.pixelsWritten + 1) % TWO_32,
      completedFrames :=
        if Completes(d, Entry(true, value)) then (d.completedFrames + 1) % TWO_64 else d.completedFrames))
  }

  function ParamByte(d: State, value: byte): State
    requires Shaped(d)
  {
    if (d.command == CASET || d.command == RASET) && d.paramCount < 4 then
      var params := d.params[d.paramCount := value];
      var stored := d.(params := params, paramCount := d.paramCount + 1);
      if d.paramCount != 3 then stored
      else
        var start := Word(params[0], params[1]);
        var end := Word(params[2], params[3]);
        if d.command == CASET then stored.(window := d.window.(x0 := start, x1 := end))
        else stored.(window := d.window.(y0 := start, y1 := end))
    else d
  }

  /** One SPI byte. */
  function Handle(d: State, e: Entry): State
    requires Shaped(d)
  {
    if !e.dc then
      var next := d.(command := e.value, paramCount := 0, ramwrActive := false, hiPending := false);
      if e.value == RAMWR then StartRamwr(next) else next
    else if d.ramwrActive then
      if d.hiPending then PixelByte(d, e.value) else d.(hi := e.value, hiPending := true)
    else ParamByte(d, e.value)
  }

  class SpiDecoder {
    var window: Window
    var currentCommand: byte
    var params: array<byte>
    var paramCount: nat
    var ramwrActive: bool
    var pixelHiPending: bool
    var pixelHi: byte
    var writeX: int
    var writeY: int
    var framePixelsWritten: nat
    var completedFrames: nat
    var panel: array<word>

    ghost predicate Valid()
      reads this, params, panel
    {
      params.Length == 4 && panel.Length == PANEL_WIDTH * PANEL_HEIGHT
    }

    ghost function View(): State
      reads this, params, panel
    {
      State(window, currentCommand, params[..], paramCount, ramwrActive, pixelHiPending, pixelHi, writeX, writeY,
            framePixelsWritten, completedFrames, panel[..])
    }

    /** A fresh decoder shows an all-white panel and the full window. */
    constructor ()
      ensures Valid() && fresh(params) && fresh(panel)
      ensures View() == State(Window(0, PANEL_WIDTH - 1, 0, PANEL_HEIGHT - 1), 0, [0, 0, 0, 0], 0, false, false, 0, 0,
                              0, 0, 0,
                              seq(PANEL_WIDTH * PANEL_HEIGHT, i => 0xFFFF))
    {
      window := Window(0, PANEL_WIDTH - 1, 0, PANEL_HEIGHT - 1);
      currentCommand, paramCount, ramwrActive, pixelHiPending, pixelHi := 0, 0, false, false, 0;
      writeX, writeY, framePixelsWritten, completedFrames := 0, 0, 0, 0;
      params := new byte[4](_ => 0);
      panel := new word[PANEL_WIDTH * PANEL_HEIGHT](_ => 0xFFFF);
    }

    method StartRamwrNow()
      requires Valid()
      modifies this
      ensures Valid() && params == old(params) && panel == old(panel) && View() == StartRamwr(old(View()))
    {
      ramwrActive, pixelHiPending, framePixelsWritten := true, false, 0;
      writeX, writeY := window.x0, window.y0;
    }

    method AdvanceCursor()
      requires Valid()
      modifies this`writeX, this`writeY
      ensures View() == AdvanceWriteCursor(old(View()))
    {
      if writeX < window.x1 {
        writeX := writeX + 1;
      } else {
        writeX := window.x0;
        if writeY < window.y1 {
          writeY := writeY + 1;
        }
      }
    }

    method PaintAtCursor(value: byte)
      requires Valid()
      modifies panel
      ensures Valid() && View() == old(View()).(panel := Dotted(old(View()), value))
    {
      if 0 <= writeX < PANEL_WIDTH && 0 <= writeY < PANEL_HEIGHT {
        panel[writeY * PANEL_WIDTH + writeX] := Word(pixelHi, value);
      }
    }

    method CountPixel() returns (frameComplete: bool)
      requires Valid()
      modifies this`framePixelsWritten
      ensures View() == old(View()).(pixelsWritten := (old(framePixelsWritten) + 1) % TWO_32)
      ensures frameComplete <==> VisibleWindow(window) && framePixelsWritten == FRAME_PIXELS
    {
      framePixelsWritten := (framePixelsWritten + 1) % TWO_32;
      frameComplete := VisibleWindow(window) && framePixelsWritten == FRAME_PIXELS;
    }

    method HandlePixelByte(value: byte) returns (frameComplete: bool)
      requires Valid() && ramwrActive && pixelHiPending
      modifies this, panel
      ensures Valid() && params == old(params) && panel == old(panel)
      ensures View() == PixelByte(old(View()), value)
      ensures frameComplete == Completes(old(View()), Entry(true, value))
    {
      pixelHiPending := false;
      PaintAtCursor(value);
      frameComplete := CountPixel();
      AdvanceCursor();
      if frameComplete {
        completedFrames := (completedFrames + 1) % TWO_64;
      }
    }

    method HandleParamByte(value: byte)
      requires Valid()
      modifies this`window, this`paramCount, params
      ensures Valid() && View() == ParamByte(old(View()), value)
    {
      if (currentCommand == CASET || currentCommand == RASET) && paramCount < 4 {
        params[paramCount] := value;
        paramCount := paramCount + 1;
        if paramCount == 4 {
          var start := Word(params[0], params[1]);
          var end := Word(params[2], params[3]);
          if currentCommand == CASET {
            window := window.(x0 := start, x1 := end);
          } else {
            window := window.(y0 := start, y1 := end);
          }
        }
      }
    }

    method HandleSpiByte(dc: bool, value: byte) returns (frameComplete: bool)
      requires Valid()
      modifies this, params, panel
      ensures Valid() && params == old(params) && panel == old(panel)
      ensures View() == Handle(old(View()), Entry(dc, value))
      ensures frameComplete == Completes(old(View()), Entry(dc, value))
    {
      frameComplete := false;
      if !dc {
        currentCommand, paramCount, ramwrActive, pixelHiPending := value, 0, false, false;
        if value == RAMWR {
          StartRamwrNow();
        }
      } else if ramwrActive {
        if !pixelHiPending {
          pixelHi, pixelHiPending := value, true;
        } else {
          frameComplete := HandlePixelByte(value);
        }
      } else {
        HandleParamByte(value);
      }
    }
  }

  // ---- feeding whole transcripts ----

  function Feed(d: State, entries: seq<Entry>): (r: State)
    requires Shaped(d)
    ensures Shaped(r)
    decreases |entries|
  {
    if entries == [] then d else Feed(Handle(d, entries[0]), entries[1..])
  }

  /** For each byte, whether it completes a frame. */
  function Completions(d: State, entries: seq<Entry>): (r: seq<bool>)
    requires Shaped(d)
    ensures |r| == |entries|
    decreases |entries|
  {
    if entries == [] then [] else [Completes(d, entries[0])] + Completions(Handle(d, entries[0]), entries[1..])
  }

  lemma {:induction false} FeedAppend(d: State, a: seq<Entry>, b: seq<Entry>)
    requires Shaped(d)
    ensures Feed(d, a + b) == Feed(Feed(d, a), b)
    ensures Completions(d, a + b) == Completions(d, a) + Completions(Feed(d, a), b)
    decreases |a|
  {
    if a == [] {
      assert a + b == b;
    } else {
      assert (a + b)[1..] == a[1..] + b;
      FeedAppend(Handle(d, a[0]), a[1..], b);
    }
  }

  /** Bytes handed over one at a time, as the capture loop does. */
  method Replay(decoder: SpiDecoder, entries: seq<Entry>) returns (completions: seq<bool>)
    requires decoder.Valid()
    modifies decoder, decoder.params, decoder.panel
    ensures decoder.Valid() && decoder.View() == Feed(old(decoder.View()), entries)
    ensures completions == Completions(old(decoder.View()), entries)
  {
    completions := [];
    for i := 0 to |entries|
      invariant decoder.Valid() && decoder.params == old(decoder.params) && decoder.panel == old(decoder.panel)
      invariant decoder.View() == Feed(old(decoder.View()), entries[..i])
      invariant completions == Completions(old(decoder.View()), entries[..i])
    {
      ghost var before := decoder.View();
      var done := decoder.HandleSpiByte(entries[i].dc, entries[i].value);
      assert entries[..i + 1] == entries[..i] + [entries[i]];
      FeedAppend(old(decoder.View()), entries[..i], [entries[i]]);
      FeedOne(before, entries[i]);
      completions := completions + [done];
    }
    assert entries[..|entries|] == entries;
  }

  lemma BytesOfWord(x: int)
    requires 0 <= x < 0x1_0000
    ensures Word(Hi(x), Lo(x)) == x
  {
  }

  /** A trace of single bytes is the feed. */
  lemma {:induction false} FeedTrace(states: seq<State>, e: seq<Entry>)
    requires |states| == |e| + 1 && forall k :: 0 <= k < |states| ==> Shaped(states[k])
    requires forall k :: 0 <= k < |e| ==> states[k + 1] == Handle(states[k], e[k])
    ensures Feed(states[0], e) == states[|e|]
    ensures forall k :: 0 <= k < |e| ==> Completions(states[0], e)[k] == Completes(states[k], e[k])
    decreases |e|
  {
    if e != [] {
      FeedTrace(states[1..], e[1..]);
    }
  }

  /** Four parameter bytes after a range command. */
  lemma FourParams(d: State, a: byte, b: byte, c: byte, e: byte)
    requires Shaped(d) && !d.ramwrActive && (d.command == CASET || d.command == RASET) && d.paramCount == 0
    ensures var entries := [Entry(true, a), Entry(true, b), Entry(true, c), Entry(true, e)];
            Feed(d, entries) == AfterParams(d, a, b, c, e) && Completions(d, entries) == [false, false, false, false]
  {
    var entries := [Entry(true, a), Entry(true, b), Entry(true, c), Entry(true, e)];
    var p1 := d.params[0 := a];
    var p2 := p1[1 := b];
    var p3 := p2[2 := c];
    var p4 := p3[3 := e];
    assert p4 == [a, b, c, e];
    var states := [d, d.(params := p1, paramCount := 1), d.(params := p2, paramCount := 2),
                   d.(params := p3, paramCount := 3), AfterParams(d, a, b, c, e)];
    FeedTrace(states, entries);
  }

  function AfterParams(d: State, a: byte, b: byte, c: byte, e: byte): State {
    d.(params := [a, b, c, e], paramCount := 4,
       window := if d.command == CASET then d.window.(x0 := Word(a, b), x1 := Word(c, e))
                 else d.window.(y0 := Word(a, b), y1 := Word(c, e)))
  }

  lemma FeedOne(d: State, e: Entry)
    requires Shaped(d)
    ensures Feed(d, [e]) == Handle(d, e) && Completions(d, [e]) == [Completes(d, e)]
  {
    assert [e][1..] == [];
  }

  /** A range command and its four bytes set one side of the window, whatever came before. */
  lemma RangeSetsWindow(d: State, command: byte, start: int, end: int)
    requires Shaped(d) && (command == CASET || command == RASET)
    requires 0 <= start < 0x1_0000 && 0 <= end < 0x1_0000
    ensures var r := Feed(d, Range(command, start, end));
            r.panel == d.panel && r.completedFrames == d.completedFrames &&
            r.window == if command == CASET then d.window.(x0 := start, x1 := end)
                        else d.window.(y0 := start, y1 := end)
    ensures Completions(d, Range(command, start, end)) == [false, false, false, false, false]
  {
    var first := Entry(false, command);
    var rest := Range(command, start, end)[1..];
    assert Range(command, start, end) == [first] + rest;
    FeedOne(d, first);
    FeedAppend(d, [first], rest);
    FourParams(Handle(d, first), Hi(start), Lo(start), Hi(end), Lo(end));
    BytesOfWord(start);
    BytesOfWord(end);
  }

  /** The header leaves the decoder at the first pixel of the window, with the panel as it was. */
  lemma HeaderOpensWindow(d: State, w: Window)
    requires Shaped(d)
    requires 0 <= w.x0 <= w.x1 < 0x1_0000 && 0 <= w.y0 <= w.y1 < 0x1_0000
    ensures AtPixel(Feed(d, Header(w)), w, 0, 0, 0)
    ensures Feed(d, Header(w)).panel == d.panel && Feed(d, Header(w)).completedFrames == d.completedFrames
    ensures |Header(w)| == 11 && forall k :: 0 <= k < 11 ==> !Completions(d, Header(w))[k]
  {
    var columns, rows := Range(CASET, w.x0, w.x1), Range(RASET, w.y0, w.y1);
    var ramwr := Entry(false, RAMWR);
    var d1 := Feed(d, columns);
    var d2 := Feed(d1, rows);
    RangeSetsWindow(d, CASET, w.x0, w.x1);
    RangeSetsWindow(d1, RASET, w.y0, w.y1);
    FeedOne(d2, ramwr);
    FeedAppend(d, columns, rows);
    FeedAppend(d, columns + rows, [ramwr]);
  }

  // ---- painting the frame ----

  function At(panel: seq<word>, x: int, y: int): word
    requires |panel| == PANEL_WIDTH * PANEL_HEIGHT && OnPanel(x, y)
  {
    panel[y * PANEL_WIDTH + x]
  }

  /** The frame's shade in column i of row j. */
  function Source(frame: seq<byte>, width: int, i: int, j: int): byte {
    if 0 <= j * width + i < |frame| then frame[j * width + i] else 0
  }

  /** The decoder stands at column c of row r of the window, with `count` pixels written. */
  predicate AtPixel(e: State, w: Window, r: int, c: int, count: nat) {
    && Shaped(e) && e.window == w && e.ramwrActive && !e.hiPending
    && e.pixelsWritten == count
    && e.writeX == w.x0 + c
    && e.writeY == (if w.y0 + r <= w.y1 then w.y0 + r else w.y1)
  }

  /** Window rows above r, and row r left of column c, show the frame; every other cell is as in `before`. */
  ghost predicate Painted(panel: seq<word>, before: seq<word>, frame: seq<byte>, w: Window, r: int, c: int) {
    && |panel| == |before| == PANEL_WIDTH * PANEL_HEIGHT
    && forall x, y :: OnPanel(x, y) ==> At(panel, x, y) == PaintedCell(before, frame, w, r, c, x, y)
  }

  function Width(w: Window): int {
    w.x1 - w.x0 + 1
  }

  function Height(w: Window): int {
    w.y1 - w.y0 + 1
  }

  predicate FitsPanel(w: Window) {
    0 <= w.x0 <= w.x1 < PANEL_WIDTH && 0 <= w.y0 <= w.y1 < PANEL_HEIGHT
  }

  /** The decoder after the two bytes of one pixel on the panel. */
  function AfterPixel(e: State, colour: word): State
    requires Shaped(e) && OnPanel(e.writeX, e.writeY)
  {
    AdvanceWriteCursor(e.(
      hi := Hi(colour), panel := e.panel[e.writeY * PANEL_WIDTH + e.writeX := colour],
      pixelsWritten := (e.pixelsWritten + 1) % TWO_32,
      completedFrames := if PixelCompletes(e) then (e.completedFrames + 1) % TWO_64 else e.completedFrames))
  }

  predicate PixelCompletes(e: State) {
    VisibleWindow(e.window) && (e.pixelsWritten + 1) % TWO_32 == FRAME_PIXELS
  }

  lemma PixelHandled(e: State, colour: word)
    requires Shaped(e) && e.ramwrActive && !e.hiPending && OnPanel(e.writeX, e.writeY)
    ensures var bytes := [Entry(true, Hi(colour)), Entry(true, Lo(colour))];
            Completions(e, bytes) == [false, PixelCompletes(e)] && Feed(e, bytes) == AfterPixel(e, colour)
  {
    var first, second := Entry(true, Hi(colour)), Entry(true, Lo(colour));
    var e1 := e.(hi := Hi(colour), hiPending := true);
    assert e1 == Handle(e, first);
    BytesOfWord(colour);
    LowByte(e, colour);
    FeedOne(e, first);
    FeedOne(e1, second);
    FeedAppend(e, [first], [second]);
    assert [first] + [second] == [first, second];
  }

  lemma LowByte(e: State, colour: word)
    requires Shaped(e) && e.ramwrActive && !e.hiPending && OnPanel(e.writeX, e.writeY)
    ensures var e1 := e.(hi := Hi(colour), hiPending := true);
            Handle(e1, Entry(true, Lo(colour))) == AfterPixel(e, colour)
  {
    BytesOfWord(colour);
  }

  function NextRow(w: Window, r: nat, c: nat): nat {
    if c + 1 < Width(w) then r else r + 1
  }

  function NextColumn(w: Window, c: nat): nat {
    if c + 1 < Width(w) then c + 1 else 0
  }

  lemma CellPainted(e: State, colour: word, x: int, y: int)
    requires Shaped(e) && OnPanel(e.writeX, e.writeY) && OnPanel(x, y)
    ensures At(AfterPixel(e, colour).panel, x, y) ==
            if x == e.writeX && y == e.writeY then colour else At(e.panel, x, y)
  {
  }

  /** What cell (x, y) holds once the rows above r, and row r left of column c, are painted. */
  function PaintedCell(before: seq<word>, frame: seq<byte>, w: Window, r: int, c: int, x: int, y: int): word
    requires |before| == PANEL_WIDTH * PANEL_HEIGHT && OnPanel(x, y)
  {
    if w.x0 <= x <= w.x1 && w.y0 <= y && (y - w.y0 < r || (y - w.y0 == r && x - w.x0 < c))
    then Colour(Source(frame, Width(w), x - w.x0, y - w.y0))
    else At(before, x, y)
  }

  lemma CursorMoves(e: State, w: Window, r: nat, c: nat, count: nat, colour: word)
    requires FitsPanel(w) && r < Height(w) && c < Width(w) && count + 1 < TWO_32
    requires AtPixel(e, w, r, c, count)
    ensures OnPanel(e.writeX, e.writeY)
    ensures AtPixel(AfterPixel(e, colour), w, NextRow(w, r, c), NextColumn(w, c), count + 1)
    ensures PixelCompletes(e) <==> VisibleWindow(w) && count + 1 == FRAME_PIXELS
  {
  }

  lemma NextCell(before: seq<word>, frame: seq<byte>, w: Window, r: nat, c: nat, x: int, y: int)
    requires |before| == PANEL_WIDTH * PANEL_HEIGHT && OnPanel(x, y) && FitsPanel(w) && c < Width(w)
    ensures PaintedCell(before, frame, w, NextRow(w, r, c), NextColumn(w, c), x, y) ==
            if x == w.x0 + c && y == w.y0 + r then Colour(Source(frame, Width(w), c, r))
            else PaintedCell(before, frame, w, r, c, x, y)
  {
  }

  /** One pixel extends the painted part by one cell and moves to the next. */
  lemma PixelPaints(e: State, before: seq<word>, frame: seq<byte>, w: Window, r: nat, c: nat, count: nat)
    requires FitsPanel(w) && r < Height(w) && c < Width(w)
    requires count < |frame| < TWO_32 && Source(frame, Width(w), c, r) == frame[count]
    requires AtPixel(e, w, r, c, count) && Painted(e.panel, before, frame, w, r, c)
    ensures OnPanel(e.writeX, e.writeY)
    ensures Painted(AfterPixel(e, Colour(frame[count])).panel, before, frame, w, NextRow(w, r, c), NextColumn(w, c))
  {
    CursorMoves(e, w, r, c, count, Colour(frame[count]));
    forall x, y | OnPanel(x, y)
      ensures At(AfterPixel(e, Colour(frame[count])).panel, x, y) ==
              PaintedCell(before, frame, w, NextRow(w, r, c), NextColumn(w, c), x, y)
    {
      CellPainted(e, Colour(frame[count]), x, y);
      NextCell(before, frame, w, r, c, x, y);
    }
  }

  /** Feeding `pixels`, the first `count` pixels of the frame, has brought the decoder to column c of row r: the cells
      before it are painted, and no byte completed a frame but the last one of the visible window's last pixel. */
  ghost predicate Progress(e: State, pixels: seq<Entry>, frame: seq<byte>, w: Window, r: int, c: int, count: nat) {
    Shaped(e) &&
    var next := Feed(e, pixels);
    && |pixels| == 2 * count
    && AtPixel(next, w, r, c, count) && Painted(next.panel, e.panel, frame, w, r, c)
    && (forall k :: 0 <= k < 2 * count ==>
          (Completions(e, pixels)[k] <==> VisibleWindow(w) && k + 1 == 2 * FRAME_PIXELS))
    && next.completedFrames ==
       if VisibleWindow(w) && count >= FRAME_PIXELS then (e.completedFrames + 1) % TWO_64 else e.completedFrames
  }

  lemma OnePixelOn(e: State, pixels: seq<Entry>, more: seq<Entry>, frame: seq<byte>, w: Window, r: nat, c: nat,
      count: nat)
    requires Progress(e, pixels, frame, w, r, c, count)
    requires FitsPanel(w) && r < Height(w) && c < Width(w)
    requires count < |frame| < TWO_32 && Source(frame, Width(w), c, r) == frame[count]
    requires more == pixels + Pixel(frame[count])
    ensures Progress(e, more, frame, w, NextRow(w, r, c), NextColumn(w, c), count + 1)
  {
    var last := Feed(e, pixels);
    FeedAppend(e, pixels, Pixel(frame[count]));
    CursorMoves(last, w, r, c, count, Colour(frame[count]));
    PixelPaints(last, e.panel, frame, w, r, c, count);
    PixelHandled(last, Colour(frame[count]));
  }

  /** The first `r * width + c` pixels paint just the cells before column c of row r. */
  lemma {:induction false} PixelsPaint(
    e: State, pixels: seq<Entry>, frame: seq<byte>, w: Window, r: nat, c: nat, count: nat)
    requires Shaped(e) && FitsPanel(w) && AtPixel(e, w, 0, 0, 0)
    requires (r < Height(w) && c < Width(w)) || (r == Height(w) && c == 0)
    requires count == r * Width(w) + c <= |frame| < TWO_32 && pixels == Pixels(frame[..count])
    ensures Progress(e, pixels, frame, w, r, c, count)
    decreases count
  {
    if count == 0 {
      RowStart(r, Width(w), c);
      assert frame[..0] == [];
    } else {
      var r0, c0 := if c > 0 then r else r - 1, if c > 0 then c - 1 else Width(w) - 1;
      PreviousPixel(r, c, Width(w), count);
      var before := Pixels(frame[..count - 1]);
      PixelsPaint(e, before, frame, w, r0, c0, count - 1);
      assert frame[..count][..count - 1] == frame[..count - 1];
      assert NextRow(w, r0, c0) == r && NextColumn(w, c0) == c;
      OnePixelOn(e, before, pixels, frame, w, r0, c0, count - 1);
    }
  }

  lemma RowStart(r: nat, width: int, c: nat)
    requires width > 0 && r * width + c == 0
    ensures r == 0 && c == 0
  {
  }

  lemma PreviousPixel(r: nat, c: nat, width: int, count: nat)
    requires width > 0 && count == r * width + c > 0
    ensures c == 0 ==> r > 0 && (r - 1) * width + (width - 1) == count - 1
    ensures c > 0 ==> r * width + (c - 1) == count - 1
  {
  }

  /** Inside the window the panel shows the frame's colours, row by row; every other cell is as before. */
  ghost predicate FramePainted(panel: seq<word>, before: seq<word>, frame: seq<byte>, width: int, w: Window) {
    && |panel| == |before| == PANEL_WIDTH * PANEL_HEIGHT
    && forall x, y :: OnPanel(x, y) ==> FrameCell(panel, before, frame, width, w, x, y)
  }

  /** A cell of the window shows its own pixel of the frame, which there is; any other cell is as before. */
  predicate FrameCell(panel: seq<word>, before: seq<word>, frame: seq<byte>, width: int, w: Window, x: int, y: int)
    requires |panel| == |before| == PANEL_WIDTH * PANEL_HEIGHT && OnPanel(x, y)
  {
    if w.x0 <= x <= w.x1 && w.y0 <= y <= w.y1 then
      var k := (y - w.y0) * width + (x - w.x0);
      0 <= k < |frame| && At(panel, x, y) == Colour(frame[k])
    else At(panel, x, y) == At(before, x, y)
  }

  lemma PaintedToFrame(panel: seq<word>, before: seq<word>, frame: seq<byte>, w: Window, width: int, height: int)
    requires width == Width(w) && height == Height(w) && |frame| == width * height
    requires Painted(panel, before, frame, w, height, 0)
    ensures FramePainted(panel, before, frame, width, w)
  {
    forall x, y | OnPanel(x, y)
      ensures FrameCell(panel, before, frame, width, w, x, y)
    {
      assert At(panel, x, y) == PaintedCell(before, frame, w, height, 0, x, y);
      if w.x0 <= x <= w.x1 && w.y0 <= y <= w.y1 {
        SourceInRange(frame, width, height, x - w.x0, y - w.y0);
      }
    }
  }

  /** The whole frame: any transcript the generator accepts, fed to a decoder in any state, paints exactly the frame's
      colours in its window and leaves every other cell; it completes a frame only if the window is the visible one,
      and then once, on the last byte. */
  lemma TranscriptPaintsFrame(d: State, frame: seq<byte>, width: int, height: int, centered: bool)
    requires Shaped(d) && Transcript(frame, width, height, centered).Success?
    ensures var t := Transcript(frame, width, height, centered).value;
            var w := WindowBounds(width, height, centered).value;
            var e := Feed(d, t);
            && |t| == 11 + 2 * |frame|
            && FramePainted(e.panel, d.panel, frame, width, w)
            && (forall k :: 0 <= k < |t| ==> (Completions(d, t)[k] <==> VisibleWindow(w) && k == |t| - 1))
            && e.completedFrames == if VisibleWindow(w) then (d.completedFrames + 1) % TWO_64 else d.completedFrames
  {
    var w := WindowBounds(width, height, centered).value;
    var start := Feed(d, Header(w));
    HeaderOpensWindow(d, w);
    FrameFits(width, height);
    assert frame[..|frame|] == frame;
    assert height * Width(w) + 0 == |frame|;
    PixelsPaint(start, Pixels(frame), frame, w, height, 0, |frame|);
    FeedAppend(d, Header(w), Pixels(frame));
    PaintedToFrame(Feed(d, Header(w) + Pixels(frame)).panel, d.panel, frame, w, width, height);
  }

  lemma FrameFits(width: int, height: int)
    requires 0 < width <= PANEL_WIDTH && 0 < height <= PANEL_HEIGHT
    ensures 0 < width * height <= PANEL_WIDTH * PANEL_HEIGHT
    ensures height * width == width * height
  {
    assert width * height <= PANEL_WIDTH * height;
  }

  /** Inside the window the source index is in range: `Source` never falls back to its default there. */
  lemma SourceInRange(frame: seq<byte>, width: int, height: int, i: int, j: int)
    requires |frame| == width * height && 0 <= i < width && 0 <= j < height
    ensures 0 <= j * width + i < |frame| && Source(frame, width, i, j) == frame[j * width + i]
  {
    assert (j + 1) * width <= height * width;
    assert j * width + i < (j + 1) * width;
  }

  /** The visible window is the window of exactly one accepted shape. */
  lemma VisibleWindowIs(width: int, height: int, centered: bool)
    requires WindowBounds(width, height, centered).Success?
    ensures VisibleWindow(WindowBounds(width, height, centered).value) <==>
            width == FRAME_WIDTH && height == FRAME_HEIGHT && centered
  {
  }

  // ---- reading the frame back ----

  function Distance(a: word, b: word): (d: int)
    ensures d >= 0 && (d == a - b || d == b - a)
  {
    if a > b then a - b else b - a
  }

  /** The first palette entry among the first `n` at the least distance from a pixel. */
  predicate IsNearest(pixel: word, index: nat, n: nat) {
    && index < n <= 4
    && (forall k: nat :: k < n ==> Distance(pixel, Colour(index)) <= Distance(pixel, Colour(k)))
    && (forall k: nat :: k < index ==> Distance(pixel, Colour(index)) < Distance(pixel, Colour(k)))
  }

  method NearestIndex(pixel: word) returns (best: nat)
    ensures IsNearest(pixel, best, 4)
  {
    var bestDiff := Distance(pixel, Colour(0));
    best := 0;
    for index := 1 to 4
      invariant IsNearest(pixel, best, index) && bestDiff == Distance(pixel, Colour(best))
    {
      var diff := Distance(pixel, Colour(index));
      if diff < bestDiff {
        bestDiff, best := diff, index;
      }
    }
  }

  method CropVisibleFrame(panel: array<word>) returns (frame: seq<byte>)
    requires panel.Length == PANEL_WIDTH * PANEL_HEIGHT
    ensures IsCrop(panel[..], frame)
  {
    frame := [];
    for y := 0 to FRAME_HEIGHT
      invariant |frame| == y * FRAME_WIDTH
      invariant Cropped(panel[..], frame)
    {
      for x := 0 to FRAME_WIDTH
        invariant |frame| == y * FRAME_WIDTH + x
        invariant Cropped(panel[..], frame)
      {
        var best := NearestIndex(panel[(WINDOW_Y0 + y) * PANEL_WIDTH + (WINDOW_X0 + x)]);
        OneMoreCell(panel[..], frame, Grey(best), best, y, x);
        frame := frame + [Grey(best)];
      }
    }
  }

  lemma IndexParts(y: int, x: int)
    requires 0 <= x < FRAME_WIDTH && 0 <= y
    ensures (y * FRAME_WIDTH + x) / FRAME_WIDTH == y && (y * FRAME_WIDTH + x) % FRAME_WIDTH == x
  {
  }

  lemma OneMoreCell(panel: seq<word>, frame: seq<byte>, level: byte, index: nat, y: nat, x: nat)
    requires |panel| == PANEL_WIDTH * PANEL_HEIGHT && Cropped(panel, frame)
    requires x < FRAME_WIDTH && y < FRAME_HEIGHT && |frame| == y * FRAME_WIDTH + x
    requires IsNearest(panel[(WINDOW_Y0 + y) * PANEL_WIDTH + (WINDOW_X0 + x)], index, 4) && level == Grey(index)
    ensures Cropped(panel, frame + [level])
  {
    IndexParts(y, x);
  }

  /** Each captured level is that of a palette entry nearest to the window cell it comes from, row by row. */
  ghost predicate Cropped(panel: seq<word>, frame: seq<byte>)
    requires |panel| == PANEL_WIDTH * PANEL_HEIGHT
  {
    |frame| <= FRAME_PIXELS &&
    forall k :: 0 <= k < |frame| ==> CellCropped(panel, frame[k], k % FRAME_WIDTH, k / FRAME_WIDTH)
  }

  ghost predicate CellCropped(panel: seq<word>, level: byte, i: int, j: int)
    requires |panel| == PANEL_WIDTH * PANEL_HEIGHT && 0 <= i < FRAME_WIDTH && 0 <= j < FRAME_HEIGHT
  {
    exists index: nat :: IsNearest(At(panel, WINDOW_X0 + i, WINDOW_Y0 + j), index, 4) && level == Grey(index)
  }

  ghost predicate IsCrop(panel: seq<word>, frame: seq<byte>)
    requires |panel| == PANEL_WIDTH * PANEL_HEIGHT
  {
    |frame| == FRAME_PIXELS && Cropped(panel, frame)
  }

  lemma NearestToColour(shade: byte, index: nat)
    requires IsNearest(Colour(shade), index, 4)
    ensures index == shade % 4
  {
    assert Distance(Colour(shade), Colour(shade % 4)) == 0;
  }

  /** The round trip: after the transcript of a centred 160 by 144 frame, whatever the decoder held before, cropping
      returns the grey level of every source pixel. */
  lemma CropReturnsFrame(d: State, frame: seq<byte>, captured: seq<byte>)
    requires Shaped(d) && |frame| == FRAME_PIXELS
    requires IsCrop(Feed(d, Transcript(frame, FRAME_WIDTH, FRAME_HEIGHT, true).value).panel, captured)
    ensures forall k :: 0 <= k < FRAME_PIXELS ==> captured[k] == Grey(frame[k] % 4)
  {
    var panel := Feed(d, Transcript(frame, FRAME_WIDTH, FRAME_HEIGHT, true).value).panel;
    TranscriptPaintsFrame(d, frame, FRAME_WIDTH, FRAME_HEIGHT, true);
    VisibleWindowIs(FRAME_WIDTH, FRAME_HEIGHT, true);
    PaintedShows(panel, d.panel, frame, FRAME_WIDTH, WindowBounds(FRAME_WIDTH, FRAME_HEIGHT, true).value);
    CropOfPainted(panel, frame, captured);
  }

  lemma PaintedShows(panel: seq<word>, before: seq<word>, frame: seq<byte>, width: int, w: Window)
    requires FramePainted(panel, before, frame, width, w) && VisibleWindow(w) && width == FRAME_WIDTH
    ensures ShowsFrame(panel, frame)
  {
    forall x, y | OnPanel(x, y) && WINDOW_X0 <= x <= WINDOW_X1 && WINDOW_Y0 <= y <= WINDOW_Y1
      ensures At(panel, x, y) == Colour(Source(frame, FRAME_WIDTH, x - WINDOW_X0, y - WINDOW_Y0))
    {
      assert FrameCell(panel, before, frame, width, w, x, y);
    }
  }

  /** The panel shows the frame in the visible window. */
  ghost predicate ShowsFrame(panel: seq<word>, frame: seq<byte>) {
    |panel| == PANEL_WIDTH * PANEL_HEIGHT &&
    forall x, y :: OnPanel(x, y) && WINDOW_X0 <= x <= WINDOW_X1 && WINDOW_Y0 <= y <= WINDOW_Y1 ==>
      At(panel, x, y) == Colour(Source(frame, FRAME_WIDTH, x - WINDOW_X0, y - WINDOW_Y0))
  }

  lemma CropOfPainted(panel: seq<word>, frame: seq<byte>, captured: seq<byte>)
    requires ShowsFrame(panel, frame) && |frame| == FRAME_PIXELS && IsCrop(panel, captured)
    ensures forall k :: 0 <= k < FRAME_PIXELS ==> captured[k] == Grey(frame[k] % 4)
  {
    forall k | 0 <= k < FRAME_PIXELS
      ensures captured[k] == Grey(frame[k] % 4)
    {
      var i, j := k % FRAME_WIDTH, k / FRAME_WIDTH;
      assert OnPanel(WINDOW_X0 + i, WINDOW_Y0 + j);
      CellReadsBack(panel, frame, captured[k], k, i, j);
    }
  }

  lemma CellReadsBack(panel: seq<word>, frame: seq<byte>, level: byte, k: int, i: int, j: int)
    requires |panel| == PANEL_WIDTH * PANEL_HEIGHT && 0 <= k < |frame|
    requires 0 <= i < FRAME_WIDTH && 0 <= j < FRAME_HEIGHT && k == j * FRAME_WIDTH + i
    requires CellCropped(panel, level, i, j)
    requires At(panel, WINDOW_X0 + i, WINDOW_Y0 + j) == Colour(Source(frame, FRAME_WIDTH, i, j))
    ensures level == Grey(frame[k] % 4)
  {
    var index: nat :| IsNearest(At(panel, WINDOW_X0 + i, WINDOW_Y0 + j), index, 4) && level == Grey(index);
    NearestToColour(frame[k], index);
  }

  // ---- initialisation ----

  /** The commands before the panel's window is set, and those after: none of them opens a window or a memory write. */
  function Setup(): seq<Entry> {
    [Entry(false, 0x01), Entry(false, 0x11), Entry(false, 0x3A), Entry(true, 0x55), Entry(false, 0x36),
     Entry(true, 0x00)]
  }

  function SwitchOn(): seq<Entry> {
    [Entry(false, 0x21), Entry(false, 0x13), Entry(false, 0x29)]
  }

  function InitTranscript(): seq<Entry> {
    Setup() + (Range(CASET, 0, PANEL_WIDTH - 1) + (Range(RASET, 0, PANEL_HEIGHT - 1) + SwitchOn()))
  }

  /** The initialisation, byte by byte. */
  lemma InitBytes()
    ensures InitTranscript() ==
            [Entry(false, 0x01), Entry(false, 0x11), Entry(false, 0x3A), Entry(true, 0x55),
             Entry(false, 0x36), Entry(true, 0x00),
             Entry(false, 0x2A), Entry(true, 0x00), Entry(true, 0x00), Entry(true, 0x01), Entry(true, 0x3F),
             Entry(false, 0x2B), Entry(true, 0x00), Entry(true, 0x00), Entry(true, 0x00), Entry(true, 0xEF),
             Entry(false, 0x21), Entry(false, 0x13), Entry(false, 0x29)]
  {
  }

  /** The decoder ignores data bytes. */
  predicate Idle(d: State) {
    !d.ramwrActive && d.command != CASET && d.command != RASET
  }

  predicate NoneCompletes(d: State, entries: seq<Entry>)
    requires Shaped(d)
  {
    forall k :: 0 <= k < |entries| ==> !Completions(d, entries)[k]
  }

  /** Other commands and their data leave panel, window and frame count alone. */
  lemma {:induction false} OtherCommandsAreIgnored(d: State, entries: seq<Entry>)
    requires Shaped(d)
    requires forall k :: 0 <= k < |entries| && !entries[k].dc ==> entries[k].value !in {CASET, RASET, RAMWR}
    requires entries != [] && entries[0].dc ==> Idle(d)
    ensures var e := Feed(d, entries);
            e.panel == d.panel && e.window == d.window && e.completedFrames == d.completedFrames &&
            (entries != [] ==> Idle(e))
    ensures NoneCompletes(d, entries)
    decreases |entries|
  {
    if entries != [] {
      var next := Handle(d, entries[0]);
      assert Idle(next) && next.panel == d.panel && next.window == d.window &&
             next.completedFrames == d.completedFrames;
      OtherCommandsAreIgnored(next, entries[1..]);
    }
  }

  lemma NoneCompletesTogether(d: State, a: seq<Entry>, b: seq<Entry>)
    requires Shaped(d) && NoneCompletes(d, a) && NoneCompletes(Feed(d, a), b)
    ensures NoneCompletes(d, a + b)
  {
    FeedAppend(d, a, b);
  }

  /** The initialisation, fed to a decoder in any state, opens the whole panel as window, paints nothing, completes no
      frame, and leaves the decoder ignoring data. */
  lemma InitOpensPanel(d: State)
    requires Shaped(d)
    ensures var e := Feed(d, InitTranscript());
            && Idle(e) && e.window == Window(0, PANEL_WIDTH - 1, 0, PANEL_HEIGHT - 1)
            && e.panel == d.panel && e.completedFrames == d.completedFrames
    ensures NoneCompletes(d, InitTranscript())
  {
    var columns, rows := Range(CASET, 0, PANEL_WIDTH - 1), Range(RASET, 0, PANEL_HEIGHT - 1);
    var d1 := Feed(d, Setup());
    var d2 := Feed(d1, columns);
    var d3 := Feed(d2, rows);
    OtherCommandsAreIgnored(d, Setup());
    RangeSetsWindow(d1, CASET, 0, PANEL_WIDTH - 1);
    RangeSetsWindow(d2, RASET, 0, PANEL_HEIGHT - 1);
    OtherCommandsAreIgnored(d3, SwitchOn());
    FeedAppend(d2, rows, SwitchOn());
    FeedAppend(d1, columns, rows + SwitchOn());
    FeedAppend(d, Setup(), columns + (rows + SwitchOn()));
    NoneCompletesTogether(d2, rows, SwitchOn());
    NoneCompletesTogether(d1, columns, rows + SwitchOn());
    NoneCompletesTogether(d, Setup(), columns + (rows + SwitchOn()));
  }
}

/**
 The ST7565 display driver's buffer (drivers/lcd/st7565.c), 128x32 pixels, rotation 0.
 Drawing changes a 512-byte buffer and marks 32-byte blocks dirty; each render sends one
 dirty block to the panel.  The invariant `Coherent` says that every block where the
 panel differs from the buffer is marked, after any sequence of drawing calls; rendering
 once per mark makes the panel show the buffer.

 `dirty` is the 16-bit mask as its sequence of bits.  The panel is modelled by its
 memory and address counters, driven by the command bytes the driver sends.
 */
module Display {
  import opened Bytes

  const WIDTH: nat := 128
  const MATRIX: nat := 512
  const BLOCKS: nat := 16
  const BLOCK: nat := 32
  const FONT_WIDTH: nat := 6
  const FONT_END: nat := 223
  const NEWLINE: nat := 10
  const RETURN: nat := 13
  const SPACE: nat := 32

  // ---- the panel ----

  datatype Panel = Panel(memory: seq<bv8>, page: nat, column: nat)

  /** Addressing commands: 0xB0 + page, 0x00 + low column nibble, 0x10 + high column nibble. */
  function Command(p: Panel, cmd: nat): Panel {
    if 0xB0 <= cmd < 0xC0 then p.(page := cmd - 0xB0)
    else if 0x10 <= cmd < 0x20 then p.(column := (cmd - 0x10) * 16 + p.column % 16)
    else if cmd < 0x10 then p.(column := p.column / 16 * 16 + cmd)
    else p
  }

  /** Data bytes go to consecutive columns from the current address. */
  function Data(p: Panel, bytes: seq<bv8>): Panel
    requires |p.memory| == MATRIX && p.page * WIDTH + p.column + |bytes| <= MATRIX
  {
    var at := p.page * WIDTH + p.column;
    p.(memory := p.memory[..at] + bytes + p.memory[at + |bytes|..], column := p.column + |bytes|)
  }

  /** The three commands sent for block `u` select the address of its first byte. */
  function Address(p: Panel, u: nat): Panel {
    var page := BLOCK * u / WIDTH;
    var column := BLOCK * u % WIDTH;
    Command(Command(Command(p, 0xB0 + page), column % 16), 0x10 + column / 16)
  }

  lemma AddressesBlock(p: Panel, u: nat)
    requires u < BLOCKS
    ensures Address(p, u).memory == p.memory
    ensures Address(p, u).page * WIDTH + Address(p, u).column == BLOCK * u
  {
  }

  /** The bytes sent after them replace the block. */
  lemma DataAtBlock(p: Panel, u: nat, bytes: seq<bv8>)
    requires u < BLOCKS && |p.memory| == MATRIX && |bytes| == BLOCK
    ensures Address(p, u).memory == p.memory && Address(p, u).page * WIDTH + Address(p, u).column == BLOCK * u
    ensures var m := Data(Address(p, u), bytes).memory;
            |m| == MATRIX && forall i :: 0 <= i < MATRIX ==> m[i] == if i / BLOCK == u then bytes[i - BLOCK * u] else p.memory[i]
  {
    AddressesBlock(p, u);
  }

  // ---- counting dirty blocks ----

  function Count(d: seq<bool>): nat {
    if d == [] then 0 else Count(d[..|d| - 1]) + (if d[|d| - 1] then 1 else 0)
  }

  lemma {:induction false} CountCleared(d: seq<bool>, u: nat)
    requires u < |d| && d[u]
    ensures Count(d[u := false]) + 1 == Count(d)
  {
    var n := |d| - 1;
    if u == n {
      assert d[u := false][..n] == d[..n];
    } else {
      CountCleared(d[..n], u);
      assert d[u := false][..n] == d[..n][u := false];
    }
  }

  lemma {:induction false} CountZero(d: seq<bool>)
    requires Count(d) == 0
    ensures forall u :: 0 <= u < |d| ==> !d[u]
  {
    if d != [] {
      CountZero(d[..|d| - 1]);
    }
  }

  // ---- cursor positions ----

  /** `st7565_set_cursor`: where the cursor lands. */
  function CursorAt(col: nat, line: nat): nat {
    var index := line * WIDTH + col * FONT_WIDTH;
    if index >= MATRIX then 0 else index
  }

  predicate GlyphFits(cursor: nat) {
    cursor + FONT_WIDTH <= MATRIX
  }

  /** Of all byte-sized columns and lines, exactly three put the cursor where the next glyph overruns the buffer. */
  lemma OverrunsExactlyAt(col: nat, line: nat)
    requires col < 256 && line < 256
    ensures !GlyphFits(CursorAt(col, line)) <==> (col, line) in {(85, 0), (42, 2), (21, 3)}
  {
  }

  /** What the bytes behind the buffer hold after `glyph` was drawn at the cursor. */
  function Spilled(behind: seq<bv8>, cursor: nat, glyph: seq<bv8>): (r: seq<bv8>)
    ensures |r| == |behind|
  {
    seq(|behind|, j requires 0 <= j < |behind| =>
      if cursor <= MATRIX + j < cursor + |glyph| then glyph[MATRIX + j - cursor] else behind[j])
  }

  /** The six bytes under a glyph at the cursor, which may reach behind the buffer. */
  function Under(b: seq<bv8>, behind: seq<bv8>, cursor: nat): (bytes: seq<bv8>)
    requires |b| == MATRIX && |behind| == FONT_WIDTH && cursor < MATRIX
    ensures |bytes| == FONT_WIDTH
    ensures forall i :: 0 <= i < FONT_WIDTH ==> bytes[i] == if cursor + i < MATRIX then b[cursor + i] else behind[cursor + i - MATRIX]
  {
    (b + behind)[cursor..cursor + FONT_WIDTH]
  }

  /** Drawing at the cursor leaves the bytes behind the buffer alone, whatever they and the glyph are, exactly when the glyph fits. */
  lemma SpillsIff(cursor: nat)
    requires cursor < MATRIX
    ensures (forall behind: seq<bv8>, glyph: seq<bv8> :: |behind| == FONT_WIDTH && |glyph| == FONT_WIDTH ==>
               Spilled(behind, cursor, glyph) == behind)
            <==> GlyphFits(cursor)
  {
    if !GlyphFits(cursor) {
      var behind: seq<bv8>, glyph: seq<bv8> := seq(FONT_WIDTH, _ => 0), seq(FONT_WIDTH, _ => 1);
      assert Spilled(behind, cursor, glyph)[0] == 1;
    }
  }

  /** The cursor moves on to a place where a glyph fits, wherever it was. */
  lemma NextFits(cursor: nat)
    requires cursor < MATRIX
    ensures GlyphFits(NextCursor(cursor))
  {
  }

  /** Marking a block dirty; a mark beyond the last block is masked off before it is looked at. */
  function Marked(dirty: seq<bool>, u: nat): (d: seq<bool>)
    ensures |d| == |dirty|
  {
    if u < |dirty| then dirty[u := true] else dirty
  }

  /** `st7565_advance_char`: the next glyph position, skipping a page end too narrow for a glyph. */
  function NextCursor(cursor: nat): nat {
    var next := cursor + FONT_WIDTH;
    var next' := if WIDTH - next % WIDTH < FONT_WIDTH then next / WIDTH * WIDTH + WIDTH else next;
    if next' >= MATRIX then 0 else next'
  }

  /** Column `i` of the picture of a character. */
  function Column(font: seq<bv8>, code: nat, invert: bool, i: nat): bv8
    requires |font| >= (FONT_END + 1) * FONT_WIDTH && i < FONT_WIDTH
  {
    var plain := if code <= FONT_END then font[FONT_WIDTH * code + i] else 0;
    if invert then !plain else plain
  }

  /** The six bytes drawn for a character code: blank outside the font, complemented if inverted. */
  function Glyph(font: seq<bv8>, code: nat, invert: bool): (g: seq<bv8>)
    requires |font| >= (FONT_END + 1) * FONT_WIDTH
    ensures |g| == FONT_WIDTH
    ensures forall i :: 0 <= i < FONT_WIDTH ==> g[i] == Column(font, code, invert, i)
  {
    var plain := if code > FONT_END then seq(FONT_WIDTH, _ => 0 as bv8) else font[code * FONT_WIDTH..code * FONT_WIDTH + FONT_WIDTH];
    if invert then seq(FONT_WIDTH, i requires 0 <= i < FONT_WIDTH => !plain[i]) else plain
  }

  /** `bytes` written over `b` from `at` on, as far as it reaches. */
  function Overlay(b: seq<bv8>, at: nat, bytes: seq<bv8>): (r: seq<bv8>)
    ensures |r| == |b|
    ensures forall k :: 0 <= k < |b| ==> r[k] == if at <= k < at + |bytes| then bytes[k - at] else b[k]
  {
    seq(|b|, k requires 0 <= k < |b| => if at <= k < at + |bytes| then bytes[k - at] else b[k])
  }

  /** A glyph drawn at the cursor. */
  function Put(b: seq<bv8>, cursor: nat, glyph: seq<bv8>): (seq<bv8>, nat) {
    (Overlay(b, cursor, glyph), NextCursor(cursor))
  }

  function PutBlanks(font: seq<bv8>, b: seq<bv8>, cursor: nat, n: nat): (seq<bv8>, nat)
    requires |font| >= (FONT_END + 1) * FONT_WIDTH
    decreases n
  {
    if n == 0 then (b, cursor)
    else
      var (b1, c1) := Put(b, cursor, Glyph(font, SPACE, false));
      PutBlanks(font, b1, c1, n - 1)
  }

  /** `st7565_advance_page`: blanks to the end of the page, or just the next page. */
  function Paged(font: seq<bv8>, b: seq<bv8>, cursor: nat, clearRemainder: bool): (seq<bv8>, nat)
    requires |font| >= (FONT_END + 1) * FONT_WIDTH
  {
    var remaining := WIDTH - cursor % WIDTH;
    if clearRemainder then PutBlanks(font, b, cursor, remaining / FONT_WIDTH)
    else (b, if cursor + remaining >= MATRIX then 0 else cursor + remaining)
  }

  function Written(font: seq<bv8>, b: seq<bv8>, cursor: nat, code: nat, invert: bool): (seq<bv8>, nat)
    requires |font| >= (FONT_END + 1) * FONT_WIDTH
  {
    if code == NEWLINE then Paged(font, b, cursor, true)
    else if code == RETURN then Paged(font, b, cursor, false)
    else Put(b, cursor, Glyph(font, code, invert))
  }

  /** Where the page of the cursor ends. */
  lemma PageEnd(cursor: nat)
    requires cursor < MATRIX
    ensures cursor + (WIDTH - cursor % WIDTH) == cursor / WIDTH * WIDTH + WIDTH <= MATRIX
    ensures cursor < (cursor / WIDTH * WIDTH + WIDTH) || cursor == 0
    ensures (cursor / WIDTH * WIDTH + WIDTH) % MATRIX == if cursor / WIDTH * WIDTH + WIDTH == MATRIX then 0 else cursor / WIDTH * WIDTH + WIDTH
  {
  }

  /** One glyph further on the same page. */
  lemma NextOnPage(cursor: nat)
    requires cursor < MATRIX && WIDTH - cursor % WIDTH >= 2 * FONT_WIDTH
    ensures var c := NextCursor(cursor);
            c == cursor + FONT_WIDTH && c < MATRIX && c / WIDTH == cursor / WIDTH && c % WIDTH == cursor % WIDTH + FONT_WIDTH
  {
  }

  /** The last glyph of a page. */
  lemma NextPageAfter(cursor: nat)
    requires cursor < MATRIX && FONT_WIDTH <= WIDTH - cursor % WIDTH < 2 * FONT_WIDTH
    ensures NextCursor(cursor) == (cursor / WIDTH * WIDTH + WIDTH) % MATRIX
  {
    PageEnd(cursor);
  }

  lemma {:induction false} BlanksEndPage(font: seq<bv8>, b: seq<bv8>, cursor: nat, n: nat)
    requires |font| >= (FONT_END + 1) * FONT_WIDTH
    requires cursor < MATRIX && n == (WIDTH - cursor % WIDTH) / FONT_WIDTH && n > 0
    ensures PutBlanks(font, b, cursor, n).1 == (cursor / WIDTH * WIDTH + WIDTH) % MATRIX
    decreases n
  {
    var (b1, c1) := Put(b, cursor, Glyph(font, SPACE, false));
    if n > 1 {
      NextOnPage(cursor);
      BlanksEndPage(font, b1, c1, n - 1);
    } else {
      NextPageAfter(cursor);
    }
  }

  /** The cursor cells of a line are six bytes apart and hold 21 characters; writing one moves to the next cell, and behind the last to the next line. */
  lemma CursorGrid(col: nat, line: nat)
    requires col <= 20 && line <= 3
    ensures CursorAt(col, line) == 128 * line + 6 * col && GlyphFits(CursorAt(col, line))
    ensures NextCursor(CursorAt(col, line)) == if col < 20 then CursorAt(col + 1, line) else CursorAt(0, (line + 1) % 4)
  {
  }

  /** Blanks fill the cells from the cursor on with the picture of a space, and change nothing else. */
  lemma {:induction false} BlanksFill(font: seq<bv8>, b: seq<bv8>, cursor: nat, n: nat, k: nat)
    requires |font| >= (FONT_END + 1) * FONT_WIDTH && |b| == MATRIX && cursor < MATRIX && k < MATRIX
    requires n <= (WIDTH - cursor % WIDTH) / FONT_WIDTH
    ensures |PutBlanks(font, b, cursor, n).0| == MATRIX
    ensures PutBlanks(font, b, cursor, n).0[k] ==
            if cursor <= k < cursor + FONT_WIDTH * n then font[FONT_WIDTH * SPACE + (k - cursor) % FONT_WIDTH] else b[k]
    decreases n
  {
    if n > 0 {
      var (b1, c1) := Put(b, cursor, Glyph(font, SPACE, false));
      if n > 1 {
        NextOnPage(cursor);
        BlanksFill(font, b1, c1, n - 1, k);
        NextCell(k - c1);
      } else {
        assert PutBlanks(font, b1, c1, 0) == (b1, c1);
        NextCell(k - cursor - FONT_WIDTH);
      }
    }
  }

  lemma NextCell(x: int)
    ensures (x + FONT_WIDTH) % FONT_WIDTH == x % FONT_WIDTH
    ensures 0 <= x + FONT_WIDTH < FONT_WIDTH ==> (x + FONT_WIDTH) % FONT_WIDTH == x + FONT_WIDTH
  {
  }

  /** Newline blanks the rest of the page, in whole cells; return changes no byte. */
  lemma NewlineBlanks(font: seq<bv8>, b: seq<bv8>, cursor: nat, invert: bool, k: nat)
    requires |font| >= (FONT_END + 1) * FONT_WIDTH && |b| == MATRIX && cursor < MATRIX && k < MATRIX
    ensures Written(font, b, cursor, RETURN, invert).0 == b
    ensures |Written(font, b, cursor, NEWLINE, invert).0| == MATRIX
    ensures Written(font, b, cursor, NEWLINE, invert).0[k] ==
            if cursor <= k < cursor + (WIDTH - cursor % WIDTH) / FONT_WIDTH * FONT_WIDTH
            then font[FONT_WIDTH * SPACE + (k - cursor) % FONT_WIDTH] else b[k]
  {
    BlanksFill(font, b, cursor, (WIDTH - cursor % WIDTH) / FONT_WIDTH, k);
  }

  /** Any other code draws the six columns of its character from the font, blank behind its end and complemented if inverted, and moves on. */
  lemma CharacterDrawn(font: seq<bv8>, b: seq<bv8>, cursor: nat, code: nat, invert: bool, k: nat)
    requires |font| >= (FONT_END + 1) * FONT_WIDTH && |b| == MATRIX && cursor < MATRIX && k < MATRIX
    requires code != NEWLINE && code != RETURN
    ensures var r := Written(font, b, cursor, code, invert);
            && |r.0| == MATRIX && r.1 == NextCursor(cursor)
            && r.0[k] == (if !(cursor <= k < cursor + 6) then b[k]
                          else if code <= 223 then (if invert then !font[6 * code + (k - cursor)] else font[6 * code + (k - cursor)])
                          else if invert then 0xFF else 0)
  {
  }

  /** Newline and return both end at the start of the next page, wrapping to the top, unless no glyph fits before the page end. */
  lemma LineEndsMeet(font: seq<bv8>, b: seq<bv8>, cursor: nat, invert: bool)
    requires |font| >= (FONT_END + 1) * FONT_WIDTH && cursor < MATRIX
    ensures Written(font, b, cursor, RETURN, invert).1 == (cursor / WIDTH * WIDTH + WIDTH) % MATRIX
    ensures Written(font, b, cursor, NEWLINE, invert).1 == (cursor / WIDTH * WIDTH + WIDTH) % MATRIX
            <==> WIDTH - cursor % WIDTH >= FONT_WIDTH
  {
    PageEnd(cursor);
    if WIDTH - cursor % WIDTH >= FONT_WIDTH {
      BlanksEndPage(font, b, cursor, (WIDTH - cursor % WIDTH) / FONT_WIDTH);
    }
  }

  lemma PutBlanksStep(font: seq<bv8>, b: seq<bv8>, cursor: nat, n: nat)
    requires |font| >= (FONT_END + 1) * FONT_WIDTH && n > 0
    ensures var (b1, c1) := Put(b, cursor, Glyph(font, SPACE, false));
            PutBlanks(font, b, cursor, n) == PutBlanks(font, b1, c1, n - 1)
  {
  }

  lemma NotSpilled(behind: seq<bv8>, cursor: nat, glyph: seq<bv8>)
    requires GlyphFits(cursor) && |glyph| == FONT_WIDTH
    ensures Spilled(behind, cursor, glyph) == behind
  {
  }

  /** Marking the first and the last block of a changed glyph keeps every difference to the panel in a dirty block. */
  lemma GlyphKeepsCoherent(b: seq<bv8>, dirty: seq<bool>, shown: seq<bv8>, cursor: nat, glyph: seq<bv8>, same: bool)
    requires |b| == |shown| == MATRIX && |dirty| == BLOCKS && cursor < MATRIX && |glyph| == FONT_WIDTH
    requires forall i :: 0 <= i < MATRIX && b[i] != shown[i] ==> dirty[i / BLOCK]
    requires same ==> Overlay(b, cursor, glyph) == b
    ensures var d := if same then dirty else Marked(Marked(dirty, cursor / BLOCK), (cursor + FONT_WIDTH - 1) / BLOCK);
            forall i :: 0 <= i < MATRIX && Overlay(b, cursor, glyph)[i] != shown[i] ==> d[i / BLOCK]
  {
    var r := Overlay(b, cursor, glyph);
    var d := if same then dirty else Marked(Marked(dirty, cursor / BLOCK), (cursor + FONT_WIDTH - 1) / BLOCK);
    forall i | 0 <= i < MATRIX && r[i] != shown[i]
      ensures d[i / BLOCK]
    {
      if !same && cursor <= i < cursor + FONT_WIDTH {
        assert i / BLOCK == cursor / BLOCK || i / BLOCK == (cursor + FONT_WIDTH - 1) / BLOCK;
      }
    }
  }

  /** Overlaying a glyph changes the buffer exactly when it changes the bytes under it. */
  lemma OverlaySame(b: seq<bv8>, at: nat, bytes: seq<bv8>)
    requires at + |bytes| <= |b|
    ensures Overlay(b, at, bytes)[at..at + |bytes|] == bytes
    ensures Overlay(b, at, bytes) == b <==> b[at..at + |bytes|] == bytes
  {
    if b[at..at + |bytes|] == bytes {
      assert forall k :: at <= k < at + |bytes| ==> b[k] == b[at..at + |bytes|][k - at];
    }
  }

  lemma PannedInRow(y: nat)
    requires y < MATRIX / WIDTH
    ensures forall k :: y * WIDTH <= k < y * WIDTH + WIDTH ==>
              && PannedFrom(true, k) == (if k == y * WIDTH + WIDTH - 1 then k else k + 1)
              && PannedFrom(false, k) == (if k == y * WIDTH then k else k - 1)
  {
    forall k | y * WIDTH <= k < y * WIDTH + WIDTH
      ensures k % WIDTH == k - y * WIDTH
    {
    }
  }

  /** The position whose byte a pan moves to position `i`. */
  function PannedFrom(left: bool, i: nat): (j: nat)
    requires i < MATRIX
    ensures j < MATRIX
  {
    if left then (if i % WIDTH == WIDTH - 1 then i else i + 1)
    else if i % WIDTH == 0 then i else i - 1
  }

  lemma PixelBit(x: bv8, k: nat, on: bool, j: nat)
    requires k < 8 && j < 8
    ensures Bit(WithBit(x, k, on), j) == if j == k then on else Bit(x, j)
  {
  }

  /** The byte with bit `k` set or cleared. */
  function WithBit(x: bv8, k: nat, on: bool): bv8
    requires k < 8
  {
    if on then x | Mask(k) else x & !Mask(k)
  }

  /** The picture after `st7565_write_pixel`. */
  function Plotted(b: seq<bv8>, x: nat, y: nat, on: bool): (r: seq<bv8>)
    requires |b| == MATRIX
  {
    var index := x + y / 8 * WIDTH;
    if x >= WIDTH || index >= MATRIX then b else b[index := WithBit(b[index], y % 8, on)]
  }

  /** Drawing a pixel changes that pixel of the picture and no other, and nothing when it lies outside. */
  lemma PlotsOnePixel(b: seq<bv8>, x: nat, y: nat, on: bool, px: nat, py: nat)
    requires |b| == MATRIX && px < WIDTH && py < MATRIX / WIDTH * 8
    ensures |Plotted(b, x, y, on)| == MATRIX
    ensures Pixel(Plotted(b, x, y, on), px, py) == if px == x && py == y then on else Pixel(b, px, py)
  {
    if x < WIDTH && x + y / 8 * WIDTH < MATRIX {
      SameByte(x, y, px, py);
      PixelBit(b[x + y / 8 * WIDTH], y % 8, on, py % 8);
    }
  }

  /** The pixel in column `x` and row `y`. */
  predicate Pixel(b: seq<bv8>, x: nat, y: nat)
    requires |b| == MATRIX && x < WIDTH && y < MATRIX / WIDTH * 8
  {
    Bit(b[x + y / 8 * WIDTH], y % 8)
  }

  lemma SameByte(x: nat, y: nat, px: nat, py: nat)
    requires x < WIDTH && px < WIDTH
    ensures x + y / 8 * WIDTH == px + py / 8 * WIDTH <==> x == px && y / 8 == py / 8
    ensures y / 8 == py / 8 && y % 8 == py % 8 <==> y == py
  {
  }

  datatype Call =
    | ClearCall
    | CursorCall(col: nat, line: nat)
    | CharCall(code: nat, invert: bool)
    | RawCall(data: seq<bv8>)
    | ByteCall(c: bv8, index: nat)
    | PixelCall(x: nat, y: nat, on: bool)
    | PanCall(left: bool)
    | RenderCall

  /** The calls that keep to the buffer. */
  predicate Legal(call: Call) {
    match call
    case CursorCall(col, line) => GlyphFits(CursorAt(col, line))
    case ByteCall(_, index) => index < MATRIX
    case _ => true
  }

  class Driver {
    const buffer: array<bv8>
    /** The memory right behind the buffer. */
    const behind: array<bv8>
    const font: seq<bv8>
    var cursor: nat
    var dirty: seq<bool>
    var panel: Panel

    /** Every byte where the panel differs from the buffer lies in a dirty block. */
    ghost predicate Coherent()
      requires buffer.Length == MATRIX && |dirty| == BLOCKS && |panel.memory| == MATRIX
      reads this, buffer
    {
      forall i :: 0 <= i < MATRIX && buffer[i] != panel.memory[i] ==> dirty[i / BLOCK]
    }

    ghost predicate Valid()
      reads this, buffer
    {
      && behind != buffer && behind.Length == FONT_WIDTH
      && buffer.Length == MATRIX && |dirty| == BLOCKS && |panel.memory| == MATRIX
      && |font| >= (FONT_END + 1) * FONT_WIDTH
      && cursor < MATRIX
      && Coherent()
    }

    /** `st7565_init`: whatever the panel shows at power-up, everything is dirty. */
    constructor (font: seq<bv8>, panel: Panel)
      requires |font| >= (FONT_END + 1) * FONT_WIDTH && |panel.memory| == MATRIX
      ensures Valid() && fresh(buffer) && fresh(behind) && this.panel == panel && GlyphFits(cursor)
    {
      buffer := new bv8[MATRIX](_ => 0);
      behind := new bv8[FONT_WIDTH](_ => 0);
      this.font := font;
      cursor := 0;
      dirty := seq(BLOCKS, _ => true);
      this.panel := panel;
    }

    method Clear()
      requires Valid()
      modifies this`cursor, this`dirty, buffer
      ensures Valid()
      ensures forall i :: 0 <= i < MATRIX ==> buffer[i] == 0
      ensures cursor == 0
    {
      for i := 0 to MATRIX
        invariant forall k :: 0 <= k < i ==> buffer[k] == 0
      {
        buffer[i] := 0;
      }
      cursor := 0;
      dirty := seq(BLOCKS, _ => true);
    }

    method SetCursor(col: nat, line: nat)
      requires Valid()
      modifies this`cursor
      ensures Valid() && cursor == CursorAt(col, line)
    {
      var index := line * WIDTH + col * FONT_WIDTH;
      if index >= MATRIX {
        index := 0;
      }
      cursor := index;
    }

    /** Store one byte, marking its block if it changed. */
    method Poke(i: nat, c: bv8)
      requires Valid() && i < MATRIX
      modifies this`dirty, buffer
      ensures Valid()
      ensures buffer[..] == old(buffer[..])[i := c]
      ensures dirty == if old(buffer[i]) == c then old(dirty) else old(dirty)[i / BLOCK := true]
    {
      if buffer[i] == c {
        assert buffer[..] == old(buffer[..])[i := c];
        return;
      }
      buffer[i] := c;
      dirty := dirty[i / BLOCK := true];
    }

    /** Block `u`, the first dirty one of `before`, now shows the buffer and is clean; the rest of the panel is `shown`. */
    ghost predicate SentBlock(u: nat, before: seq<bool>, shown: seq<bv8>)
      requires Valid() && u < BLOCKS && |before| == BLOCKS && |shown| == MATRIX
      reads this, buffer
    {
      && before[u] && (forall k :: 0 <= k < u ==> !before[k]) && dirty == before[u := false]
      && forall i :: 0 <= i < MATRIX ==> panel.memory[i] == if i / BLOCK == u then buffer[i] else shown[i]
    }

    /** `st7565_render`: send the first dirty block, if any. */
    method Render() returns (sent: bool)
      requires Valid()
      modifies this`dirty, this`panel
      ensures Valid()
      ensures sent <==> old(Count(dirty)) > 0
      ensures sent ==> Count(dirty) == old(Count(dirty)) - 1
      ensures sent ==> exists u :: 0 <= u < BLOCKS && SentBlock(u, old(dirty), old(panel.memory))
      ensures !sent ==> panel == old(panel) && dirty == old(dirty)
    {
      var u := 0;
      while u < BLOCKS && !dirty[u]
        invariant u <= BLOCKS && forall k :: 0 <= k < u ==> !dirty[k]
      {
        u := u + 1;
      }
      if u == BLOCKS {
        assert Count(dirty) == 0 by { NoneDirty(dirty); }
        return false;
      }
      SendBlock(u);
      return true;
    }

    /** Address the panel and send the bytes of block `u`, the first dirty one. */
    method SendBlock(u: nat)
      requires Valid() && u < BLOCKS && dirty[u] && forall k :: 0 <= k < u ==> !dirty[k]
      modifies this`dirty, this`panel
      ensures Valid() && SentBlock(u, old(dirty), old(panel.memory))
      ensures Count(dirty) == old(Count(dirty)) - 1
    {
      DataAtBlock(panel, u, buffer[BLOCK * u..BLOCK * u + BLOCK]);
      CountCleared(dirty, u);
      panel := Data(Address(panel, u), buffer[BLOCK * u..BLOCK * u + BLOCK]);
      dirty := dirty[u := false];
    }

    /** Rendering once per dirty bit makes the panel show the buffer. */
    method RenderAll()
      requires Valid()
      modifies this`dirty, this`panel
      ensures Valid() && panel.memory == buffer[..] && Count(dirty) == 0
    {
      var n := Count(dirty);
      for i := 0 to n
        invariant Valid() && Count(dirty) == n - i
      {
        var sent := Render();
      }
      CountZero(dirty);
    }

    /** `st7565_advance_char`. */
    method AdvanceChar()
      requires Valid()
      modifies this`cursor
      ensures Valid() && cursor == NextCursor(old(cursor))
    {
      var next := cursor + FONT_WIDTH;
      var remaining := WIDTH - next % WIDTH;
      if remaining < FONT_WIDTH {
        next := next + remaining;
      }
      if next >= MATRIX {
        next := 0;
      }
      cursor := next;
    }

    /** Copy bytes into the buffer from the cursor on; the caller marks the blocks. */
    method CopyToCursor(glyph: seq<bv8>)
      requires buffer.Length == MATRIX && behind.Length == FONT_WIDTH && buffer != behind
      requires cursor < MATRIX && |glyph| == FONT_WIDTH
      modifies buffer, behind
      ensures buffer[..] == Overlay(old(buffer[..]), cursor, glyph)
      ensures behind[..] == Spilled(old(behind[..]), cursor, glyph)
    {
      for i := 0 to FONT_WIDTH
        invariant forall k :: 0 <= k < MATRIX ==>
          buffer[k] == if cursor <= k < cursor + i then glyph[k - cursor] else old(buffer[..])[k]
        invariant forall j :: 0 <= j < FONT_WIDTH ==>
          behind[j] == if cursor <= MATRIX + j < cursor + i then glyph[MATRIX + j - cursor] else old(behind[..])[j]
      {
        if cursor + i < MATRIX {
          buffer[cursor + i] := glyph[i];
        } else {
          behind[cursor + i - MATRIX] := glyph[i];
        }
      }
    }

    /** The six bytes at the cursor, which may reach behind the buffer. */
    method BytesAtCursor() returns (bytes: seq<bv8>)
      requires Valid()
      ensures bytes == Under(buffer[..], behind[..], cursor)
    {
      bytes := (buffer[..] + behind[..])[cursor..cursor + FONT_WIDTH];
    }

    /** The part of `st7565_write_char` that draws: any code but newline and return. */
    method PutGlyph(code: nat, invert: bool)
      requires Valid()
      modifies this`cursor, this`dirty, buffer, behind
      ensures Valid() && GlyphFits(cursor)
      ensures (buffer[..], cursor) == Put(old(buffer[..]), old(cursor), Glyph(font, code, invert))
      ensures behind[..] == Spilled(old(behind[..]), old(cursor), Glyph(font, code, invert))
      ensures dirty == if Under(old(buffer[..]), old(behind[..]), old(cursor)) == Glyph(font, code, invert) then old(dirty)
                       else Marked(Marked(old(dirty), old(cursor) / BLOCK), (old(cursor) + FONT_WIDTH - 1) / BLOCK)
    {
      var glyph := Glyph(font, code, invert);
      var was := BytesAtCursor();
      CopyToCursor(glyph);
      if was != glyph {
        dirty := Marked(dirty, cursor / BLOCK);
        // the glyph may span two blocks
        dirty := Marked(dirty, (cursor + FONT_WIDTH - 1) / BLOCK);
      }
      GlyphKeepsCoherent(old(buffer[..]), old(dirty), panel.memory, cursor, glyph, was == glyph);
      assert forall i :: 0 <= i < MATRIX ==> buffer[i] == buffer[..][i];
      NextFits(cursor);
      AdvanceChar();
    }

    /** The body of the loop below. */
    method PutSpace(ghost remaining: nat)
      requires Valid() && GlyphFits(cursor) && remaining > 0
      modifies this`cursor, this`dirty, buffer, behind
      ensures Valid() && GlyphFits(cursor) && behind[..] == old(behind[..])
      ensures PutBlanks(font, buffer[..], cursor, remaining - 1) == PutBlanks(font, old(buffer[..]), old(cursor), remaining)
    {
      PutBlanksStep(font, buffer[..], cursor, remaining);
      NotSpilled(behind[..], cursor, Glyph(font, SPACE, false));
      PutGlyph(SPACE, false);
    }

    /** The loop of `st7565_advance_page` that blanks the rest of the line. */
    method PutSpaces(n: nat)
      requires Valid() && (n > 0 ==> GlyphFits(cursor))
      modifies this`cursor, this`dirty, buffer, behind
      ensures Valid() && (n > 0 ==> GlyphFits(cursor))
      ensures (buffer[..], cursor) == PutBlanks(font, old(buffer[..]), old(cursor), n)
      ensures behind[..] == old(behind[..])
    {
      ghost var target := PutBlanks(font, buffer[..], cursor, n);
      var remaining := n;
      while remaining > 0
        invariant Valid() && 0 <= remaining <= n && (n > 0 ==> GlyphFits(cursor))
        invariant target == PutBlanks(font, buffer[..], cursor, remaining)
        invariant behind[..] == old(behind[..])
      {
        PutSpace(remaining);
        remaining := remaining - 1;
      }
    }

    /** `st7565_advance_page`. */
    method AdvancePage(clearRemainder: bool)
      requires Valid()
      modifies this`cursor, this`dirty, buffer, behind
      ensures Valid() && (old(GlyphFits(cursor)) ==> GlyphFits(cursor))
      ensures (buffer[..], cursor) == Paged(font, old(buffer[..]), old(cursor), clearRemainder)
      ensures behind[..] == old(behind[..])
    {
      PageEnd(cursor);
      var remaining := WIDTH - cursor % WIDTH;
      if clearRemainder {
        PutSpaces(remaining / FONT_WIDTH);
      } else {
        var index := cursor;
        if index + remaining >= MATRIX {
          index := 0;
          remaining := 0;
        }
        cursor := index + remaining;
      }
    }

    /** `st7565_write_char`. */
    method WriteChar(code: nat, invert: bool)
      requires Valid()
      modifies this`cursor, this`dirty, buffer, behind
      ensures Valid() && (old(GlyphFits(cursor)) ==> GlyphFits(cursor))
      ensures (buffer[..], cursor) == Written(font, old(buffer[..]), old(cursor), code, invert)
      ensures behind[..] == if code == NEWLINE || code == RETURN then old(behind[..])
                            else Spilled(old(behind[..]), old(cursor), Glyph(font, code, invert))
    {
      if code == NEWLINE {
        AdvancePage(true);
      } else if code == RETURN {
        AdvancePage(false);
      } else {
        PutGlyph(code, invert);
      }
    }

    /** `st7565_write_raw`: from the cursor, cut to the end of the buffer. */
    method WriteRaw(data: seq<bv8>)
      requires Valid()
      modifies this`dirty, buffer
      ensures Valid()
      ensures buffer[..] == Overlay(old(buffer[..]), cursor, data)
    {
      var size := |data|;
      if size + cursor > MATRIX {
        size := MATRIX - cursor;
      }
      for i := 0 to size
        invariant Valid()
        invariant forall k :: 0 <= k < MATRIX ==>
          buffer[k] == if cursor <= k < cursor + i then data[k - cursor] else old(buffer[..])[k]
      {
        Poke(cursor + i, data[i]);
      }
    }

    /** `st7565_write_raw_byte`: an index outside the buffer is cut to the byte right behind it. */
    method WriteRawByte(c: bv8, index: nat)
      requires Valid()
      modifies this`dirty, buffer, behind
      ensures Valid()
      ensures buffer[..] == if index < MATRIX then old(buffer[..])[index := c] else old(buffer[..])
      ensures behind[..] == if index < MATRIX then old(behind[..]) else old(behind[..])[0 := c]
    {
      var at := if index > MATRIX then MATRIX else index;
      if at < MATRIX {
        Poke(at, c);
      } else if behind[0] != c {
        behind[0] := c;
        // the mark for the block behind the last one is masked off before it is looked at
        dirty := Marked(dirty, at / BLOCK);
      }
    }

    /** `st7565_write_pixel`: one bit of one byte, or nothing outside the display. */
    method WritePixel(x: nat, y: nat, on: bool)
      requires Valid()
      modifies this`dirty, buffer
      ensures Valid()
      ensures buffer[..] == Plotted(old(buffer[..]), x, y, on)
    {
      if x >= WIDTH {
        return;
      }
      var index := x + y / 8 * WIDTH;
      if index >= MATRIX {
        return;
      }
      Poke(index, WithBit(buffer[index], y % 8, on));
    }

    /** Any sequence of drawing and rendering calls keeps the driver coherent; legal ones leave the memory behind the buffer alone. */
    method Perform(calls: seq<Call>)
      requires Valid()
      modifies this`cursor, this`dirty, this`panel, buffer, behind
      ensures Valid()
      ensures old(GlyphFits(cursor)) && (forall i :: 0 <= i < |calls| ==> Legal(calls[i])) ==> behind[..] == old(behind[..])
    {
      ghost var legal := GlyphFits(cursor) && (forall i :: 0 <= i < |calls| ==> Legal(calls[i]));
      for i := 0 to |calls|
        invariant Valid()
        invariant legal ==> GlyphFits(cursor) && behind[..] == old(behind[..])
      {
        match calls[i]
        case ClearCall => Clear();
        case CursorCall(col, line) => SetCursor(col, line);
        case CharCall(code, invert) =>
          if GlyphFits(cursor) {
            NotSpilled(behind[..], cursor, Glyph(font, code, invert));
          }
          WriteChar(code, invert);
        case RawCall(data) => WriteRaw(data);
        case ByteCall(c, index) => WriteRawByte(c, index);
        case PixelCall(x, y, on) => WritePixel(x, y, on);
        case PanCall(left) => Pan(left);
        case RenderCall => var sent := Render();
      }
    }

    /** `st7565_pan`: every page shifts by one column; its last (or first) column stays. */
    method Pan(left: bool)
      requires Valid()
      modifies this`dirty, buffer
      ensures Valid()
      ensures forall i :: 0 <= i < MATRIX ==> buffer[i] == old(buffer[..])[PannedFrom(left, i)]
    {
      for y := 0 to MATRIX / WIDTH
        invariant forall k :: 0 <= k < MATRIX ==> buffer[k] == old(buffer[..])[if k < y * WIDTH then PannedFrom(left, k) else k]
      {
        if left {
          PanRowLeft(y);
        } else {
          PanRowRight(y);
        }
      }
      dirty := seq(BLOCKS, _ => true);
    }

    method PanRowLeft(y: nat)
      requires buffer.Length == MATRIX && y < MATRIX / WIDTH
      modifies buffer
      ensures forall k :: 0 <= k < MATRIX ==>
                buffer[k] == old(buffer[..])[if y * WIDTH <= k < y * WIDTH + WIDTH then PannedFrom(true, k) else k]
    {
      for x := 0 to WIDTH - 1
        invariant forall k :: 0 <= k < MATRIX ==>
          buffer[k] == old(buffer[..])[if y * WIDTH <= k < y * WIDTH + x then k + 1 else k]
      {
        var i := y * WIDTH + x;
        buffer[i] := buffer[i + 1];
      }
      PannedInRow(y);
    }

    method PanRowRight(y: nat)
      requires buffer.Length == MATRIX && y < MATRIX / WIDTH
      modifies buffer
      ensures forall k :: 0 <= k < MATRIX ==>
                buffer[k] == old(buffer[..])[if y * WIDTH <= k < y * WIDTH + WIDTH then PannedFrom(false, k) else k]
    {
      for x := WIDTH - 1 downto 0
        invariant forall k :: 0 <= k < MATRIX ==>
          buffer[k] == old(buffer[..])[if y * WIDTH + x < k < y * WIDTH + WIDTH then k - 1 else k]
      {
        var i := y * WIDTH + x + 1;
        buffer[i] := buffer[i - 1];
      }
      PannedInRow(y);
    }
  }

  lemma {:induction false} NoneDirty(d: seq<bool>)
    requires forall u :: 0 <= u < |d| ==> !d[u]
    ensures Count(d) == 0
  {
    if d != [] {
      NoneDirty(d[..|d| - 1]);
    }
  }
}

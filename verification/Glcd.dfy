// oled.c: row-major glyphs drawn into the page-packed 128x64 buffer, in white or in black.
module Glcd {
  import opened Bits
  import opened Grid
  import opened NanoCanvas
  import opened Picture

  const DISPLAY_WIDTH: nat := 128
  const DISPLAY_HEIGHT: nat := 64
  const BLACK: nat := 0
  const WHITE: nat := 0xFF

  function BytesWidth(w: nat): nat {
    if w % 8 > 0 then w / 8 + 1 else w / 8
  }

  // Column dx of a row of bytes, the lowest bit of each byte leftmost.
  predicate RowBit(row: seq<bv8>, dx: nat) {
    dx / 8 < |row| && Bit(row[dx / 8], dx % 8)
  }

  function GlyphRow(bitmap: seq<bv8>, w: nat, dy: nat): (row: seq<bv8>)
    ensures |row| == BytesWidth(w) || row == []
  {
    var at := dy * BytesWidth(w);
    if at + BytesWidth(w) <= |bitmap| then bitmap[at..at + BytesWidth(w)] else []
  }

  // Where drawing at (x, y) gets to on a display of lw by lh pixels before it meets a bit outside of it,
  // padding bits included: all rows on the display, or, if the rows do not fit, a part of the first.
  predicate Reached(lw: nat, lh: nat, x: int, y: int, w: nat, dx: nat, dy: nat) {
    x >= 0 && y >= 0
    && (if x + 8 * BytesWidth(w) <= lw then y + dy < lh else dy == 0 && y < lh && x + dx < lw)
  }

  // The pixels one row touches.
  predicate RowBlit(row: seq<bv8>, lw: nat, lh: nat, x: int, y: int, w: nat, px: nat, py: nat) {
    py == y && 0 <= x <= px < x + w && y < lh && px < lw && RowBit(row, px - x)
  }

  // All rows so far were on the display, so there may be a row i.
  predicate RowsFit(lw: nat, lh: nat, x: int, y: int, w: nat, i: nat) {
    i > 0 && w > 0 ==> x >= 0 && y >= 0 && x + 8 * BytesWidth(w) <= lw && y + i <= lh
  }

  // The pixels draw_GLCD touches.
  predicate Blit(bitmap: seq<bv8>, lw: nat, lh: nat, x: int, y: int, w: nat, h: nat, px: nat, py: nat) {
    x <= px < x + w && y <= py < y + h
    && RowBit(GlyphRow(bitmap, w, py - y), px - x) && Reached(lw, lh, x, y, w, px - x, py - y)
  }

  // What draw_GLCD does to the buffer.
  ghost predicate Blitted(a: seq<bv8>, b: seq<bv8>, bitmap: seq<bv8>, lw: nat, lh: nat, x: int, y: int, w: nat, h: nat, ink: bool)
    requires IsImage(a, DISPLAY_WIDTH, DISPLAY_HEIGHT) && IsImage(b, DISPLAY_WIDTH, DISPLAY_HEIGHT)
  {
    forall px: nat, py: nat | px < DISPLAY_WIDTH && py < DISPLAY_HEIGHT ::
      PixOf(b, DISPLAY_WIDTH, DISPLAY_HEIGHT, px, py)
      == if Blit(bitmap, lw, lh, x, y, w, h, px, py) then ink else PixOf(a, DISPLAY_WIDTH, DISPLAY_HEIGHT, px, py)
  }

  class Screen {
    // m_buf is a packed buffer like NanoCanvas's.
    const m_buf: Canvas
    // ssd1306_lcd.width and height
    const lcd_width: nat
    const lcd_height: nat
    var m_color: nat

    ghost predicate Valid() {
      m_buf.Valid() && m_buf.m_w == DISPLAY_WIDTH && m_buf.m_h == DISPLAY_HEIGHT
    }

    constructor (buf: Canvas, lcd_width: nat, lcd_height: nat)
      requires buf.Valid() && buf.m_w == DISPLAY_WIDTH && buf.m_h == DISPLAY_HEIGHT
      ensures Valid() && m_buf == buf && this.lcd_width == lcd_width && this.lcd_height == lcd_height && m_color == WHITE
    {
      m_buf, this.lcd_width, this.lcd_height, m_color := buf, lcd_width, lcd_height, WHITE;
    }

    method PutPixel(x: int, y: int)
      requires Valid()
      modifies m_buf.m_bytes
      ensures forall px: nat, py: nat | m_buf.Inside(px, py) ::
        m_buf.Pix(px, py) == (old(m_buf.Pix(px, py)) || (px == x && py == y))
    {
      if x < 0 || y < 0 { return; }
      if x >= m_buf.m_w || y >= m_buf.m_h { return; }
      BitOne(y % 8);
      m_buf.OrCell(y / 8, x, Shl(1, y % 8));
    }

    method ClearPixel(x: int, y: int)
      requires Valid()
      modifies m_buf.m_bytes
      ensures forall px: nat, py: nat | m_buf.Inside(px, py) ::
        m_buf.Pix(px, py) == (old(m_buf.Pix(px, py)) && !(px == x && py == y))
    {
      if x < 0 || y < 0 { return; }
      if x >= m_buf.m_w || y >= m_buf.m_h { return; }
      BitOne(y % 8);
      BitNot(Shl(1, y % 8));
      m_buf.AndCell(y / 8, x, !Shl(1, y % 8));
    }

    method SetPixel(x: int, y: int)
      requires Valid()
      modifies m_buf.m_bytes
      ensures forall px: nat, py: nat | m_buf.Inside(px, py) ::
        m_buf.Pix(px, py) == if px == x && py == y then m_color != BLACK else old(m_buf.Pix(px, py))
    {
      if m_color == BLACK { ClearPixel(x, y); } else { PutPixel(x, y); }
    }

    // The innermost loop: byte j of a row, first == 8 * j.  A negative coordinate compares as a large
    // unsigned number.
    method DrawByte(x: int, y: int, first: nat, w: nat, dat: bv8) returns (ok: bool)
      requires Valid() && (x >= 0 || first == 0)
      modifies m_buf.m_bytes
      ensures ok == (x >= 0 && 0 <= y < lcd_height && x + first + 8 <= lcd_width)
      ensures forall px: nat, py: nat | m_buf.Inside(px, py) ::
        m_buf.Pix(px, py) == if py == y && x >= 0 && y < lcd_height && px < lcd_width && px < x + w
                                && ColumnBit8(dat, px - x - first) then m_color != BLACK else old(m_buf.Pix(px, py))
    {
      var bit := 0;
      while bit < 8
        invariant 0 <= bit <= 8
        invariant bit > 0 ==> x >= 0 && 0 <= y < lcd_height && x + first + bit <= lcd_width
        invariant forall px: nat, py: nat | m_buf.Inside(px, py) ::
          m_buf.Pix(px, py) == if py == y && px < x + w && px - x - first < bit && ColumnBit8(dat, px - x - first)
                               then m_color != BLACK else old(m_buf.Pix(px, py))
      {
        if x + first + bit < 0 || x + first + bit >= lcd_width || y < 0 || y >= lcd_height {
          return false;
        }
        if first + bit < w && Bit(dat, bit) {
          SetPixel(x + first + bit, y);
        }
        bit := bit + 1;
      }
      ok := true;
    }

    // One row: bytes until one leaves the display.
    method DrawRow(x: int, y: int, w: nat, row: seq<bv8>) returns (ok: bool)
      requires Valid()
      modifies m_buf.m_bytes
      ensures ok == (row == [] || (x >= 0 && 0 <= y < lcd_height && x + 8 * |row| <= lcd_width))
      ensures forall px: nat, py: nat | m_buf.Inside(px, py) ::
        m_buf.Pix(px, py) == if RowBlit(row, lcd_width, lcd_height, x, y, w, px, py) then m_color != BLACK
                             else old(m_buf.Pix(px, py))
    {
      var j := 0;
      while j < |row|
        invariant 0 <= j <= |row|
        invariant j > 0 ==> x >= 0 && 0 <= y < lcd_height && x + 8 * j <= lcd_width
        invariant forall px: nat, py: nat | m_buf.Inside(px, py) ::
          m_buf.Pix(px, py) == if py == y && x <= px < x + w && px - x < 8 * j && RowBit(row, px - x)
                               then m_color != BLACK else old(m_buf.Pix(px, py))
      {
        ok := DrawByte(x, y, 8 * j, w, row[j]);
        RowByte(row, j);
        if !ok { return; }
        j := j + 1;
      }
      ok := true;
    }

    method DrawGlcd(x: int, y: int, w: nat, h: nat, bitmap: seq<bv8>) returns (r: nat)
      requires Valid() && w < 256 && h < 256 && h * BytesWidth(w) <= |bitmap|
      modifies m_buf.m_bytes
      ensures r == if w == 0 || h == 0 || (x >= 0 && y >= 0 && x + 8 * BytesWidth(w) <= lcd_width && y + h <= lcd_height)
                   then w else 0
      ensures Blitted(old(m_buf.m_bytes[..]), m_buf.m_bytes[..], bitmap, lcd_width, lcd_height, x, y, w, h, m_color != BLACK)
    {
      var bytes_width := BytesWidth(w);
      var i := 0;
      r := w;
      while i < h
        invariant 0 <= i <= h && RowsFit(lcd_width, lcd_height, x, y, w, i)
        invariant forall px: nat, py: nat | m_buf.Inside(px, py) ::
          m_buf.Pix(px, py) == if Blit(bitmap, lcd_width, lcd_height, x, y, w, i, px, py) then m_color != BLACK
                               else old(m_buf.Pix(px, py))
      {
        RowInBitmap(bitmap, w, h, i);
        var ok := DrawRow(x, y + i, w, bitmap[i * bytes_width..i * bytes_width + bytes_width]);
        BlitStep(bitmap, lcd_width, lcd_height, x, y, w, h, i);
        if !ok { r := 0; break; }
        i := i + 1;
      }
      m_buf.PixIsPixOf();
    }
  }

  lemma BlitStepAt(bitmap: seq<bv8>, lw: nat, lh: nat, x: int, y: int, w: nat, h: nat, i: nat, px: nat, py: nat)
    requires i < h && RowsFit(lw, lh, x, y, w, i)
    ensures Blit(bitmap, lw, lh, x, y, w, i + 1, px, py)
         == (Blit(bitmap, lw, lh, x, y, w, i, px, py) || RowBlit(GlyphRow(bitmap, w, i), lw, lh, x, y + i, w, px, py))
    ensures !RowsFit(lw, lh, x, y, w, i + 1) ==>
      Blit(bitmap, lw, lh, x, y, w, h, px, py) == Blit(bitmap, lw, lh, x, y, w, i + 1, px, py)
  {
    if py == y + i { assert GlyphRow(bitmap, w, py - y) == GlyphRow(bitmap, w, i); }
  }

  lemma BlitStep(bitmap: seq<bv8>, lw: nat, lh: nat, x: int, y: int, w: nat, h: nat, i: nat)
    requires i < h && RowsFit(lw, lh, x, y, w, i)
    ensures forall px: nat, py: nat {:trigger Blit(bitmap, lw, lh, x, y, w, i + 1, px, py)} ::
      Blit(bitmap, lw, lh, x, y, w, i + 1, px, py)
      == (Blit(bitmap, lw, lh, x, y, w, i, px, py) || RowBlit(GlyphRow(bitmap, w, i), lw, lh, x, y + i, w, px, py))
    ensures !RowsFit(lw, lh, x, y, w, i + 1) ==> forall px: nat, py: nat ::
      Blit(bitmap, lw, lh, x, y, w, h, px, py) == Blit(bitmap, lw, lh, x, y, w, i + 1, px, py)
  {
    forall px: nat, py: nat
      ensures Blit(bitmap, lw, lh, x, y, w, i + 1, px, py)
           == (Blit(bitmap, lw, lh, x, y, w, i, px, py) || RowBlit(GlyphRow(bitmap, w, i), lw, lh, x, y + i, w, px, py))
      ensures !RowsFit(lw, lh, x, y, w, i + 1) ==>
        Blit(bitmap, lw, lh, x, y, w, h, px, py) == Blit(bitmap, lw, lh, x, y, w, i + 1, px, py)
    {
      BlitStepAt(bitmap, lw, lh, x, y, w, h, i, px, py);
    }
  }

  predicate ColumnBit8(d: bv8, k: int) {
    0 <= k < 8 && Bit(d, k)
  }

  // Byte j of a row are its columns from 8 * j on.
  lemma RowByte(row: seq<bv8>, j: nat)
    requires j < |row|
    ensures forall dx: nat | 8 * j <= dx < 8 * j + 8 :: RowBit(row, dx) == ColumnBit8(row[j], dx - 8 * j)
  {
    forall dx: nat | 8 * j <= dx < 8 * j + 8 ensures RowBit(row, dx) == ColumnBit8(row[j], dx - 8 * j) {
      IndexDivMod(8, j, dx - 8 * j);
    }
  }

  lemma RowInBitmap(bitmap: seq<bv8>, w: nat, h: nat, i: nat)
    requires h * BytesWidth(w) <= |bitmap| && i < h
    ensures 0 <= i * BytesWidth(w) && i * BytesWidth(w) + BytesWidth(w) <= |bitmap|
    ensures GlyphRow(bitmap, w, i) == bitmap[i * BytesWidth(w)..i * BytesWidth(w) + BytesWidth(w)]
  {
    Product(i, BytesWidth(w));
    ProductMonotone(i + 1, h, BytesWidth(w));
    ProductStep(i, BytesWidth(w));
  }

  // White and then black at one place, where the glyph's pixels were blank: the buffer is as before.
  lemma EraseRestores(a: seq<bv8>, b: seq<bv8>, c: seq<bv8>, bitmap: seq<bv8>, lw: nat, lh: nat, x: int, y: int, w: nat, h: nat)
    requires IsImage(a, DISPLAY_WIDTH, DISPLAY_HEIGHT) && IsImage(b, DISPLAY_WIDTH, DISPLAY_HEIGHT)
    requires IsImage(c, DISPLAY_WIDTH, DISPLAY_HEIGHT)
    requires Blitted(a, b, bitmap, lw, lh, x, y, w, h, true) && Blitted(b, c, bitmap, lw, lh, x, y, w, h, false)
    ensures c == a <==> forall px: nat, py: nat | px < DISPLAY_WIDTH && py < DISPLAY_HEIGHT ::
      Blit(bitmap, lw, lh, x, y, w, h, px, py) ==> !PixOf(a, DISPLAY_WIDTH, DISPLAY_HEIGHT, px, py)
  {
    if forall px: nat, py: nat | px < DISPLAY_WIDTH && py < DISPLAY_HEIGHT ::
      Blit(bitmap, lw, lh, x, y, w, h, px, py) ==> !PixOf(a, DISPLAY_WIDTH, DISPLAY_HEIGHT, px, py)
    {
      forall px: nat, py: nat | px < DISPLAY_WIDTH && py < DISPLAY_HEIGHT
        ensures PixOf(a, DISPLAY_WIDTH, DISPLAY_HEIGHT, px, py) == PixOf(c, DISPLAY_WIDTH, DISPLAY_HEIGHT, px, py)
      {
        assert PixOf(b, DISPLAY_WIDTH, DISPLAY_HEIGHT, px, py)
            == if Blit(bitmap, lw, lh, x, y, w, h, px, py) then true else PixOf(a, DISPLAY_WIDTH, DISPLAY_HEIGHT, px, py);
      }
      PixelsDetermine(a, c, DISPLAY_WIDTH, DISPLAY_HEIGHT);
    }
  }

  // A glyph on the display is drawn exactly as its bits say if its rows, padded to whole bytes, are on the
  // display too; if only the padding is not, all rows but the first are missing.
  lemma WholeOrFirstRow(bitmap: seq<bv8>, lw: nat, lh: nat, x: nat, y: nat, w: nat, h: nat, px: nat, py: nat)
    requires x + w <= lw && y + h <= lh
    ensures Blit(bitmap, lw, lh, x, y, w, h, px, py)
        <==> x <= px < x + w && y <= py < y + h && RowBit(GlyphRow(bitmap, w, py - y), px - x)
             && (x + 8 * BytesWidth(w) <= lw || py == y)
  {
  }

  // Pixel (dx, dy) of a glyph is bit dx % 8 of the bitmap's byte dy * ((w + 7) / 8) + dx / 8, wherever the glyph
  // is put: rows that fit with their padding are drawn as far as the display reaches down, of rows that do not
  // only the first is, as far as it reaches to the right, and nothing left of or above the display.
  lemma BlitBits(bitmap: seq<bv8>, lw: nat, lh: nat, x: int, y: int, w: nat, h: nat, dx: nat, dy: nat)
    requires h * ((w + 7) / 8) <= |bitmap| && dx < w && dy < h && x + dx >= 0 && y + dy >= 0
    ensures 0 <= dy * ((w + 7) / 8) + dx / 8 < |bitmap|
    ensures Blit(bitmap, lw, lh, x, y, w, h, x + dx, y + dy)
        <==> Bit(bitmap[dy * ((w + 7) / 8) + dx / 8], dx % 8) && x >= 0 && y >= 0
             && if x + 8 * ((w + 7) / 8) <= lw then y + dy < lh else dy == 0 && y < lh && x + dx < lw
  {
    assert BytesWidth(w) == (w + 7) / 8;
    IndexInRange(h, (w + 7) / 8, dy, dx / 8);
    RowInBitmap(bitmap, w, h, dy);
    var row := GlyphRow(bitmap, w, dy);
    assert |row| == BytesWidth(w) && row[dx / 8] == bitmap[dy * ((w + 7) / 8) + dx / 8];
  }
}

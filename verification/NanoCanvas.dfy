module NanoCanvas {
  import opened Bits
  import opened Grid
  import opened Picture
  import opened Words
  import opened TextLayout
  import opened TextPrinting
  import opened TextStyles

  // The span a drawing routine covers between two coordinates: a reversed pair starts at 0.
  predicate InSpan(a: uint8, b: uint8, v: nat) {
    (if a > b then 0 else a) <= v <= b
  }

  // Row r of column d, or nothing: r is the distance modulo 256 from the top of the column.
  predicate ColumnBit(d: bv8, r: nat) {
    r < 8 && Bit(d, r)
  }

  // Pixel (dx, dy) of the first w columns of an 8-row sprite.
  predicate SpriteBit(sprite: seq<bv8>, w: nat, dx: nat, dy: nat)
    requires w <= |sprite|
  {
    dx < w && ColumnBit(sprite[dx], dy)
  }

  // Row dy of column dx of one page of a bitmap w columns wide.
  predicate BandBit(buf: seq<bv8>, w: nat, band: nat, dx: nat, dy: nat) {
    dx < w && dy / 8 == band && band * w + dx < |buf| && Bit(buf[band * w + dx], dy % 8)
  }

  // Pixel (dx, dy) of the first `bands` pages of the bitmap.
  predicate BitmapBit(buf: seq<bv8>, w: nat, bands: nat, dx: nat, dy: nat) {
    dy / 8 < bands && BandBit(buf, w, dy / 8, dx, dy)
  }

  // Pixel (dx, dy) of a bitmap is bit dy % 8 of byte dy / 8 * w + dx, ...
  lemma BitmapBits(buf: seq<bv8>, w: nat, h: nat, dx: nat, dy: nat)
    requires |buf| >= (h + 7) / 8 * w
    ensures dx < w && dy / 8 < (h + 7) / 8 ==> 0 <= dy / 8 * w + dx < |buf|
    ensures BitmapBit(buf, w, (h + 7) / 8, dx, dy)
        <==> dx < w && dy / 8 < (h + 7) / 8 && Bit(buf[dy / 8 * w + dx], dy % 8)
  {
    if dx < w && dy / 8 < (h + 7) / 8 { IndexInRange((h + 7) / 8, w, dy / 8, dx); }
  }

  // ... that of a sprite bit dy of byte dx, ...
  lemma SpriteBits(sprite: seq<bv8>, w: nat, dx: nat, dy: nat)
    requires w <= |sprite|
    ensures SpriteBit(sprite, w, dx, dy) <==> dx < w && dy < 8 && Bit(sprite[dx], dy)
  {
  }

  // ... and a span reaches from the first coordinate to the second or, if that is the smaller one, from 0 to it.
  lemma Spans(a: uint8, b: uint8, v: nat)
    ensures a <= b ==> (InSpan(a, b, v) <==> a <= v <= b)
    ensures a > b ==> (InSpan(a, b, v) <==> v <= b)
  {
  }

  type Width = w: uint8 | 1 <= w witness 1

  type Height = h: uint8 | 8 <= h && h % 8 == 0 witness 8

  class Canvas {
    // Set once by the constructor.  m_invertByte is 0 from there on, so its terms are gone.
    const m_w: Width
    const m_p: nat
    const m_h: Height
    const m_bytes: array<bv8>

    // `bytes` is the part of the caller's buffer the canvas owns: w bytes a page.
    constructor (w: Width, h: Height, bytes: array<bv8>)
      requires bytes.Length == h / 8 * w
      modifies bytes
      ensures Valid() && m_w == w && m_h == h && m_bytes == bytes
      ensures forall px: nat, py: nat | Inside(px, py) :: !Pix(px, py)
      ensures IsShift(w, m_p)
    {
      m_w, m_h, m_bytes := w, h, bytes;
      var p := 3;
      assert Pow2(3) == 8 && Pow2(8) == 256;
      while w / Pow2(p + 1) > 0
        invariant 3 <= p <= 7
        invariant p == 3 || Pow2(p) <= w
        decreases 8 - p
      {
        p := p + 1;
        if p == 8 { assert false; }
      }
      m_p := p;
      new;
      Clear();
    }

    ghost predicate Valid() {
      m_bytes.Length == m_h / 8 * m_w
    }

    ghost predicate Inside(x: nat, y: nat) { x < m_w && y < m_h }

    ghost function Pix(x: nat, y: nat): bool
      requires Valid() && Inside(x, y)
      reads m_bytes
    {
      IndexInRange(m_h / 8, m_w, y / 8, x);
      Bit(m_bytes[y / 8 * m_w + x], y % 8)
    }

    // Pix is the picture of the buffer.
    twostate lemma PixIsPixOf()
      requires Valid()
      ensures forall px: nat, py: nat | Inside(px, py) :: Pix(px, py) == PixOf(m_bytes[..], m_w, m_h, px, py)
      ensures forall px: nat, py: nat | Inside(px, py) ::
        old(Pix(px, py)) == PixOf(old(m_bytes[..]), m_w, m_h, px, py)
    {
      forall px: nat, py: nat | Inside(px, py)
        ensures Pix(px, py) == PixOf(m_bytes[..], m_w, m_h, px, py)
        ensures old(Pix(px, py)) == PixOf(old(m_bytes[..]), m_w, m_h, px, py)
      {
        IndexInRange(m_h / 8, m_w, py / 8, px);
      }
    }

    function Cell(page: nat, x: nat): (b: bv8)
      requires Valid() && page < m_h / 8 && x < m_w
      reads m_bytes
      ensures forall k: nat | k < 8 :: Bit(b, k) == Pix(x, page * 8 + k)
    {
      IndexInRange(m_h / 8, m_w, page, x);
      m_bytes[page * m_w + x]
    }

    // The only place that stores a byte: page and column address one cell of eight vertical pixels.
    method Store(page: nat, x: nat, b: bv8)
      requires Valid() && page < m_h / 8 && x < m_w
      modifies m_bytes
      ensures forall px: nat, py: nat | Inside(px, py) ::
        Pix(px, py) == if px == x && py / 8 == page then Bit(b, py % 8) else old(Pix(px, py))
    {
      IndexInRange(m_h / 8, m_w, page, x);
      m_bytes[page * m_w + x] := b;
      forall px: nat, py: nat | Inside(px, py)
        ensures Pix(px, py) == if px == x && py / 8 == page then Bit(b, py % 8) else old(Pix(px, py))
      {
        IndexInjective(m_w, page, x, py / 8, px);
        IndexInRange(m_h / 8, m_w, py / 8, px);
      }
    }

    // m_bytes[page * m_w + x] |= v
    method OrCell(page: nat, x: nat, v: bv8)
      requires Valid() && page < m_h / 8 && x < m_w
      modifies m_bytes
      ensures forall px: nat, py: nat | Inside(px, py) ::
        Pix(px, py) == (old(Pix(px, py)) || (px == x && py / 8 == page && Bit(v, py % 8)))
    {
      var b := Cell(page, x);
      BitOr(b, v);
      assert forall py: nat | py / 8 == page :: py == page * 8 + py % 8;
      Store(page, x, b | v);
    }

    // m_bytes[page * m_w + x] &= v
    method AndCell(page: nat, x: nat, v: bv8)
      requires Valid() && page < m_h / 8 && x < m_w
      modifies m_bytes
      ensures forall px: nat, py: nat | Inside(px, py) ::
        Pix(px, py) == (old(Pix(px, py)) && (px == x && py / 8 == page ==> Bit(v, py % 8)))
    {
      var b := Cell(page, x);
      BitAnd(b, v);
      assert forall py: nat | py / 8 == page :: py == page * 8 + py % 8;
      Store(page, x, b & v);
    }

    method PutPixel(x: uint8, y: uint8)
      requires Valid()
      modifies m_bytes
      ensures forall px: nat, py: nat | Inside(px, py) :: Pix(px, py) == (old(Pix(px, py)) || (px == x && py == y))
    {
      if x >= m_w || y >= m_h { return; }
      BitOne(y % 8);
      OrCell(y / 8, x, Shl(1, y % 8));
    }

    method Clear()
      requires Valid()
      modifies m_bytes
      ensures forall px: nat, py: nat | Inside(px, py) :: !Pix(px, py)
    {
      BitConst();
      forall i | 0 <= i < m_h / 8 * m_w { m_bytes[i] := 0; }
      forall px: nat, py: nat | Inside(px, py) ensures !Pix(px, py) {
        IndexInRange(m_h / 8, m_w, py / 8, px);
      }
    }

    method Invert()
      requires Valid()
      modifies m_bytes
      ensures forall px: nat, py: nat | Inside(px, py) :: Pix(px, py) == !old(Pix(px, py))
    {
      var i := 0;
      while i < m_h / 8 * m_w
        invariant 0 <= i <= m_bytes.Length
        invariant forall j | 0 <= j < m_bytes.Length :: m_bytes[j] == if j < i then !old(m_bytes[j]) else old(m_bytes[j])
      {
        m_bytes[i] := !m_bytes[i];
        i := i + 1;
      }
      forall px: nat, py: nat | Inside(px, py) ensures Pix(px, py) == !old(Pix(px, py)) {
        IndexInRange(m_h / 8, m_w, py / 8, px);
        BitNot(old(m_bytes[py / 8 * m_w + px]));
      }
    }

    method DrawHLine(x1: uint8, y1: uint8, x2: uint8)
      requires Valid()
      modifies m_bytes
      ensures forall px: nat, py: nat | Inside(px, py) ::
        Pix(px, py) == (old(Pix(px, py)) || (py == y1 && InSpan(x1, x2, px)))
    {
      if y1 >= m_h { return; }
      var lo, hi := x1, x2;
      if x2 < x1 { lo := 0; }
      if lo >= m_w { return; }
      if x2 >= m_w { hi := m_w - 1; }
      var x := lo;
      while x <= hi
        invariant lo <= x <= hi + 1
        invariant forall px: nat, py: nat | Inside(px, py) ::
          Pix(px, py) == (old(Pix(px, py)) || (py == y1 && lo <= px < x))
      {
        PutPixel(x, y1);
        x := x + 1;
      }
    }

    method DrawVLine(x1: uint8, y1: uint8, y2: uint8)
      requires Valid()
      modifies m_bytes
      ensures forall px: nat, py: nat | Inside(px, py) ::
        Pix(px, py) == (old(Pix(px, py)) || (px == x1 && InSpan(y1, y2, py)))
    {
      if x1 >= m_w { return; }
      var lo, hi := y1, y2;
      if y2 < y1 { lo := 0; }
      if lo >= m_h { return; }
      if y2 >= m_h { hi := m_h - 1; }
      var y := lo;
      while y <= hi
        invariant lo <= y <= hi + 1
        invariant forall px: nat, py: nat | Inside(px, py) ::
          Pix(px, py) == (old(Pix(px, py)) || (px == x1 && lo <= py < y))
      {
        PutPixel(x1, y);
        y := y + 1;
      }
    }

    method DrawRect(x1: uint8, y1: uint8, x2: uint8, y2: uint8)
      requires Valid()
      modifies m_bytes
      ensures forall px: nat, py: nat | Inside(px, py) ::
        Pix(px, py) == (old(Pix(px, py))
                        || ((py == y1 || py == y2) && InSpan(x1, x2, px))
                        || ((px == x1 || px == x2) && InSpan(y1, y2, py)))
    {
      DrawHLine(x1, y1, x2);
      DrawHLine(x1, y2, x2);
      DrawVLine(x1, y1, y2);
      DrawVLine(x2, y1, y2);
    }

    method FillRect(x1: uint8, y1: uint8, x2: uint8, y2: uint8, templ: bv8)
      requires Valid()
      modifies m_bytes
      ensures forall px: nat, py: nat | Inside(px, py) ::
        Pix(px, py) == if InSpan(x1, x2, px) && InSpan(y1, y2, py) then Bit(templ, py % 8) else old(Pix(px, py))
    {
      if x1 < x2 && x1 >= m_w { return; }
      if y1 < y2 && y1 >= m_h { return; }
      var left, right := if x1 > x2 then 0 else x1, if x2 >= m_w then m_w - 1 else x2;
      var top, bottom := if y1 > y2 then 0 else y1, if y2 >= m_h then m_h - 1 else y2;
      var bank1, bank2 := top / 8, bottom / 8;
      var bank := bank1;
      while bank <= bank2
        invariant bank1 <= bank
        invariant forall px: nat, py: nat | Inside(px, py) ::
          Pix(px, py) == if left <= px <= right && top <= py <= bottom && py / 8 < bank
                         then Bit(templ, py % 8) else old(Pix(px, py))
      {
        var mask := FillMask(bank, bank1, bank2, top % 8, bottom % 8);
        FillBank(bank, left, right, mask, templ);
        assert forall py: nat | py / 8 == bank :: Bit(mask, py % 8) == (top <= py <= bottom);
        bank := bank + 1;
      }
    }

    // The inner loop of fillRect.
    method FillBank(bank: nat, left: nat, right: nat, mask: bv8, templ: bv8)
      requires Valid() && bank < m_h / 8 && right < m_w
      modifies m_bytes
      ensures forall px: nat, py: nat | Inside(px, py) ::
        Pix(px, py) == if py / 8 == bank && left <= px <= right && Bit(mask, py % 8) then Bit(templ, py % 8)
                       else old(Pix(px, py))
    {
      var x := left;
      while x <= right
        invariant left <= x
        invariant forall px: nat, py: nat | Inside(px, py) ::
          Pix(px, py) == if py / 8 == bank && left <= px <= right && px < x && Bit(mask, py % 8) then Bit(templ, py % 8)
                         else old(Pix(px, py))
      {
        FillCell(bank, x, mask, templ);
        x := x + 1;
      }
    }

    // m_bytes[page * m_w + x] &= ~mask; m_bytes[page * m_w + x] |= (templ & mask)
    method FillCell(page: nat, x: nat, mask: bv8, templ: bv8)
      requires Valid() && page < m_h / 8 && x < m_w
      modifies m_bytes
      ensures forall px: nat, py: nat | Inside(px, py) ::
        Pix(px, py) == if px == x && py / 8 == page && Bit(mask, py % 8) then Bit(templ, py % 8) else old(Pix(px, py))
    {
      BitNot(mask);
      BitAnd(templ, mask);
      BlendCell(page, x, !mask, templ & mask);
    }

    // m_bytes[page * m_w + x] &= keep; m_bytes[page * m_w + x] |= v
    method BlendCell(page: nat, x: nat, keep: bv8, v: bv8)
      requires Valid() && page < m_h / 8 && x < m_w
      modifies m_bytes
      ensures forall px: nat, py: nat | Inside(px, py) ::
        Pix(px, py) == if px == x && py / 8 == page then (old(Pix(px, py)) && Bit(keep, py % 8)) || Bit(v, py % 8)
                       else old(Pix(px, py))
    {
      AndCell(page, x, keep);
      OrCell(page, x, v);
    }

    // The statements all sprite routines repeat for one column of eight pixels: OR d into the
    // page of row y and, shifted the other way, into the page of row y + 8.
    method OrColumn(x: uint8, y: uint8, d: bv8)
      requires Valid() && x < m_w
      modifies m_bytes
      ensures forall px: nat, py: nat | Inside(px, py) ::
        Pix(px, py) == (old(Pix(px, py)) || (px == x && ColumnBit(d, Dist(py, y))))
    {
      if y < m_h {
        OrLow(x, y / 8, y % 8, d);
      }
      if Wrap8(y + 8) < m_h {
        OrHigh(x, Wrap8(y + 8) / 8, y % 8, d);
      }
      forall px: nat, py: nat | Inside(px, py)
        ensures Pix(px, py) == (old(Pix(px, py)) || (px == x && ColumnBit(d, Dist(py, y))))
      {
        RowOfColumn(y, py);
      }
    }

    method OrLow(x: uint8, page: nat, s: nat, d: bv8)
      requires Valid() && x < m_w && page < m_h / 8 && s < 8
      modifies m_bytes
      ensures forall px: nat, py: nat | Inside(px, py) ::
        Pix(px, py) == (old(Pix(px, py)) || (px == x && py / 8 == page && s <= py % 8 && Bit(d, py % 8 - s)))
    {
      BitShl(d, s);
      OrCell(page, x, Shl(d, s));
    }

    method OrHigh(x: uint8, page: nat, s: nat, d: bv8)
      requires Valid() && x < m_w && page < m_h / 8 && s < 8
      modifies m_bytes
      ensures forall px: nat, py: nat | Inside(px, py) ::
        Pix(px, py) == (old(Pix(px, py)) || (px == x && py / 8 == page && py % 8 < s && Bit(d, py % 8 + 8 - s)))
    {
      BitShr(d, 8 - s);
      OrCell(page, x, Shr(d, 8 - s));
    }

    // Also drawSpritePgm, which differs only in the memory it reads the sprite from.
    method DrawSprite(x0: uint8, y: uint8, sprite: seq<bv8>)
      requires Valid() && |sprite| >= 8
      modifies m_bytes
      ensures forall px: nat, py: nat | Inside(px, py) ::
        Pix(px, py) == (old(Pix(px, py)) || SpriteBit(sprite, 8, Dist(px, x0), Dist(py, y)))
    {
      var x := x0;
      var i := 0;
      while i < 8
        invariant 0 <= i <= 8 && x == Wrap8(x0 + i)
        invariant forall px: nat, py: nat | Inside(px, py) ::
          Pix(px, py) == (old(Pix(px, py)) || SpriteBit(sprite, i, Dist(px, x0), Dist(py, y)))
      {
        if x < m_w {
          OrColumn(x, y, sprite[i]);
        }
        SameColumn(x0, i);
        NextColumn(x0, i);
        x := Wrap8(x + 1);
        i := i + 1;
      }
    }

    // The SPRITE overload: w columns, and no wrap-around to the left edge.
    method DrawSpriteObject(x: uint8, y: uint8, w: uint8, data: seq<bv8>)
      requires Valid() && |data| >= w
      modifies m_bytes
      ensures forall px: nat, py: nat | Inside(px, py) ::
        Pix(px, py) == (old(Pix(px, py)) || (x <= px && SpriteBit(data, w, px - x, Dist(py, y))))
    {
      var i := 0;
      while i < w
        invariant 0 <= i <= w
        invariant forall px: nat, py: nat | Inside(px, py) ::
          Pix(px, py) == (old(Pix(px, py)) || (x <= px && SpriteBit(data, i, px - x, Dist(py, y))))
      {
        if x + i < m_w {
          OrColumn(x + i, y, data[i]);
        }
        i := i + 1;
      }
    }

    method DrawBitmap(startX: uint8, startY: uint8, w: uint8, h: uint8, buf: seq<bv8>)
      requires Valid() && h <= 248 && |buf| >= (h + 7) / 8 * w
      modifies m_bytes
      ensures forall px: nat, py: nat | Inside(px, py) ::
        Pix(px, py) == (old(Pix(px, py)) || BitmapBit(buf, w, (h + 7) / 8, Dist(px, startX), Dist(py, startY)))
    {
      var y := 0;
      while y < h
        invariant 0 <= y && y % 8 == 0 && y / 8 <= (h + 7) / 8
        invariant forall px: nat, py: nat | Inside(px, py) ::
          Pix(px, py) == (old(Pix(px, py)) || BitmapBit(buf, w, y / 8, Dist(px, startX), Dist(py, startY)))
      {
        ProductMonotone(y / 8 + 1, (h + 7) / 8, w);
        DrawBand(startX, startY, w, y / 8, buf);
        y := y + 8;
      }
    }

    // The inner loop of drawBitmap: one page of the bitmap.
    method DrawBand(startX: uint8, startY: uint8, w: uint8, band: nat, buf: seq<bv8>)
      requires Valid() && band <= 30 && |buf| >= (band + 1) * w
      modifies m_bytes
      ensures forall px: nat, py: nat | Inside(px, py) ::
        Pix(px, py) == (old(Pix(px, py)) || BandBit(buf, w, band, Dist(px, startX), Dist(py, startY)))
    {
      ProductStep(band, w);
      SameBand(startY, 8 * band);
      var x := 0;
      while x < w
        invariant 0 <= x <= w
        invariant forall px: nat, py: nat | Inside(px, py) ::
          Pix(px, py) == (old(Pix(px, py))
                          || (Dist(px, startX) < x && BandBit(buf, w, band, Dist(px, startX), Dist(py, startY))))
      {
        var scrX := Wrap8(startX + x);
        IndexInRange(band + 1, w, band, x);
        if scrX < m_w {
          OrColumn(scrX, Wrap8(8 * band + startY), buf[band * w + x]);
        }
        SameColumn(startX, x);
        x := x + 1;
      }
    }

    // The page of row y keeps what is above the column and takes its upper part.
    method PutLow(x: uint8, page: nat, s: nat, d: bv8)
      requires Valid() && x < m_w && page < m_h / 8 && s < 8
      modifies m_bytes
      ensures forall px: nat, py: nat | Inside(px, py) ::
        Pix(px, py) == if px == x && py / 8 == page && s <= py % 8 then Bit(d, py % 8 - s) else old(Pix(px, py))
    {
      ColumnMasks(d, s);
      BlendCell(page, x, Shr(0xFF, 8 - s), Shl(d, s));
    }

    // The next page takes its lower part and keeps what is below it.
    method PutHigh(x: uint8, page: nat, s: nat, d: bv8)
      requires Valid() && x < m_w && page < m_h / 8 && s < 8
      modifies m_bytes
      ensures forall px: nat, py: nat | Inside(px, py) ::
        Pix(px, py) == if px == x && py / 8 == page && py % 8 < s then Bit(d, py % 8 + 8 - s) else old(Pix(px, py))
    {
      ColumnMasks(d, s);
      BlendCell(page, x, Shl(0xFF, s), Shr(d, 8 - s));
    }

    // The text routines' column: rows y .. y + 7 take the bits of d, as far as the canvas reaches.
    method PutColumn(x: uint8, y: uint8, d: bv8)
      requires Valid() && x < m_w && y < m_h
      modifies m_bytes
      ensures forall px: nat, py: nat | Inside(px, py) ::
        Pix(px, py) == if px == x && y <= py < y + 8 then Bit(d, py - y) else old(Pix(px, py))
    {
      PutLow(x, y / 8, y % 8, d);
      if y + 8 < m_h {
        PutHigh(x, y / 8 + 1, y % 8, d);
      }
    }

    // The style branches the text routines share: the column to draw from the bytes read for it, and what is
    // kept for the next one.
    method StyleColumn(table: seq<bv8>, style: Style, at: nat, ldata: bv8,
                       ghost base: int, ghost n: nat, ghost wrap: nat, ghost col: nat)
      returns (data: bv8, keep: bv8)
      requires at < |table| && (style == STYLE_ITALIC ==> at + 1 < |table|)
      requires col < n && wrap >= 1 && at == (base + col) % wrap && ldata == Carries(table, style, base, n, wrap)[col]
      ensures data == Columns(table, style, base, n, wrap)[col]
      ensures keep == Carries(table, style, base, n, wrap)[col + 1]
    {
      ColumnsAt(table, style, base, n, wrap, col);
      CarriesAt(table, style, base, n, wrap, col);
      CarriesAt(table, style, base, n, wrap, col + 1);
      keep := 0;
      if style == STYLE_NORMAL {
        data := table[at];
      } else if style == STYLE_BOLD {
        data := table[at];
        var temp := data | ldata;
        keep := data;
        data := temp;
      } else {
        data := table[at + 1];
        var temp := (data & 0xF0) | ldata;
        keep := data & 0x0F;
        data := temp;
      }
    }

    // The inner loop of printFixed: one character, one font page.
    method DrawGlyph(x: uint8, y: uint8, f: Font, c: uint8, page: nat)
      requires Valid() && ValidFont(f) && c != 0 && page < f.pages
      requires x + f.width <= m_w && y < m_h
      modifies m_bytes
      ensures GlyphDrawn(old(m_bytes[..]), m_bytes[..], m_w, m_h, x, y, f, c, page)
    {
      ghost var was := m_bytes[..];
      GlyphReadable(f, c, page);
      DrawColumns(x, y, f.width, f.table, f.style, GlyphBase(f, c, page), GlyphColumns(f, c, page));
      PixIsPixOf();
      GlyphPixels(was, m_bytes[..], m_w, m_h, x, y, f, c, page, GlyphColumns(f, c, page));
    }

    method DrawColumns(x: uint8, y: uint8, width: uint8, table: seq<bv8>, style: Style, offset: int, ghost cols: seq<bv8>)
      requires Valid() && x + width <= m_w && y < m_h
      requires forall i: nat | i < width :: Readable(table, style, TableIndex(offset, i))
      requires cols == Columns(table, style, offset, width, 65536)
      modifies m_bytes
      ensures forall px: nat, py: nat | Inside(px, py) ::
        Pix(px, py) == if x <= px < x + width && y <= py < y + 8 then Bit(cols[px - x], py - y) else old(Pix(px, py))
    {
      ghost var kept := Carries(table, style, offset, width, 65536);
      CarriesAt(table, style, offset, width, 65536, 0);
      var i: nat := 0;
      var ldata: bv8 := 0;
      while i < width
        invariant i <= width
        invariant ldata == kept[i]
        invariant forall px: nat, py: nat | Inside(px, py) ::
          Pix(px, py) == if x <= px < x + i && y <= py < y + 8 then Bit(cols[px - x], py - y) else old(Pix(px, py))
      {
        var data, keep := StyleColumn(table, style, TableIndex(offset, i), ldata, offset, width, 65536, i);
        PutColumn(x + i, y, data);
        ldata := keep;
        i := i + 1;
      }
    }

    // The inner loop of charF6x8, up to the right edge of the canvas.
    method DrawChar6(x0: nat, y: uint8, base: nat, table: seq<bv8>, style: Style) returns (ok: bool)
      requires Valid() && y < m_h && InTable6(table, style, base)
      modifies m_bytes
      ensures ok == (x0 + 6 <= m_w)
      ensures forall px: nat, py: nat | Inside(px, py) ::
        Pix(px, py) == if x0 <= px < x0 + 6 && y <= py < y + 8 then Bit(Columns6(table, style, base)[px - x0], py - y)
                       else old(Pix(px, py))
    {
      ghost var cols, kept := Columns6(table, style, base), Carries(table, style, base, 6, TABLE6);
      CarriesAt(table, style, base, 6, TABLE6, 0);
      var i := 0;
      var ldata: bv8 := 0;
      while i < 6
        invariant 0 <= i <= 6 && (i > 0 ==> x0 + i <= m_w)
        invariant ldata == kept[i]
        invariant forall px: nat, py: nat | Inside(px, py) ::
          Pix(px, py) == if x0 <= px < x0 + i && y <= py < y + 8 then Bit(cols[px - x0], py - y) else old(Pix(px, py))
      {
        if x0 + i >= m_w { return false; }
        SmallIndex(base, i);
        var data, keep := StyleColumn(table, style, base + i, ldata, base, 6, TABLE6, i);
        PutColumn(x0 + i, y, data);
        ldata := keep;
        i := i + 1;
      }
      ok := true;
    }

    // The text in one line of 6x8 characters, cut at the right edge.
    method CharF6x8(x0: uint8, y: uint8, ch: seq<uint8>, table: seq<bv8>, style: Style)
      requires Valid() && |ch| > 0 && ch[|ch| - 1] == 0 && 0 !in ch[..|ch| - 1]
      requires forall c | c in ch[..|ch| - 1] :: InTable6(table, style, Base6(c))
      modifies m_bytes
      ensures forall px: nat, py: nat | Inside(px, py) ::
        Pix(px, py) == if InText6(|ch| - 1, x0, y, px, py) then Bit(Line6(ch[..|ch| - 1], table, style)[px - x0], py - y)
                       else old(Pix(px, py))
    {
      if y >= m_h { return; }
      ghost var text := ch[..|ch| - 1];
      TextOf(ch, text);
      CharLine(x0, y, ch, table, style, text);
    }

    // The loop over the characters.
    method CharLine(x0: uint8, y: uint8, ch: seq<uint8>, table: seq<bv8>, style: Style, ghost text: seq<uint8>)
      requires Valid() && y < m_h && IsText(ch, text)
      requires forall c | c in text :: InTable6(table, style, Base6(c))
      modifies m_bytes
      ensures forall px: nat, py: nat | Inside(px, py) ::
        Pix(px, py) == if InText6(|text|, x0, y, px, py) then Bit(Line6(text, table, style)[px - x0], py - y)
                       else old(Pix(px, py))
    {
      ghost var line := Line6(text, table, style);
      var j, x: nat := 0, x0;
      while ch[j] != 0
        invariant 0 <= j <= |text| && x == x0 + 6 * j && (j > 0 ==> x <= m_w)
        invariant forall px: nat, py: nat | Inside(px, py) ::
          Pix(px, py) == if InText6(j, x0, y, px, py) then Bit(line[px - x0], py - y) else old(Pix(px, py))
        decreases |ch| - j
      {
        assert text[j] in text;
        var ok := DrawChar6(x, y, Base6(ch[j]), table, style);
        LinePart(text, table, style, j);
        x, j := x + 6, j + 1;
        if !ok { break; }
      }
    }

    // The branch of printFixed's loop at the end of a line: on to the line's next font page, or after the last
    // one to the next line, unless there is no room or no text left.
    method EndLine(y0: uint8, j0: nat, text_index0: nat, page_offset0: nat, ch: seq<uint8>, f: Font,
                   ghost l: Layout, ghost text: seq<uint8>, ghost b: nat, ghost k: nat, ghost x: int)
      returns (y: uint8, j: nat, text_index: nat, page_offset: nat, done: bool)
      requires IsText(ch, text) && l.h == m_h && l.pages == f.pages
      requires Standing(text, l, b, k, Cursor(x, y0, j0, text_index0, page_offset0))
      requires x > l.w - l.width || ch[j0] == 0
      ensures y == y0 + 8
      ensures !done ==> Standing(text, l, b + 1, 0, Cursor(l.xpos, y, j, text_index, page_offset))
      ensures done ==> !BandFits(l, b + 1) || CharIndex(CharsPerLine(l), l.pages, b + 1, 0) >= |text|
    {
      OnToNextBand(text, l, b, k, Cursor(x, y0, j0, text_index0, page_offset0));
      y, j, text_index, page_offset, done := y0 + 8, j0, text_index0, page_offset0, true;
      if y > m_h - 8 { return; }
      page_offset := page_offset + 1;
      if page_offset == f.pages {
        text_index := j;
        page_offset := 0;
        if ch[j] == 0 { return; }
      } else {
        j := text_index;
      }
      done := false;
    }

    // The rest of the loop: the next character's font page.
    method DrawNext(x: uint8, y: uint8, j: nat, page_offset: nat, ch: seq<uint8>, f: Font,
                    ghost l: Layout, ghost text: seq<uint8>, ghost b: nat, ghost k: nat, ghost cur: Cursor, ghost before: seq<bv8>)
      requires Valid() && ValidFont(f) && IsText(ch, text) && IsLayout(l, f)
      requires Standing(text, l, b, k, cur) && cur.x == x && cur.y == y && cur.j == j && cur.page_offset == page_offset
      requires x <= m_w - f.width && ch[j] != 0
      requires PrintedUpTo(before, m_bytes[..], f, text, l, b, x)
      modifies m_bytes
      ensures PrintedUpTo(before, m_bytes[..], f, text, l, b, x + f.width)
      ensures Standing(text, l, b, k + 1, cur.(x := x + f.width, j := j + 1))
    {
      ghost var now := m_bytes[..];
      DrawGlyph(x, y, f, ch[j], page_offset);
      AfterGlyph(before, now, m_bytes[..], f, text, l, b, k, cur);
    }

    ghost predicate IsLayout(l: Layout, f: Font) {
      l.w == m_w && l.h == m_h && l.width == f.width && l.pages == f.pages
    }

    // ch carries its terminating 0.
    method PrintFixed(xpos: uint8, y0: uint8, ch: seq<uint8>, f: Font)
      requires Valid() && ValidFont(f) && xpos + f.width <= m_w
      requires 1 <= |ch| <= 256 && ch[|ch| - 1] == 0 && 0 !in ch[..|ch| - 1]
      requires |ch| == 1 ==> f.pages == 1 || y0 + 16 > m_h
      modifies m_bytes
      ensures y0 >= m_h ==> m_bytes[..] == old(m_bytes[..])
      ensures y0 < m_h ==>
        Printed(old(m_bytes[..]), m_bytes[..], f, ch[..|ch| - 1], Layout(m_w, m_h, xpos, y0, f.width, f.pages))
    {
      if y0 >= m_h { return; }
      ghost var before, text, l := m_bytes[..], ch[..|ch| - 1], Layout(m_w, m_h, xpos, y0, f.width, f.pages);
      TextOf(ch, text);
      var j, text_index, page_offset := 0, 0, 0;
      var x: uint8, y: uint8 := xpos, y0;
      ghost var b, k := 0, 0;
      StandingAtStart(text, l);
      while true
        invariant Standing(text, l, b, k, Cursor(x, y, j, text_index, page_offset))
        invariant PrintedUpTo(before, m_bytes[..], f, text, l, b, x)
        decreases 256 - y, CharsPerLine(l) - k
      {
        if x > m_w - f.width || ch[j] == 0 {
          AfterBand(before, m_bytes[..], f, text, l, b, k, Cursor(x, y, j, text_index, page_offset));
          var done;
          y, j, text_index, page_offset, done := EndLine(y, j, text_index, page_offset, ch, f, l, text, b, k, x);
          b, k := b + 1, 0;
          x := xpos;
          if done { break; }
        }
        DrawNext(x, y, j, page_offset, ch, f, l, text, b, k, Cursor(x, y, j, text_index, page_offset), before);
        x := x + f.width;
        j := j + 1;
        k := k + 1;
      }
      AtEnd(before, m_bytes[..], f, text, l, b);
    }
  }

  // Row py belongs to a column starting at row y, wrapping at 256, through one of the two pages it touches.
  lemma RowOfColumn(y: uint8, py: uint8)
    requires py < 248
    ensures Dist(py, y) < 8 <==> (py / 8 == y / 8 && y % 8 <= py % 8)
                                    || (py / 8 == Wrap8(y + 8) / 8 && py % 8 < y % 8)
    ensures py / 8 == y / 8 && y % 8 <= py % 8 ==> Dist(py, y) == py % 8 - y % 8
    ensures py / 8 == Wrap8(y + 8) / 8 && py % 8 < y % 8 ==> Dist(py, y) == py % 8 + 8 - y % 8
  {
    DistCases(py, y);
    PageAfter(y);
    if y < 248 { SamePage(y, py); } else { LastPage(y, py); }
  }

  lemma DistCases(a: uint8, b: uint8)
    ensures Dist(a, b) == if a >= b then a - b else a - b + 256
  {
  }

  lemma PageAfter(y: uint8)
    ensures Wrap8(y + 8) / 8 == if y < 248 then y / 8 + 1 else 0
  {
    assert Wrap8(y + 8) == if y < 248 then y + 8 else y - 248;
  }

  lemma SamePage(y: nat, py: nat)
    ensures y <= py < y + 8 <==> (py / 8 == y / 8 && y % 8 <= py % 8) || (py / 8 == y / 8 + 1 && py % 8 < y % 8)
    ensures py / 8 == y / 8 ==> py - y == py % 8 - y % 8
    ensures py / 8 == y / 8 + 1 ==> py - y == py % 8 + 8 - y % 8
  {
  }

  lemma LastPage(y: uint8, py: uint8)
    requires py < 248 <= y
    ensures py / 8 != y / 8 && y == 248 + y % 8
    ensures py - y + 256 < 8 <==> py / 8 == 0 && py % 8 < y % 8
    ensures py / 8 == 0 ==> py - y + 256 == py % 8 + 8 - y % 8
  {
  }

  // The row counter of drawBitmap after k turns.
  function RowCounter(k: nat): uint8 {
    Wrap8(8 * k)
  }

  // It reaches the height, and the loop ends, exactly for heights up to 248.
  lemma BitmapLoopEnds(h: uint8)
    ensures (exists k: nat :: RowCounter(k) >= h) <==> h <= 248
  {
    assert RowCounter(31) == 248;
    forall k: nat ensures RowCounter(k) <= 248 {
      assert 8 * k % 256 == 8 * (k % 32);
    }
  }

  // A column d moved down by s rows: the part that stays in its page and the part that enters the next.
  lemma ShiftedColumn(d: bv8, s: nat)
    requires s < 8
    ensures forall k: nat | k < 8 :: Bit(Shl(d, s), k) == (s <= k && Bit(d, k - s))
    ensures var t := 8 - s; forall k: nat | k < 8 :: Bit(Shr(d, t), k) == (k < s && Bit(d, k + t))
  {
    BitShl(d, s);
    BitShr(d, 8 - s);
  }

  // More than any index into the 6x8 table, which does not wrap.
  const TABLE6: nat := 2048

  function Base6(c: uint8): (base: nat) {
    Wrap8(c - 32) * 6
  }

  lemma SmallIndex(base: nat, i: nat)
    requires base + i < TABLE6
    ensures (base + i) % TABLE6 == base + i
  {
  }

  predicate InTable6(table: seq<bv8>, style: Style, base: nat) {
    base + 6 + (if style == STYLE_ITALIC then 1 else 0) <= |table| && base + 6 < TABLE6
  }

  function Columns6(table: seq<bv8>, style: Style, base: nat): (cols: seq<bv8>)
    ensures |cols| == 6
  {
    Columns(table, style, base, 6, TABLE6)
  }

  // The columns of a text's characters, one after the other.
  function Line6(text: seq<uint8>, table: seq<bv8>, style: Style): (line: seq<bv8>)
    ensures |line| == 6 * |text|
  {
    if text == [] then []
    else Line6(text[..|text| - 1], table, style) + Columns6(table, style, Base6(text[|text| - 1]))
  }

  lemma {:induction false} LinePart(text: seq<uint8>, table: seq<bv8>, style: Style, j: nat)
    requires j < |text|
    ensures forall i | 6 * j <= i < 6 * j + 6 :: Line6(text, table, style)[i] == Columns6(table, style, Base6(text[j]))[i - 6 * j]
  {
    if j < |text| - 1 { LinePart(text[..|text| - 1], table, style, j); }
  }

  // Column d of the line is column d % 6 of character d / 6.
  lemma LineColumn(text: seq<uint8>, table: seq<bv8>, style: Style, d: nat)
    requires d < 6 * |text|
    ensures Line6(text, table, style)[d] == Columns6(table, style, Base6(text[d / 6]))[d % 6]
  {
    LinePart(text, table, style, d / 6);
  }

  // Column `col` of the character whose bytes start at `base`.
  lemma FontByte6(table: seq<bv8>, style: Style, base: nat, col: nat, i: nat)
    requires col < 6 && InTable6(table, style, base) && i == base + col
    ensures i < |table| && (style == STYLE_ITALIC ==> i + 1 < |table|) && (col > 0 ==> i > 0)
    ensures Columns6(table, style, base)[col] == match style
      case STYLE_NORMAL => table[i]
      case STYLE_BOLD => table[i] | if col > 0 then table[i - 1] else 0
      case STYLE_ITALIC => (table[i + 1] & 0xF0) | if col > 0 then table[i] & 0x0F else 0
  {
    SmallIndex(base, col);
    if col > 0 { SmallIndex(base, col - 1); }
    StyledByte(table, style, base, 6, TABLE6, col, i, (i - 1) % TABLE6);
  }

  lemma CharPlace6(c: uint8)
    ensures Base6(c) == (if c >= 32 then c - 32 else c + 224) * 6
  {
  }

  // In the font's bytes: character c has the six from (c - 32) * 6 on, and below the space the index wraps
  // as a byte.
  lemma LineByte(text: seq<uint8>, table: seq<bv8>, style: Style, c: uint8, d: nat) returns (i: nat)
    requires d < 6 * |text| && c == text[d / 6] && InTable6(table, style, Base6(c))
    ensures i == (if c >= 32 then c - 32 else c + 224) * 6 + d % 6
    ensures i < |table| && (style == STYLE_ITALIC ==> i + 1 < |table|) && (d % 6 > 0 ==> i > 0)
    ensures Line6(text, table, style)[d] == match style
      case STYLE_NORMAL => table[i]
      case STYLE_BOLD => table[i] | if d % 6 > 0 then table[i - 1] else 0
      case STYLE_ITALIC => (table[i + 1] & 0xF0) | if d % 6 > 0 then table[i] & 0x0F else 0
  {
    LineColumn(text, table, style, d);
    CharPlace6(c);
    var base, col := Base6(c), d % 6;
    i := base + col;
    FontByte6(table, style, base, col, i);
  }

  // The line n characters take at six columns each.
  predicate InText6(n: nat, x0: nat, y: nat, px: nat, py: nat) {
    x0 <= px < x0 + 6 * n && y <= py < y + 8
  }

  lemma ColumnMasks(d: bv8, s: nat)
    requires s < 8
    ensures var top, low := Shr(0xFF, 8 - s), Shl(d, s);
      forall k: nat | k < 8 :: if k < s then Bit(top, k) && !Bit(low, k) else !Bit(top, k) && Bit(low, k) == Bit(d, k - s)
    ensures var bottom, high := Shl(0xFF, s), Shr(d, 8 - s);
      forall k: nat | k < 8 :: if k < s then !Bit(bottom, k) && Bit(high, k) == Bit(d, k + 8 - s) else Bit(bottom, k) && !Bit(high, k)
  {
    BitConst();
    ShiftedColumn(d, s);
    ShiftedColumn(0xFF, s);
  }

  // The mask of one bank: the four cases of nano_gfx.cpp.
  function FillMask(bank: nat, bank1: nat, bank2: nat, lo: nat, hi: nat): (mask: bv8)
    requires bank1 <= bank <= bank2 && lo < 8 && hi < 8 && (bank1 == bank2 ==> lo <= hi)
    ensures forall k: nat | k < 8 :: Bit(mask, k) == (bank * 8 + k >= bank1 * 8 + lo && bank * 8 + k <= bank2 * 8 + hi)
  {
    BitConst();
    BitShl(0xFF, lo);
    BitShr(0xFF, 7 - hi);
    if bank1 == bank2 then
      assert lo <= hi;
      BitShr(0xFF, lo + 7 - hi);
      BitShl(Shr(0xFF, lo + 7 - hi), lo);
      Shl(Shr(0xFF, lo + 7 - hi), lo)
    else if bank1 == bank then Shl(0xFF, lo)
    else if bank2 == bank then Shr(0xFF, 7 - hi)
    else 0xFF
  }

  lemma BitOne(s: nat)
    requires s < 8
    ensures forall k: nat | k < 8 :: Bit(Shl(1, s), k) == (k == s)
  {
    BitShl(1, s);
  }

  lemma SameColumn(x0: uint8, i: nat)
    requires i < 256
    ensures forall px: nat | px < 256 :: px == Wrap8(x0 + i) <==> Dist(px, x0) == i
  {
  }

  lemma NextColumn(x0: uint8, i: nat)
    ensures Wrap8(Wrap8(x0 + i) + 1) == Wrap8(x0 + (i + 1))
  {
  }

  // Rows of the eight from y0 + y on, counted modulo 256, are the rows of page y / 8 counted from y0.
  lemma SameBand(y0: uint8, y: nat)
    requires y % 8 == 0 && y <= 248
    ensures forall py: nat | py < 256 :: Dist(py, Wrap8(y + y0)) < 8 <==> Dist(py, y0) / 8 == y / 8
    ensures forall py: nat | py < 256 && Dist(py, y0) / 8 == y / 8 :: Dist(py, Wrap8(y + y0)) == Dist(py, y0) % 8
  {
    forall py: nat | py < 256
      ensures Dist(py, Wrap8(y + y0)) < 8 <==> Dist(py, y0) / 8 == y / 8
      ensures Dist(py, y0) / 8 == y / 8 ==> Dist(py, Wrap8(y + y0)) == Dist(py, y0) % 8
    {
      DistShift(py, y0, y);
      PageOfRow(Dist(py, y0), y / 8);
    }
  }

  lemma DistShift(a: uint8, b: uint8, y: nat)
    requires y < 256
    ensures Dist(a, Wrap8(y + b)) == if Dist(a, b) >= y then Dist(a, b) - y else Dist(a, b) - y + 256
  {
    var d := a - b;
    assert Dist(a, b) == if d < 0 then d + 256 else d;
    var t := Wrap8(y + b);
    assert t == if y + b < 256 then y + b else y + b - 256;
  }

  lemma PageOfRow(row: nat, page: nat)
    ensures row / 8 == page <==> page * 8 <= row < page * 8 + 8
    ensures row / 8 == page ==> row % 8 == row - page * 8
  {
  }

  // The shift the constructor computes for targets without multiplication.
  predicate IsShift(w: uint8, p: nat) {
    if w < 8 then p == 3 else Pow2(p) <= w < Pow2(p + 1)
  }

  // Addressing pages by the shift is addressing them by the width exactly for the powers of two from 8 on.
  lemma ShiftAddressing(w: uint8, p: nat)
    requires IsShift(w, p)
    ensures (forall page: nat {:trigger page * Pow2(p)} :: page * Pow2(p) == page * w) <==> w >= 8 && IsPow2(w)
  {
    assert Pow2(3) == 8;
    if w >= 8 && IsPow2(w) {
      var k: nat :| w == Pow2(k);
      Pow2Between(p, k);
    }
    if forall page: nat {:trigger page * Pow2(p)} :: page * Pow2(p) == page * w {
      assert 1 * Pow2(p) == 1 * w;
    }
  }

  lemma {:induction false} Pow2Between(p: nat, k: nat)
    requires Pow2(p) <= Pow2(k) < Pow2(p + 1)
    ensures k == p
  {
    if k < p { Pow2Monotone(k + 1, p); }
    if k > p { Pow2Monotone(p + 1, k); }
  }

  // Two pixels of the canvas share byte and bit only if they are the same pixel.
  lemma PixelAddressInjective(w: nat, x: nat, y: nat, x': nat, y': nat)
    requires x < w && x' < w
    ensures y / 8 * w + x == y' / 8 * w + x' && y % 8 == y' % 8 <==> x == x' && y == y'
  {
    IndexInjective(w, y / 8, x, y' / 8, x');
  }
}

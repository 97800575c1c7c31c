// The pixels of a printed text: the layout filled in from a fixed font, everything else as before.
module TextPrinting {
  import opened Bits
  import opened Grid
  import opened Picture
  import opened TextLayout
  import opened TextStyles
  import opened Words

  // A fixed font in a style: the table holds, per character from the space on, `pages` runs of `width` columns.
  datatype Font = Font(width: uint8, pages: uint8, table: seq<bv8>, style: Style)

  ghost predicate ValidFont(f: Font) {
    1 <= f.width && 1 <= f.pages
    && |f.table| >= 224 * f.pages * f.width + if f.style == STYLE_ITALIC then 1 else 0
  }

  // Index of a character's glyph; everything below the space shows as a space.
  function Glyph(c: uint8): uint8 {
    var g := Wrap8(c - 32);
    if g > 224 then 0 else g
  }

  function GlyphBase(f: Font, c: uint8, page: nat): int {
    (Glyph(c) * f.pages + page) * f.width
  }

  // The bytes StyledColumn reads are in the table.
  predicate Readable(table: seq<bv8>, style: Style, i: nat) {
    i < |table| && (style == STYLE_ITALIC ==> i + 1 < |table|)
  }

  function TableIndex(offset: int, i: nat): nat {
    (offset + i) % 65536
  }

  // The table is indexed with a uint16_t that is computed once per character and then incremented.
  function GlyphColumns(f: Font, c: uint8, page: nat): (cols: seq<bv8>)
    ensures |cols| == f.width
  {
    Columns(f.table, f.style, GlyphBase(f, c, page), f.width, 65536)
  }

  lemma GlyphInTable(f: Font, c: uint8, page: nat, col: nat)
    requires ValidFont(f) && c != 0 && page < f.pages && col < f.width
    ensures 0 <= GlyphBase(f, c, page) + col < 224 * f.pages * f.width
  {
    IndexInRange(224, f.pages, Glyph(c), page);
    IndexInRange(224 * f.pages, f.width, Glyph(c) * f.pages + page, col);
  }

  lemma GlyphFirst(f: Font, c: uint8, page: nat)
    ensures GlyphBase(f, c, page) >= 0
  {
    Product(Glyph(c), f.pages);
    Product(Glyph(c) * f.pages + page, f.width);
  }

  // Whether a character pixel is lit.
  ghost predicate Lit(f: Font, ink: Ink)
    requires ink.Ink?
  {
    ValidFont(f) && ink.c != 0 && ink.page < f.pages && ink.col < f.width && ink.row < 8
    && Bit(GlyphColumns(f, ink.c, ink.page)[ink.col], ink.row)
  }

  // A column of the glyph from `base` on, in the bytes an index that wraps finds.
  lemma FontByte(f: Font, base: nat, n: nat, col: nat, i: nat, left: int)
    requires col < n && i == (base + col) % 65536 && left == (base + col - 1) % 65536
    requires base + col + (if f.style == STYLE_ITALIC then 1 else 0) < |f.table|
    ensures i < |f.table| && 0 <= left && (col > 0 ==> left < |f.table|)
    ensures f.style == STYLE_ITALIC ==> i + 1 < |f.table| && (col > 0 ==> left + 1 < |f.table|)
    ensures Columns(f.table, f.style, base, n, 65536)[col] == match f.style
      case STYLE_NORMAL => f.table[i]
      case STYLE_BOLD => f.table[i] | if col > 0 then f.table[left] else 0
      case STYLE_ITALIC => (f.table[i + 1] & 0xF0) | if col > 0 then f.table[left + 1] & 0x0F else 0
  {
    StyledByte(f.table, f.style, base, n, 65536, col, i, left);
  }

  lemma GlyphPlace(f: Font, c: uint8, page: nat)
    requires c != 0
    ensures GlyphBase(f, c, page) == if c < 32 then page * f.width else ((c - 32) * f.pages + page) * f.width
  {
    assert Glyph(c) == if c < 32 then 0 else c - 32;
    assert 0 * f.pages == 0;
  }

  // The glyph of character c is the (c - 32)-th of the table, and that of a control character the first; its
  // byte for column `col` of a page is byte n, and the index to it wraps at 65536.
  lemma CharByte(f: Font, c: uint8, page: nat, col: nat) returns (i: nat, left: nat)
    requires ValidFont(f) && c != 0 && page < f.pages && col < f.width
    ensures var n := (if c < 32 then page * f.width + col else ((c - 32) * f.pages + page) * f.width + col);
      0 <= n && i == n % 65536 && left == (n - 1) % 65536
    ensures i < |f.table| && (col > 0 ==> left < |f.table|)
    ensures f.style == STYLE_ITALIC ==> i + 1 < |f.table| && (col > 0 ==> left + 1 < |f.table|)
    ensures GlyphColumns(f, c, page)[col] == match f.style
      case STYLE_NORMAL => f.table[i]
      case STYLE_BOLD => f.table[i] | if col > 0 then f.table[left] else 0
      case STYLE_ITALIC => (f.table[i + 1] & 0xF0) | if col > 0 then f.table[left + 1] & 0x0F else 0
  {
    GlyphInTable(f, c, page, col);
    GlyphPlace(f, c, page);
    GlyphFirst(f, c, page);
    var base := GlyphBase(f, c, page);
    i, left := (base + col) % 65536, (base + col - 1) % 65536;
    FontByte(f, base, f.width, col, i, left);
  }

  // So a pixel is lit in the normal style if the font has it, in the bold one if the font has it or the one to
  // its left, and in the italic one if the font has the one to its right or, in the upper half, itself.
  lemma CharPixel(f: Font, c: uint8, page: nat, col: nat, row: nat) returns (i: nat, left: nat)
    requires ValidFont(f) && c != 0 && page < f.pages && col < f.width && row < 8
    ensures var n := (if c < 32 then page * f.width + col else ((c - 32) * f.pages + page) * f.width + col);
      0 <= n && i == n % 65536 && left == (n - 1) % 65536
    ensures i < |f.table| && (col > 0 ==> left < |f.table|)
    ensures f.style == STYLE_ITALIC ==> i + 1 < |f.table| && (col > 0 ==> left + 1 < |f.table|)
    ensures Lit(f, Ink(c, page, col, row)) == match f.style
      case STYLE_NORMAL => Bit(f.table[i], row)
      case STYLE_BOLD => Bit(f.table[i], row) || (col > 0 && Bit(f.table[left], row))
      case STYLE_ITALIC => if row >= 4 then Bit(f.table[i + 1], row) else col > 0 && Bit(f.table[left + 1], row)
  {
    i, left := CharByte(f, c, page, col);
    match f.style
    case STYLE_NORMAL =>
    case STYLE_BOLD => OrBit(f.table[i], if col > 0 then f.table[left] else 0, row);
    case STYLE_ITALIC => HalvesBit(f.table[i + 1], if col > 0 then f.table[left + 1] else 0, col > 0, row);
  }

  // One character, one font page: `width` columns of eight rows from column x and row y on.
  ghost predicate GlyphDrawn(before: seq<bv8>, after: seq<bv8>, w: nat, h: nat, x: nat, y: nat, f: Font, c: uint8, page: nat) {
    && IsImage(before, w, h) && IsImage(after, w, h)
    && forall px: nat, py: nat | px < w && py < h ::
         PixOf(after, w, h, px, py) == if x <= px < x + f.width && y <= py < y + 8
                                       then Lit(f, Ink(c, page, px - x, py - y))
                                       else PixOf(before, w, h, px, py)
  }

  lemma GlyphReadable(f: Font, c: uint8, page: nat)
    requires ValidFont(f) && c != 0 && page < f.pages
    ensures forall i: nat | i < f.width :: Readable(f.table, f.style, TableIndex(GlyphBase(f, c, page), i))
  {
    forall i: nat | i < f.width ensures Readable(f.table, f.style, TableIndex(GlyphBase(f, c, page), i)) {
      GlyphInTable(f, c, page, i);
    }
  }

  lemma GlyphPixels(before: seq<bv8>, after: seq<bv8>, w: nat, h: nat, x: nat, y: nat, f: Font, c: uint8, page: nat, cols: seq<bv8>)
    requires IsImage(before, w, h) && IsImage(after, w, h) && ValidFont(f) && c != 0 && page < f.pages
    requires cols == GlyphColumns(f, c, page)
    requires forall px: nat, py: nat | px < w && py < h ::
      PixOf(after, w, h, px, py) == if x <= px < x + f.width && y <= py < y + 8 then Bit(cols[px - x], py - y)
                                    else PixOf(before, w, h, px, py)
    ensures GlyphDrawn(before, after, w, h, x, y, f, c, page)
  {
  }

  // The text as printed so far: up to band b and column x what the layout says, elsewhere as before.
  ghost predicate PrintedUpTo(before: seq<bv8>, now: seq<bv8>, f: Font, text: seq<uint8>, l: Layout, b: nat, x: nat)
    requires ValidLayout(l)
  {
    && IsImage(before, l.w, l.h) && IsImage(now, l.w, l.h)
    && forall px: nat, py: nat | px < l.w && py < l.h ::
         PixOf(now, l.w, l.h, px, py) == if Passed(l, b, x, px, py) && TextAt(text, l, px, py).Ink?
                                         then Lit(f, TextAt(text, l, px, py))
                                         else PixOf(before, l.w, l.h, px, py)
  }

  ghost predicate Printed(before: seq<bv8>, after: seq<bv8>, f: Font, text: seq<uint8>, l: Layout)
    requires ValidLayout(l)
  {
    && IsImage(before, l.w, l.h) && IsImage(after, l.w, l.h)
    && forall px: nat, py: nat | px < l.w && py < l.h ::
         PixOf(after, l.w, l.h, px, py) == if TextAt(text, l, px, py).Ink?
                                           then Lit(f, TextAt(text, l, px, py))
                                           else PixOf(before, l.w, l.h, px, py)
  }

  // Where character c of the text stands: n to a line.
  lemma CharPlace(l: Layout, c: nat, page: nat, col: nat)
    requires ValidLayout(l) && page < l.pages && col < l.width
    ensures var n := (l.w - l.xpos) / l.width;
      n >= 1 && 0 <= c % n && c % n == CharColumn(l, c) && 0 <= c / n * l.pages + page == CharBand(l, c, page)
      && 0 <= c % n * l.width + col < l.w - l.xpos
  {
    var n := CharsPerLine(l);
    DivModOf(c, n);
    Product(c / n, l.pages);
    Product(c % n, l.width);
    DivModOf(l.w - l.xpos, l.width);
    ProductStep(c % n, l.width);
    ProductMonotone(c % n + 1, n, l.width);
  }

  // Character c of a printed text is what the font's bytes say, in column c % n of line c / n.
  lemma PrintedChar(before: seq<bv8>, after: seq<bv8>, f: Font, text: seq<uint8>, l: Layout, c: nat, page: nat, col: nat,
                    row: nat)
    returns (px: nat, py: nat, i: nat, left: nat)
    requires ValidLayout(l) && ValidFont(f) && l.width == f.width && l.pages == f.pages
    requires Printed(before, after, f, text, l)
    requires c < |text| && text[c] != 0 && page < l.pages && col < l.width && row < 8
    requires var band := c / ((l.w - l.xpos) / l.width) * l.pages + page; band == 0 || l.y + 8 * band <= l.h - 8
    ensures var n := (l.w - l.xpos) / l.width;
      n >= 1 && px == l.xpos + c % n * l.width + col && py == l.y + 8 * (c / n * l.pages + page) + row
    ensures px < l.w && IsImage(after, l.w, l.h)
    ensures var n := (if text[c] < 32 then page * f.width + col else ((text[c] - 32) * f.pages + page) * f.width + col);
      0 <= n && i == n % 65536 && left == (n - 1) % 65536
    ensures i < |f.table| && (col > 0 ==> left < |f.table|)
    ensures f.style == STYLE_ITALIC ==> i + 1 < |f.table| && (col > 0 ==> left + 1 < |f.table|)
    ensures py < l.h ==> PixOf(after, l.w, l.h, px, py) == match f.style
      case STYLE_NORMAL => Bit(f.table[i], row)
      case STYLE_BOLD => Bit(f.table[i], row) || (col > 0 && Bit(f.table[left], row))
      case STYLE_ITALIC => if row >= 4 then Bit(f.table[i + 1], row) else col > 0 && Bit(f.table[left + 1], row)
  {
    CharPlace(l, c, page, col);
    px := l.xpos + CharColumn(l, c) * l.width + col;
    py := l.y + 8 * CharBand(l, c, page) + row;
    CharShown(text, l, c, page, col, row);
    i, left := CharPixel(f, text[c], page, col, row);
    ShownAsLit(before, after, f, text, l, Ink(text[c], page, col, row), px, py);
  }

  lemma ShownAsLit(before: seq<bv8>, after: seq<bv8>, f: Font, text: seq<uint8>, l: Layout, ink: Ink, px: nat, py: nat)
    requires ValidLayout(l) && Printed(before, after, f, text, l) && ink.Ink? && TextAt(text, l, px, py) == ink
    ensures px < l.w && py < l.h ==> PixOf(after, l.w, l.h, px, py) == Lit(f, ink)
  {
  }

  // There is room for one font page only, or the font has no other.
  predicate OnlyOneBand(l: Layout) {
    l.pages == 1 || l.y + 16 > l.h
  }

  // A text and its terminated form.
  ghost predicate IsText(ch: seq<uint8>, text: seq<uint8>) {
    |ch| == |text| + 1 && ch[|text|] == 0 && forall i | 0 <= i < |text| :: ch[i] == text[i] != 0
  }

  lemma TextOf(ch: seq<uint8>, text: seq<uint8>)
    requires |ch| >= 1 && ch[|ch| - 1] == 0 && text == ch[..|ch| - 1] && 0 !in text
    ensures IsText(ch, text)
  {
    assert forall i | 0 <= i < |text| :: text[i] in text;
  }

  // The variables of printFixed's loop.
  datatype Cursor = Cursor(x: int, y: int, j: int, text_index: int, page_offset: int)

  // What they are in band b, k characters into its line.
  ghost function CursorAt(l: Layout, b: nat, k: nat): Cursor
    requires ValidLayout(l)
  {
    var first := CharIndex(CharsPerLine(l), l.pages, b, 0);
    Cursor(l.xpos + k * l.width, l.y + 8 * b, first + k, first, b % l.pages)
  }

  // There is room for band b, it has a k-th place and the text a line for it.
  ghost predicate Standing(text: seq<uint8>, l: Layout, b: nat, k: nat, cur: Cursor) {
    && ValidLayout(l) && BandFits(l, b) && l.y + 8 * b < l.h && k <= CharsPerLine(l)
    && cur == CursorAt(l, b, k) && 0 <= cur.page_offset < l.pages && 0 <= cur.text_index && cur.j <= |text|
    && (cur.text_index < |text| || (text == [] && b == 0 && OnlyOneBand(l)))
  }

  lemma StandingAtStart(text: seq<uint8>, l: Layout)
    requires ValidLayout(l) && (text == [] ==> OnlyOneBand(l))
    ensures Standing(text, l, 0, 0, Cursor(l.xpos, l.y, 0, 0, 0))
  {
    NextBand(CharsPerLine(l), l.pages, 0);
    assert CharIndex(CharsPerLine(l), l.pages, 0, 0) == 0;
  }

  // The loop's test for the end of a line, in the layout's terms.
  lemma AtLineEnd(text: seq<uint8>, l: Layout, b: nat, k: nat, cur: Cursor)
    requires Standing(text, l, b, k, cur)
    ensures cur.x > l.w - l.width || cur.j == |text|
            <==> k >= CharsPerLine(l) || CharIndex(CharsPerLine(l), l.pages, b, k) >= |text|
    ensures cur.x <= l.w - l.width && cur.j < |text| ==>
      k < CharsPerLine(l) && CharIndex(CharsPerLine(l), l.pages, b, k) == cur.j
  {
    LineFull(l, k);
    AlongLine(CharsPerLine(l), l.pages, b, k);
  }

  // A drawn character moves the printer one cell on.
  lemma AfterGlyph(before: seq<bv8>, now: seq<bv8>, next: seq<bv8>, f: Font, text: seq<uint8>, l: Layout, b: nat, k: nat,
                   cur: Cursor)
    requires Standing(text, l, b, k, cur)
    requires cur.x <= l.w - l.width && cur.j < |text|
    requires PrintedUpTo(before, now, f, text, l, b, cur.x) && f.width == l.width
    requires GlyphDrawn(now, next, l.w, l.h, cur.x, cur.y, f, text[cur.j], cur.page_offset)
    ensures PrintedUpTo(before, next, f, text, l, b, cur.x + l.width)
    ensures Standing(text, l, b, k + 1, cur.(x := cur.x + l.width, j := cur.j + 1))
  {
    AtLineEnd(text, l, b, k, cur);
    ProductStep(k, l.width);
    forall px: nat, py: nat | px < l.w && py < l.h
      ensures PixOf(next, l.w, l.h, px, py)
           == if Passed(l, b, cur.x + l.width, px, py) && TextAt(text, l, px, py).Ink?
              then Lit(f, TextAt(text, l, px, py)) else PixOf(before, l.w, l.h, px, py)
    {
      GlyphSettlesCell(text, l, b, k, px, py);
    }
  }

  // At the end of a line the band is done.
  lemma AfterBand(before: seq<bv8>, now: seq<bv8>, f: Font, text: seq<uint8>, l: Layout, b: nat, k: nat,
                  cur: Cursor)
    requires Standing(text, l, b, k, cur)
    requires cur.x > l.w - l.width || cur.j == |text|
    requires PrintedUpTo(before, now, f, text, l, b, cur.x)
    ensures PrintedUpTo(before, now, f, text, l, b + 1, l.xpos)
  {
    AtLineEnd(text, l, b, k, cur);
    forall px: nat, py: nat | Passed(l, b + 1, l.xpos, px, py) && !Passed(l, b, cur.x, px, py)
      ensures TextAt(text, l, px, py) == Blank
    {
      LineEnd(text, l, b, k, px, py);
    }
  }

  // Going on with the next band: the same line's next page, or after the last page the next line.
  lemma OnToNextBand(text: seq<uint8>, l: Layout, b: nat, k: nat, cur: Cursor)
    requires Standing(text, l, b, k, cur)
    requires cur.x > l.w - l.width || cur.j == |text|
    ensures cur.y + 8 <= l.h - 8 && cur.page_offset + 1 < l.pages ==>
      Standing(text, l, b + 1, 0, Cursor(l.xpos, cur.y + 8, cur.text_index, cur.text_index, cur.page_offset + 1))
    ensures cur.y + 8 <= l.h - 8 && cur.page_offset + 1 == l.pages && cur.j < |text| ==>
      Standing(text, l, b + 1, 0, Cursor(l.xpos, cur.y + 8, cur.j, cur.j, 0))
    ensures cur.page_offset + 1 == l.pages && cur.j == |text| ==> CharIndex(CharsPerLine(l), l.pages, b + 1, 0) >= |text|
  {
    AtLineEnd(text, l, b, k, cur);
    NextBand(CharsPerLine(l), l.pages, b);
  }

  // With no band left that fits, or no text left, the picture is complete.
  lemma AtEnd(before: seq<bv8>, now: seq<bv8>, f: Font, text: seq<uint8>, l: Layout, b: nat)
    requires ValidLayout(l)
    requires PrintedUpTo(before, now, f, text, l, b, l.xpos)
    requires (b > 0 && !BandFits(l, b)) || CharIndex(CharsPerLine(l), l.pages, b, 0) >= |text|
    ensures Printed(before, now, f, text, l)
  {
    forall px: nat, py: nat | px >= l.xpos && py >= l.y && !Passed(l, b, l.xpos, px, py)
      ensures TextAt(text, l, px, py) == Blank
    {
      if CharIndex(CharsPerLine(l), l.pages, b, 0) >= |text| {
        TextEnded(text, l, b, px, py);
      }
    }
  }
}

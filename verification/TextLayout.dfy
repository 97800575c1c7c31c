// The layout NanoCanvas::printFixed promises, as a function of the pixel: which character of the
// text covers it, and which row and column of which font page it shows.
module TextLayout {
  import opened Grid
  import opened Words

  // Canvas size, left edge and first row of the text, and the size of a character in columns and pages.
  datatype Layout = Layout(w: uint8, h: uint8, xpos: uint8, y: uint8, width: uint8, pages: uint8)

  ghost predicate ValidLayout(l: Layout) {
    1 <= l.width && 1 <= l.pages && l.xpos + l.width <= l.w && 8 <= l.h && l.h % 8 == 0 && l.y < l.h
  }

  // What a pixel shows of the text.
  datatype Ink = Blank | Ink(c: uint8, page: nat, col: nat, row: nat)

  function CharsPerLine(l: Layout): (n: nat)
    requires ValidLayout(l)
    ensures n >= 1
  {
    QuotientAtLeast(l.w - l.xpos, l.width, 1);
    (l.w - l.xpos) / l.width
  }

  // Bands of eight rows follow each other from row y on; the first is always begun.
  predicate BandFits(l: Layout, b: nat) {
    b == 0 || l.y + 8 * b <= l.h - 8
  }

  // The k-th character of the line that band b belongs to, n characters and `pages` bands a line.
  function CharIndex(n: nat, pages: nat, b: nat, k: nat): (c: nat)
    requires pages >= 1
  {
    DivModOf(b, pages);
    Product(b / pages, n);
    b / pages * n + k
  }

  function TextAt(text: seq<uint8>, l: Layout, px: nat, py: nat): Ink
    requires ValidLayout(l)
  {
    if px < l.xpos || py < l.y then Blank else
    var b, k := (py - l.y) / 8, (px - l.xpos) / l.width;
    DivModOf(px - l.xpos, l.width);
    DivModOf(b, l.pages);
    var c := CharIndex(CharsPerLine(l), l.pages, b, k);
    if BandFits(l, b) && k < CharsPerLine(l) && c < |text|
    then Ink(text[c], b % l.pages, (px - l.xpos) % l.width, (py - l.y) % 8)
    else Blank
  }

  // Pixels already settled when the printer stands in band b at column x.
  predicate Passed(l: Layout, b: nat, x: nat, px: nat, py: nat) {
    px >= l.xpos && py >= l.y && ((py - l.y) / 8 < b || ((py - l.y) / 8 == b && px < x))
  }

  // The cell of the k-th character of band b shows that character.
  lemma CellShowsChar(text: seq<uint8>, l: Layout, b: nat, k: nat, col: nat, row: nat)
    requires ValidLayout(l) && BandFits(l, b) && k < CharsPerLine(l) && col < l.width && row < 8
    requires CharIndex(CharsPerLine(l), l.pages, b, k) < |text|
    ensures 0 <= k * l.width && 0 <= b % l.pages
    ensures TextAt(text, l, l.xpos + k * l.width + col, l.y + 8 * b + row)
         == Ink(text[CharIndex(CharsPerLine(l), l.pages, b, k)], b % l.pages, col, row)
  {
    Product(k, l.width);
    IndexDivMod(l.width, k, col);
    DivModOf(b, l.pages);
    assert (8 * b + row) / 8 == b && (8 * b + row) % 8 == row;
  }

  // Right of the last character of its line, and right of the last cell that fits, band b is blank.
  lemma LineEnd(text: seq<uint8>, l: Layout, b: nat, k: nat, px: nat, py: nat)
    requires ValidLayout(l)
    requires k >= CharsPerLine(l) || CharIndex(CharsPerLine(l), l.pages, b, k) >= |text|
    requires l.xpos + k * l.width <= px && l.y <= py && (py - l.y) / 8 == b
    ensures TextAt(text, l, px, py) == Blank
  {
    Product(k, l.width);
    QuotientAtLeast(px - l.xpos, l.width, k);
  }

  // Bands after the text's last line are blank.
  lemma TextEnded(text: seq<uint8>, l: Layout, b: nat, px: nat, py: nat)
    requires ValidLayout(l) && CharIndex(CharsPerLine(l), l.pages, b, 0) >= |text|
    requires l.xpos <= px && l.y <= py && (py - l.y) / 8 >= b
    ensures TextAt(text, l, px, py) == Blank
  {
    DivModOf(px - l.xpos, l.width);
    LaterLine(CharsPerLine(l), l.pages, b, (py - l.y) / 8, (px - l.xpos) / l.width);
  }

  lemma LaterLine(n: nat, pages: nat, b: nat, b': nat, k: nat)
    requires pages >= 1 && b <= b'
    ensures CharIndex(n, pages, b, 0) <= CharIndex(n, pages, b', k)
  {
    DivModOf(b, pages);
    DivModOf(b', pages);
    QuotientAtLeast(b', pages, b / pages);
    ProductMonotone(b / pages, b' / pages, n);
  }

  // The test x > w - width holds exactly when the line holds as many characters as fit.
  lemma LineFull(l: Layout, k: nat)
    requires ValidLayout(l)
    ensures l.xpos + k * l.width > l.w - l.width <==> k >= CharsPerLine(l)
  {
    var n := CharsPerLine(l);
    DivModOf(l.w - l.xpos, l.width);
    ProductStep(k, l.width);
    ProductStep(n, l.width);
    if k < n {
      ProductMonotone(k + 1, n, l.width);
    } else {
      ProductMonotone(n, k, l.width);
    }
  }

  // Moving on by one band moves on by one page, and after the last page by one line of n characters.
  lemma NextBand(n: nat, pages: nat, b: nat)
    requires pages >= 1
    ensures 0 <= b % pages < pages
    ensures if b % pages + 1 == pages
            then (b + 1) % pages == 0 && CharIndex(n, pages, b + 1, 0) == CharIndex(n, pages, b, 0) + n
            else (b + 1) % pages == b % pages + 1 && CharIndex(n, pages, b + 1, 0) == CharIndex(n, pages, b, 0)
  {
    DivModOf(b, pages);
    if b % pages + 1 == pages {
      ProductStep(b / pages, pages);
      IndexDivMod(pages, b / pages + 1, 0);
      ProductStep(b / pages, n);
    } else {
      IndexDivMod(pages, b / pages, b % pages + 1);
    }
  }

  // Within a line the characters follow each other.
  lemma AlongLine(n: nat, pages: nat, b: nat, k: nat)
    requires pages >= 1
    ensures CharIndex(n, pages, b, k) == CharIndex(n, pages, b, 0) + k
  {
  }

  // Drawing the k-th character of band b settles its cell and nothing else.
  lemma GlyphSettlesCell(text: seq<uint8>, l: Layout, b: nat, k: nat, px: nat, py: nat)
    requires ValidLayout(l) && BandFits(l, b) && k < CharsPerLine(l)
    requires CharIndex(CharsPerLine(l), l.pages, b, k) < |text|
    ensures 0 <= k * l.width && 0 <= b % l.pages
    ensures var x, y := l.xpos + k * l.width, l.y + 8 * b;
      if x <= px < x + l.width && y <= py < y + 8 then
        Passed(l, b, x + l.width, px, py)
        && TextAt(text, l, px, py) == Ink(text[CharIndex(CharsPerLine(l), l.pages, b, k)], b % l.pages, px - x, py - y)
      else Passed(l, b, x + l.width, px, py) == Passed(l, b, x, px, py)
  {
    Product(k, l.width);
    DivModOf(b, l.pages);
    var x, y := l.xpos + k * l.width, l.y + 8 * b;
    if x <= px < x + l.width && y <= py < y + 8 {
      CellShowsChar(text, l, b, k, px - x, py - y);
    }
  }

  // Character c stands in column c % n of line c / n, n characters a line; its pages are the line's bands.
  function CharColumn(l: Layout, c: nat): nat
    requires ValidLayout(l)
  {
    DivModOf(c, CharsPerLine(l));
    c % CharsPerLine(l)
  }

  function CharBand(l: Layout, c: nat, page: nat): nat
    requires ValidLayout(l)
  {
    DivModOf(c, CharsPerLine(l));
    Product(c / CharsPerLine(l), l.pages);
    c / CharsPerLine(l) * l.pages + page
  }

  // Every character is shown, page by page, as far as its bands fit ...
  lemma CharShown(text: seq<uint8>, l: Layout, c: nat, page: nat, col: nat, row: nat)
    requires ValidLayout(l) && c < |text| && page < l.pages && col < l.width && row < 8
    requires BandFits(l, CharBand(l, c, page))
    ensures 0 <= CharColumn(l, c) * l.width
    ensures TextAt(text, l, l.xpos + CharColumn(l, c) * l.width + col, l.y + 8 * CharBand(l, c, page) + row)
         == Ink(text[c], page, col, row)
  {
    DivModOf(c, CharsPerLine(l));
    IndexDivMod(l.pages, c / CharsPerLine(l), page);
    Product(CharColumn(l, c), l.width);
    CellShowsChar(text, l, CharBand(l, c, page), CharColumn(l, c), col, row);
  }

  // ... and nothing else is: an inked pixel belongs to one character's cell.
  lemma InkIsChar(text: seq<uint8>, l: Layout, px: nat, py: nat) returns (c: nat)
    requires ValidLayout(l) && TextAt(text, l, px, py).Ink?
    ensures c < |text|
    ensures var ink := TextAt(text, l, px, py);
      ink.c == text[c] && ink.page < l.pages && ink.col < l.width && ink.row < 8
      && BandFits(l, CharBand(l, c, ink.page))
      && px == l.xpos + CharColumn(l, c) * l.width + ink.col && py == l.y + 8 * CharBand(l, c, ink.page) + ink.row
  {
    var b, k, n := (py - l.y) / 8, (px - l.xpos) / l.width, CharsPerLine(l);
    DivModOf(px - l.xpos, l.width);
    DivModOf(b, l.pages);
    c := CharIndex(n, l.pages, b, k);
    IndexDivMod(n, b / l.pages, k);
  }
}

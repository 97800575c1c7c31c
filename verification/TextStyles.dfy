// The three styles of a character's columns: as in the font, doubled to the right, or slanted.
module TextStyles {
  import opened Bits

  datatype Style = STYLE_NORMAL | STYLE_BOLD | STYLE_ITALIC

  // What is kept of a column for the next one; `plain` is its byte in the font, `next` the one after it.
  function Carry(style: Style, plain: bv8, next: bv8): bv8 {
    match style
    case STYLE_NORMAL => 0
    case STYLE_BOLD => plain
    case STYLE_ITALIC => next & 0x0F
  }

  function Mix(style: Style, plain: bv8, next: bv8, carried: bv8): bv8 {
    match style
    case STYLE_NORMAL => plain
    case STYLE_BOLD => plain | carried
    case STYLE_ITALIC => (next & 0xF0) | carried
  }

  // Byte i of a table; only an italic font reads one byte more than its columns.
  function At(table: seq<bv8>, i: nat): bv8 {
    if i < |table| then table[i] else 0
  }

  // What the columns before `col` leave for it.
  function Carried(table: seq<bv8>, style: Style, base: int, col: nat, wrap: nat): bv8
    requires wrap >= 1
  {
    if col == 0 then 0
    else
      var k := (base + (col - 1)) % wrap;
      Carry(style, At(table, k), At(table, k + 1))
  }

  // Column `col` of the glyph whose columns are the bytes from `base` on, modulo `wrap` as far as they are
  // counted by an index that wraps.
  function StyledColumn(table: seq<bv8>, style: Style, base: int, col: nat, wrap: nat): bv8
    requires wrap >= 1
  {
    var i := (base + col) % wrap;
    Mix(style, At(table, i), At(table, i + 1), Carried(table, style, base, col, wrap))
  }

  // The first n columns of the glyph.
  function Columns(table: seq<bv8>, style: Style, base: int, n: nat, wrap: nat): (cols: seq<bv8>)
    requires wrap >= 1
    ensures |cols| == n
  {
    if n == 0 then [] else Columns(table, style, base, n - 1, wrap) + [StyledColumn(table, style, base, n - 1, wrap)]
  }

  lemma {:induction false} ColumnsAt(table: seq<bv8>, style: Style, base: int, n: nat, wrap: nat, col: nat)
    requires wrap >= 1 && col < n
    ensures Columns(table, style, base, n, wrap)[col] == StyledColumn(table, style, base, col, wrap)
  {
    if col < n - 1 { ColumnsAt(table, style, base, n - 1, wrap, col); }
  }

  // What is kept before each of the first n columns, and after them.
  function Carries(table: seq<bv8>, style: Style, base: int, n: nat, wrap: nat): (kept: seq<bv8>)
    requires wrap >= 1
    ensures |kept| == n + 1
  {
    if n == 0 then [0] else Carries(table, style, base, n - 1, wrap) + [Carried(table, style, base, n, wrap)]
  }

  lemma {:induction false} CarriesAt(table: seq<bv8>, style: Style, base: int, n: nat, wrap: nat, col: nat)
    requires wrap >= 1 && col <= n
    ensures Carries(table, style, base, n, wrap)[col] == Carried(table, style, base, col, wrap)
  {
    if col < n { CarriesAt(table, style, base, n - 1, wrap, col); }
  }

  // An index that does not wrap.
  function PlainCarried(table: seq<bv8>, style: Style, i: nat, col: nat): bv8 {
    if col == 0 || i == 0 then 0 else Carry(style, At(table, i - 1), At(table, i))
  }

  lemma BelowWrap(i: nat, wrap: nat)
    requires i < wrap
    ensures i % wrap == i
  {
  }

  lemma NotWrapped(table: seq<bv8>, style: Style, base: int, col: nat, wrap: nat)
    requires 0 <= base && base + col < wrap
    ensures StyledColumn(table, style, base, col, wrap)
         == Mix(style, At(table, base + col), At(table, base + col + 1), PlainCarried(table, style, base + col, col))
  {
    BelowWrap(base + col, wrap);
    if col > 0 { BelowWrap(base + (col - 1), wrap); }
  }

  // In the normal style the columns are the font's; ...
  lemma NormalBit(table: seq<bv8>, base: int, n: nat, wrap: nat, col: nat)
    requires col < n && 0 <= base && base + col < wrap
    ensures Columns(table, STYLE_NORMAL, base, n, wrap)[col] == At(table, base + col)
  {
    ColumnsAt(table, STYLE_NORMAL, base, n, wrap, col);
    NotWrapped(table, STYLE_NORMAL, base, col, wrap);
  }

  // ... a bold column is the font's and the one before it together; ...
  lemma BoldColumn(table: seq<bv8>, base: int, n: nat, wrap: nat, col: nat)
    requires col < n && 0 <= base && base + col < wrap
    ensures Columns(table, STYLE_BOLD, base, n, wrap)[col]
         == At(table, base + col) | if col > 0 then At(table, base + col - 1) else 0
  {
    ColumnsAt(table, STYLE_BOLD, base, n, wrap, col);
    NotWrapped(table, STYLE_BOLD, base, col, wrap);
  }

  // ... of an italic column the lower half is the font's next column, and the upper half is the font's own,
  // except that of the first column nothing is left.
  lemma ItalicColumn(table: seq<bv8>, base: int, n: nat, wrap: nat, col: nat)
    requires col < n && 0 <= base && base + col < wrap
    ensures Columns(table, STYLE_ITALIC, base, n, wrap)[col]
         == (At(table, base + col + 1) & 0xF0) | if col > 0 then At(table, base + col) & 0x0F else 0
  {
    ColumnsAt(table, STYLE_ITALIC, base, n, wrap, col);
    NotWrapped(table, STYLE_ITALIC, base, col, wrap);
  }

  // So a bold pixel is lit if it or the one to its left is in the font, ...
  lemma BoldBit(table: seq<bv8>, base: int, n: nat, wrap: nat, col: nat, row: nat)
    requires col < n && row < 8 && 0 <= base && base + col < wrap
    ensures Bit(Columns(table, STYLE_BOLD, base, n, wrap)[col], row)
        <==> Bit(At(table, base + col), row) || (col > 0 && Bit(At(table, base + col - 1), row))
  {
    BoldColumn(table, base, n, wrap, col);
    OrBit(At(table, base + col), if col > 0 then At(table, base + col - 1) else 0, row);
  }

  // ... and an italic one if the one to its right is, or in the upper half itself.
  lemma ItalicBit(table: seq<bv8>, base: int, n: nat, wrap: nat, col: nat, row: nat)
    requires col < n && row < 8 && 0 <= base && base + col < wrap
    ensures Bit(Columns(table, STYLE_ITALIC, base, n, wrap)[col], row)
        <==> if row >= 4 then Bit(At(table, base + col + 1), row) else col > 0 && Bit(At(table, base + col), row)
  {
    ItalicColumn(table, base, n, wrap, col);
    HalvesBit(At(table, base + col + 1), At(table, base + col), col > 0, row);
  }

  // The same where the index may wrap: at is where the column's byte is, left where that of the one before is.
  lemma StyledByte(table: seq<bv8>, style: Style, base: nat, n: nat, wrap: nat, col: nat, at: nat, left: int)
    requires col < n && wrap >= 1 && at == (base + col) % wrap && left == (base + col - 1) % wrap
    ensures Columns(table, style, base, n, wrap)[col] == match style
      case STYLE_NORMAL => At(table, at)
      case STYLE_BOLD => At(table, at) | if col > 0 then At(table, left) else 0
      case STYLE_ITALIC => (At(table, at + 1) & 0xF0) | if col > 0 then At(table, left + 1) & 0x0F else 0
  {
    ColumnsAt(table, style, base, n, wrap, col);
    assert base + (col - 1) == base + col - 1;
  }

  lemma OrBit(a: bv8, b: bv8, row: nat)
    requires row < 8
    ensures Bit(a | b, row) <==> Bit(a, row) || (b != 0 && Bit(b, row))
  {
    BitOr(a, b);
    BitConst();
  }

  lemma HalvesBit(low: bv8, high: bv8, own: bool, row: nat)
    requires row < 8
    ensures Bit((low & 0xF0) | if own then high & 0x0F else 0, row)
        <==> if row >= 4 then Bit(low, row) else own && Bit(high, row)
  {
    Halves(row);
    BitConst();
    BitAnd(low, 0xF0);
    BitAnd(high, 0x0F);
    BitOr(low & 0xF0, if own then high & 0x0F else 0);
  }

  lemma Halves(row: nat)
    requires row < 8
    ensures Bit(0xF0, row) <==> row >= 4
    ensures Bit(0x0F, row) <==> row < 4
  {
  }
}

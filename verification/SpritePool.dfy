// SpritePool: tile by tile redraw of the display through an 8x8 canvas.
module SpritePool {
  import opened Bits
  import opened Grid
  import opened NanoCanvas
  import opened Picture
  import opened Redraw
  import opened Sprites
  import opened Words

  // An 8x8 image, a byte a column.
  type Picture8 = data: seq<bv8> | |data| == 8 witness [0, 0, 0, 0, 0, 0, 0, 0]

  class Sprite {
    var x: uint8
    var y: uint8
    var w: uint8
    var lx: uint8
    var ly: uint8
    const data: Picture8

    constructor (x: uint8, y: uint8, w: uint8, data: Picture8)
      ensures this.data == data && Where() == Place(x, y, w, x, y)
    {
      this.x, this.y, this.w, this.lx, this.ly, this.data := x, y, w, x, y, data;
    }

    function Where(): Place
      reads this
    {
      Place(x, y, w, lx, ly)
    }

    method SetPos(x: uint8, y: uint8)
      modifies this`x, this`y
      ensures Where() == old(Where()).(x := x, y := y)
    {
      this.x, this.y := x, y;
    }
  }

  // The display's memory: pages of `width` columns, as ssd1306_drawBuffer fills it.
  // Columns or rows of a display, in whole tiles.
  type Extent = n: nat | 8 <= n <= 256 && n % 8 == 0 witness 8

  class Display {
    const width: Extent
    const height: Extent
    const cells: array<bv8>

    constructor (width: Extent, height: Extent)
      ensures Valid() && this.width == width && this.height == height && fresh(cells)
      ensures forall px: nat, py: nat | px < width && py < height :: !Shown(px, py)
    {
      Product(height / 8, width);
      this.width, this.height := width, height;
      cells := new bv8[height / 8 * width](_ => 0);
      new;
      BitConst();
      forall px: nat, py: nat | px < width && py < height ensures !Shown(px, py) {
        IndexInRange(height / 8, width, py / 8, px);
      }
    }

    ghost predicate Valid() {
      cells.Length == height / 8 * width
    }

    ghost function Shown(px: nat, py: nat): bool
      requires Valid() && px < width && py < height
      reads cells
    {
      PixOf(cells[..], width, height, px, py)
    }

    ghost function Screen(): Image
      requires Valid()
      reads cells
    {
      Bitmap(width, height, cells[..])
    }

    // ssd1306_drawBuffer(8 * tx, ty, 8, 8, tile)
    method DrawTile(tx: nat, ty: nat, tile: seq<bv8>)
      requires Valid() && tx < width / 8 && ty < height / 8 && |tile| == 8
      modifies cells
      ensures forall px: nat, py: nat | px < width && py < height ::
        Shown(px, py) == if px / 8 == tx && py / 8 == ty then PixOf(tile, 8, 8, px % 8, py % 8) else old(Shown(px, py))
    {
      IndexInRange(height / 8, width, ty, 8 * tx);
      IndexInRange(height / 8, width, ty, 8 * tx + 7);
      ghost var was := cells[..];
      var at := ty * width + 8 * tx;
      var i := 0;
      while i < 8
        invariant 0 <= i <= 8
        invariant forall j | 0 <= j < cells.Length :: cells[j] == if at <= j < at + i then tile[j - at] else was[j]
      {
        cells[at + i] := tile[i];
        i := i + 1;
      }
      forall px: nat, py: nat | px < width && py < height
        ensures Shown(px, py) == if px / 8 == tx && py / 8 == ty then PixOf(tile, 8, 8, px % 8, py % 8)
                                 else PixOf(was, width, height, px, py)
      {
        TilePixel(was, cells[..], width, height, tx, ty, tile, px, py);
      }
    }
  }

  // The bytes of a tile, written in a row, are the tile's pixels.
  lemma TilePixel(was: seq<bv8>, now: seq<bv8>, width: nat, height: nat, tx: nat, ty: nat, tile: seq<bv8>, px: nat, py: nat)
    requires IsImage(was, width, height) && IsImage(now, width, height) && |tile| == 8
    requires 8 * tx + 8 <= width && ty < height / 8 && px < width && py < height
    requires var at := ty * width + 8 * tx;
      forall j | 0 <= j < |now| :: now[j] == if at <= j < at + 8 then tile[j - at] else was[j]
    ensures PixOf(now, width, height, px, py)
         == if px / 8 == tx && py / 8 == ty then PixOf(tile, 8, 8, px % 8, py % 8) else PixOf(was, width, height, px, py)
  {
    TileIndex(width, tx, ty, px, py / 8);
    IndexInRange(height / 8, width, py / 8, px);
  }

  const MAX_SPRITES: uint8 := 32
  const SP_ERR_NO_SPACE: uint8 := 0xFF

  class Pool {
    const m_canvas: Canvas
    const display: Display
    // The first |m_sprites| entries of the source's array.
    var m_sprites: seq<Sprite>
    // The active area in tiles; setRect may change it.
    var m_rect: Rect

    ghost predicate Valid()
      reads this
    {
      && m_canvas.Valid() && m_canvas.m_w == 8 && m_canvas.m_h == 8
      && display.Valid() && m_canvas.m_bytes != display.cells
      && |m_sprites| <= MAX_SPRITES
      && m_rect.right < display.width / 8 && m_rect.bottom < display.height / 8
    }

    constructor (display: Display)
      requires display.Valid()
      ensures Valid() && m_sprites == [] && this.display == display
      ensures m_rect == Rect(0, 0, display.width / 8 - 1, display.height / 8 - 1)
      ensures fresh(m_canvas) && fresh(m_canvas.m_bytes)
    {
      this.display := display;
      var buf := new bv8[8];
      m_canvas := new Canvas(8, 8, buf);
      m_sprites := [];
      m_rect := Rect(0, 0, display.width / 8 - 1, display.height / 8 - 1);
    }

    ghost function Places(): (ps: seq<Place>)
      reads this, m_sprites
      ensures |ps| == |m_sprites|
    {
      PlacesOf(m_sprites)
    }

    ghost function Images(): (images: seq<seq<bv8>>)
      reads this
      ensures |images| == |m_sprites|
    {
      ImagesOf(m_sprites)
    }

    // The tile's content: an empty canvas and every sprite moved to the tile's corner, modulo 256.
    method ComposeTile(tx: nat, ty: nat, ghost ps: seq<Place>, ghost images: seq<seq<bv8>>)
      requires Valid() && ps == Places() && images == Images()
      modifies m_canvas.m_bytes
      ensures forall cx: nat, cy: nat | cx < 8 && cy < 8 ::
        PixOf(m_canvas.m_bytes[..], 8, 8, cx, cy) == Overlay(ps, images, |m_sprites|, 8 * tx + cx, 8 * ty + cy)
    {
      m_canvas.Clear();
      var i := 0;
      while i < |m_sprites|
        invariant 0 <= i <= |m_sprites|
        invariant forall cx: nat, cy: nat | m_canvas.Inside(cx, cy) ::
          m_canvas.Pix(cx, cy) == Overlay(ps, images, i, 8 * tx + cx, 8 * ty + cy)
      {
        var s := m_sprites[i];
        assert s.Where() == ps[i] && s.data == images[i];
        m_canvas.DrawSprite(Wrap8(s.x - 8 * tx), Wrap8(s.y - 8 * ty), s.data);
        forall cx: nat, cy: nat | m_canvas.Inside(cx, cy)
          ensures m_canvas.Pix(cx, cy) == Overlay(ps, images, i + 1, 8 * tx + cx, 8 * ty + cy)
        {
          OverlayStep(ps, images, i, 8 * tx + cx, 8 * ty + cy);
          DistInTile(cx, s.x, tx);
          DistInTile(cy, s.y, ty);
        }
        i := i + 1;
      }
      m_canvas.PixIsPixOf();
    }

    method RedrawTile(tx: nat, ty: nat, ghost ps: seq<Place>, ghost images: seq<seq<bv8>>)
      requires Valid() && InArea(m_rect, tx, ty) && ps == Places() && images == Images()
      modifies m_canvas.m_bytes, display.cells
      ensures Repainted(old(display.Screen()), display.Screen(), {(tx, ty)}, ps, images)
    {
      ComposeTile(tx, ty, ps, images);
      display.DrawTile(tx, ty, m_canvas.m_bytes[..]);
      forall px: nat, py: nat | px < display.width && py < display.height
        ensures display.Shown(px, py) == if (px / 8, py / 8) in {(tx, ty)} then Overlay(ps, images, |ps|, px, py)
                                         else old(display.Shown(px, py))
      {
        assert (px / 8, py / 8) in {(tx, ty)} <==> px / 8 == tx && py / 8 == ty;
        assert px == 8 * (px / 8) + px % 8 && py == 8 * (py / 8) + py % 8;
      }
    }

    // The inner loop of updateRegion: one column of tiles.
    method RedrawColumn(x: nat, top: nat, bottom: nat, ghost ps: seq<Place>, ghost images: seq<seq<bv8>>)
      requires Valid() && ps == Places() && images == Images()
      requires m_rect.left <= x <= m_rect.right && m_rect.top <= top && bottom <= m_rect.bottom
      modifies m_canvas.m_bytes, display.cells
      ensures Repainted(old(display.Screen()), display.Screen(), Tiles(x, x, top, bottom), ps, images)
    {
      ghost var before := display.Screen();
      var y: int := top;
      while y <= bottom
        invariant top <= y && (y <= bottom + 1 || y == top)
        invariant Repainted(before, display.Screen(), Tiles(x, x, top, y - 1), ps, images)
      {
        ghost var now := display.Screen();
        RedrawTile(x, y, ps, images);
        RepaintedTwice(before, now, display.Screen(), Tiles(x, x, top, y - 1), {(x, y)}, ps, ps, images);
        assert Tiles(x, x, top, y - 1) + {(x, y)} == Tiles(x, x, top, y);
        y := y + 1;
      }
      assert Tiles(x, x, top, y - 1) == Tiles(x, x, top, bottom);
    }

    method UpdateRegion(ur: Rect, ghost ps: seq<Place>, ghost images: seq<seq<bv8>>)
      requires Valid() && ps == Places() && images == Images()
      modifies m_canvas.m_bytes, display.cells
      ensures Repainted(old(display.Screen()), display.Screen(), RegionTiles(ur, m_rect), ps, images)
    {
      var left, top := Max(ur.left / 8, m_rect.left), Max(ur.top / 8, m_rect.top);
      var right, bottom := Min(ur.right / 8, m_rect.right), Min(ur.bottom / 8, m_rect.bottom);
      ghost var before := display.Screen();
      var x: int := left;
      while x <= right
        invariant left <= x && (x <= right + 1 || x == left)
        invariant Repainted(before, display.Screen(), Tiles(left, x - 1, top, bottom), ps, images)
      {
        ghost var now := display.Screen();
        RedrawColumn(x, top, bottom, ps, images);
        RepaintedTwice(before, now, display.Screen(), Tiles(left, x - 1, top, bottom), Tiles(x, x, top, bottom), ps, ps, images);
        assert Tiles(left, x - 1, top, bottom) + Tiles(x, x, top, bottom) == Tiles(left, x, top, bottom);
        x := x + 1;
      }
      assert Tiles(left, x - 1, top, bottom) == Tiles(left, right, top, bottom);
    }

    // The display shows the sprites where they were last drawn.
    ghost predicate UpToDate()
      requires Valid()
      reads this, m_sprites, display.cells
    {
      ShowsLast(display.Screen(), Places(), Images(), m_rect)
    }

    // The tiles a pass redraws; a sprite that is in the pool twice has settled when its second turn comes.
    ghost function PassTiles(): set<Tile>
      reads this, m_sprites
    {
      VisitedTiles(m_sprites, Places(), |m_sprites|, m_rect)
    }

    method DrawSprites()
      requires Valid()
      modifies m_canvas.m_bytes, display.cells, m_sprites
      ensures Places() == AllSettled(old(Places()))
      ensures Repainted(old(display.Screen()), display.Screen(), old(PassTiles()), old(Places()), Images())
      ensures old(UpToDate()) ==> (UpToDate() <==> PassRight(old(Places()), Images(), old(PassTiles()), m_rect))
    {
      ghost var ps, images, before, tiles := Places(), Images(), display.Screen(), PassTiles();
      DrawAll(before, ps, images);
      VisitedAll(m_sprites, ps);
      PassUpToDate(ps, images, before, tiles);
    }

    // The loop of drawSprites.
    method DrawAll(ghost before: Image, ghost ps: seq<Place>, ghost images: seq<seq<bv8>>)
      requires Valid() && ps == Places() && images == Images() && before == display.Screen()
      modifies m_canvas.m_bytes, display.cells, m_sprites
      ensures Places() == Visited(m_sprites, ps, |m_sprites|)
      ensures Repainted(before, display.Screen(), VisitedTiles(m_sprites, ps, |m_sprites|, m_rect), ps, images)
    {
      var i := 0;
      while i < |m_sprites|
        invariant 0 <= i <= |m_sprites|
        invariant Places() == Visited(m_sprites, ps, i)
        invariant Repainted(before, display.Screen(), VisitedTiles(m_sprites, ps, i, m_rect), ps, images)
      {
        DrawOne(i, before, ps, images);
        i := i + 1;
      }
    }

    lemma PassUpToDate(ps: seq<Place>, images: seq<seq<bv8>>, before: Image, tiles: set<Tile>)
      requires Valid() && |ps| == |images| && Places() == AllSettled(ps) && Images() == images
      requires before.w == display.width && before.h == display.height
      requires Repainted(before, display.Screen(), tiles, ps, images)
      ensures ShowsLast(before, ps, images, m_rect) ==> (UpToDate() <==> PassRight(ps, images, tiles, m_rect))
    {
      if ShowsLast(before, ps, images, m_rect) {
        PassShown(before, display.Screen(), ps, images, tiles, m_rect);
      }
    }

    // All tiles of the active area.
    method RefreshScreen()
      requires Valid()
      modifies m_canvas.m_bytes, display.cells
      ensures Repainted(old(display.Screen()), display.Screen(),
                        Tiles(m_rect.left, m_rect.right, m_rect.top, m_rect.bottom), Places(), Images())
    {
      WholeArea(m_rect);
      var ur := Rect(Wrap8(m_rect.left * 8), Wrap8(m_rect.top * 8), Wrap8(m_rect.right * 8), Wrap8(m_rect.bottom * 8));
      UpdateRegion(ur, Places(), Images());
    }

    method Add(sprite: Sprite) returns (index: uint8)
      requires Valid()
      modifies this
      ensures Valid() && m_rect == old(m_rect)
      ensures if |old(m_sprites)| == MAX_SPRITES then index == SP_ERR_NO_SPACE && m_sprites == old(m_sprites)
              else index == |old(m_sprites)| && m_sprites == old(m_sprites) + [sprite]
    {
      index := |m_sprites|;
      if index >= MAX_SPRITES { return SP_ERR_NO_SPACE; }
      m_sprites := m_sprites + [sprite];
    }

    // The tiles of the sprite's last place are redrawn with the sprite still in the list.
    method Remove(sprite: Sprite)
      requires Valid()
      modifies this`m_sprites, m_canvas.m_bytes, display.cells
      ensures Valid() && m_sprites == Drop(old(m_sprites), IndexOf(old(m_sprites), sprite))
      ensures Repainted(old(display.Screen()), display.Screen(), RegionTiles(sprite.Where().GetLRect(), m_rect),
                        old(Places()), old(Images()))
      ensures old(UpToDate()) ==>
        (UpToDate() <==> RemovalRight(old(Places()), old(Images()), IndexOf(old(m_sprites), sprite),
                                      RegionTiles(sprite.Where().GetLRect(), m_rect), m_rect))
    {
      ghost var ps, images, before, k := Places(), Images(), display.Screen(), IndexOf(m_sprites, sprite);
      ghost var tiles := RegionTiles(sprite.Where().GetLRect(), m_rect);
      UpdateRegion(sprite.Where().GetLRect(), ps, images);
      RemoveEntry(sprite, ps, images);
      RemovalUpToDate(ps, images, k, before, tiles);
    }

    method RemoveEntry(sprite: Sprite, ghost ps: seq<Place>, ghost images: seq<seq<bv8>>)
      requires Valid() && ps == Places() && images == Images()
      modifies this`m_sprites
      ensures Valid() && m_sprites == Drop(old(m_sprites), IndexOf(old(m_sprites), sprite))
      ensures Places() == Drop(ps, IndexOf(old(m_sprites), sprite)) && Images() == Drop(images, IndexOf(old(m_sprites), sprite))
    {
      DroppedSprites(m_sprites, IndexOf(m_sprites, sprite));
      m_sprites := RemoveFirst(m_sprites, sprite);
    }

    lemma RemovalUpToDate(ps: seq<Place>, images: seq<seq<bv8>>, k: nat, before: Image, tiles: set<Tile>)
      requires Valid() && |ps| == |images| && Places() == Drop(ps, k) && Images() == Drop(images, k)
      requires before.w == display.width && before.h == display.height
      requires Repainted(before, display.Screen(), tiles, ps, images)
      ensures ShowsLast(before, ps, images, m_rect) ==> (UpToDate() <==> RemovalRight(ps, images, k, tiles, m_rect))
    {
      if ShowsLast(before, ps, images, m_rect) {
        RemovalShown(before, display.Screen(), ps, images, k, tiles, m_rect);
      }
    }

    // One turn of the loop of drawSprites.
    method DrawOne(i: nat, ghost before: Image, ghost ps: seq<Place>, ghost images: seq<seq<bv8>>)
      requires Valid() && i < |m_sprites| == |ps| && Images() == images && Places() == Visited(m_sprites, ps, i)
      requires Repainted(before, display.Screen(), VisitedTiles(m_sprites, ps, i, m_rect), ps, images)
      modifies m_canvas.m_bytes, display.cells, m_sprites[i]
      ensures Places() == Visited(m_sprites, ps, i + 1)
      ensures Repainted(before, display.Screen(), VisitedTiles(m_sprites, ps, i + 1, m_rect), ps, images)
    {
      VisitedPositions(m_sprites, ps, i);
      RedrawSprite(i, Places()[i], before, VisitedTiles(m_sprites, ps, i, m_rect), ps, images);
      MarkDrawn(i);
    }

    // The sprite's last position becomes its present one, in every entry it has.
    method MarkDrawn(i: nat)
      requires Valid() && i < |m_sprites|
      modifies m_sprites[i]
      ensures Places() == SettleEvery(m_sprites, old(Places()), m_sprites[i])
    {
      m_sprites[i].lx, m_sprites[i].ly := m_sprites[i].x, m_sprites[i].y;
    }

    // The two branches of drawSprites for one sprite.
    method RedrawSprite(i: nat, ghost p: Place, ghost before: Image, ghost done: set<Tile>, ghost ps: seq<Place>, ghost images: seq<seq<bv8>>)
      requires Valid() && i < |m_sprites| && |ps| == |m_sprites| && images == Images() && Places()[i] == p
      requires SamePositions(ps, Places())
      requires Repainted(before, display.Screen(), done, ps, images)
      modifies m_canvas.m_bytes, display.cells
      ensures Repainted(before, display.Screen(), done + SpriteTiles(p, m_rect), ps, images)
    {
      var s := m_sprites[i];
      ghost var now, c0 := Places(), display.Screen();
      if s.Where().IsNearMove() {
        UpdateRegion(s.Where().GetUpdateRect(), now, images);
        RepaintedTwice(before, c0, display.Screen(), done, RegionTiles(p.GetUpdateRect(), m_rect), ps, now, images);
      } else {
        UpdateRegion(s.Where().GetRect(), now, images);
        ghost var c1 := display.Screen();
        RepaintedTwice(before, c0, c1, done, RegionTiles(p.GetRect(), m_rect), ps, now, images);
        UpdateRegion(s.Where().GetLRect(), now, images);
        RepaintedTwice(before, c1, display.Screen(), done + RegionTiles(p.GetRect(), m_rect),
                       RegionTiles(p.GetLRect(), m_rect), ps, now, images);
        assert done + (RegionTiles(p.GetRect(), m_rect) + RegionTiles(p.GetLRect(), m_rect))
            == done + RegionTiles(p.GetRect(), m_rect) + RegionTiles(p.GetLRect(), m_rect);
      }
    }
  }

  ghost function PlacesOf(sprites: seq<Sprite>): (ps: seq<Place>)
    reads sprites
    ensures |ps| == |sprites| && forall i | 0 <= i < |ps| :: ps[i] == sprites[i].Where()
  {
    seq(|sprites|, i requires 0 <= i < |sprites| reads sprites => sprites[i].Where())
  }

  function ImagesOf(sprites: seq<Sprite>): (images: seq<seq<bv8>>)
    ensures |images| == |sprites| && forall i | 0 <= i < |images| :: images[i] == sprites[i].data
  {
    seq(|sprites|, i requires 0 <= i < |sprites| => sprites[i].data)
  }

  lemma DroppedSprites(sprites: seq<Sprite>, k: nat)
    ensures PlacesOf(Drop(sprites, k)) == Drop(PlacesOf(sprites), k)
    ensures ImagesOf(Drop(sprites, k)) == Drop(ImagesOf(sprites), k)
  {
  }

  // The places when sprite s has settled, in every entry it has.
  ghost function SettleEvery(sprites: seq<Sprite>, ps: seq<Place>, s: Sprite): (r: seq<Place>)
    requires |sprites| == |ps|
    ensures |r| == |ps|
  {
    seq(|ps|, j requires 0 <= j < |ps| => if sprites[j] == s then Settled(ps[j]) else ps[j])
  }

  // The places as the pass finds them when it comes to entry n ...
  ghost function Visited(sprites: seq<Sprite>, ps: seq<Place>, n: nat): (r: seq<Place>)
    requires n <= |sprites| == |ps|
    ensures |r| == |ps|
  {
    if n == 0 then ps else SettleEvery(sprites, Visited(sprites, ps, n - 1), sprites[n - 1])
  }

  // ... and the tiles it has redrawn by then.
  ghost function VisitedTiles(sprites: seq<Sprite>, ps: seq<Place>, n: nat, area: Rect): set<Tile>
    requires n <= |sprites| == |ps|
  {
    if n == 0 then {} else VisitedTiles(sprites, ps, n - 1, area) + SpriteTiles(Visited(sprites, ps, n - 1)[n - 1], area)
  }

  // A sprite has settled exactly if one of its entries was visited.
  lemma {:induction false} VisitedAt(sprites: seq<Sprite>, ps: seq<Place>, n: nat, j: nat)
    requires n <= |sprites| == |ps| && j < |ps|
    ensures Visited(sprites, ps, n)[j] == if sprites[j] in sprites[..n] then Settled(ps[j]) else ps[j]
  {
    if n > 0 {
      VisitedAt(sprites, ps, n - 1, j);
      assert sprites[..n] == sprites[..n - 1] + [sprites[n - 1]];
    }
  }

  lemma VisitedPositions(sprites: seq<Sprite>, ps: seq<Place>, n: nat)
    requires n <= |sprites| == |ps|
    ensures SamePositions(ps, Visited(sprites, ps, n))
  {
    forall j: nat | j < |ps| ensures ps[j].x == Visited(sprites, ps, n)[j].x && ps[j].y == Visited(sprites, ps, n)[j].y {
      VisitedAt(sprites, ps, n, j);
    }
  }

  lemma VisitedAll(sprites: seq<Sprite>, ps: seq<Place>)
    requires |sprites| == |ps|
    ensures Visited(sprites, ps, |ps|) == AllSettled(ps)
  {
    forall j: nat | j < |ps| ensures Visited(sprites, ps, |ps|)[j] == AllSettled(ps)[j] {
      VisitedAt(sprites, ps, |ps|, j);
      assert sprites[..|ps|] == sprites;
    }
  }

  // Where no sprite is in the pool twice, each is found where it was.
  lemma {:induction false} DistinctTiles(sprites: seq<Sprite>, ps: seq<Place>, n: nat, area: Rect)
    requires n <= |sprites| == |ps| && forall i, j | 0 <= i < j < |sprites| :: sprites[i] != sprites[j]
    ensures VisitedTiles(sprites, ps, n, area) == RedrawnTiles(ps, n, area)
  {
    if n > 0 {
      DistinctTiles(sprites, ps, n - 1, area);
      NotYetVisited(sprites, ps, n - 1);
      var tiles := VisitedMore(sprites, ps, n, area, ps[n - 1]);
    }
  }

  // Visiting an entry found at p adds the same tiles to both.
  lemma VisitedMore(sprites: seq<Sprite>, ps: seq<Place>, n: nat, area: Rect, p: Place) returns (tiles: set<Tile>)
    requires 0 < n <= |sprites| == |ps| && Visited(sprites, ps, n - 1)[n - 1] == p == ps[n - 1]
    ensures VisitedTiles(sprites, ps, n, area) == VisitedTiles(sprites, ps, n - 1, area) + tiles
    ensures RedrawnTiles(ps, n, area) == RedrawnTiles(ps, n - 1, area) + tiles
  {
    tiles := SpriteTiles(p, area);
  }

  lemma NotYetVisited(sprites: seq<Sprite>, ps: seq<Place>, n: nat)
    requires n < |sprites| == |ps| && forall i, j | 0 <= i < j < |sprites| :: sprites[i] != sprites[j]
    ensures Visited(sprites, ps, n)[n] == ps[n]
  {
    VisitedAt(sprites, ps, n, n);
  }

  // Where x stands first in the list; its length if nowhere.
  function IndexOf<T(==)>(list: seq<T>, x: T): (k: nat)
    ensures k <= |list| && x !in list[..k] && (k < |list| ==> list[k] == x)
  {
    if list == [] || list[0] == x then 0
    else
      var k := 1 + IndexOf(list[1..], x);
      assert list[..k] == [list[0]] + list[1..][..k - 1];
      k
  }

  lemma FirstIndex<T>(list: seq<T>, x: T, k: nat)
    requires k <= |list| && x !in list[..k] && (k < |list| ==> list[k] == x)
    ensures IndexOf(list, x) == k
  {
    var m := IndexOf(list, x);
    assert forall i | 0 <= i < k :: list[i] == list[..k][i];
    assert forall i | 0 <= i < m :: list[i] == list[..m][i];
  }

  // The search and the shifting loop of SpritePool::remove.
  method RemoveFirst<T(==)>(list: seq<T>, x: T) returns (r: seq<T>)
    ensures r == Drop(list, IndexOf(list, x))
  {
    var i := 0;
    while i < |list|
      invariant 0 <= i <= |list| && x !in list[..i]
    {
      if list[i] == x {
        FirstIndex(list, x, i);
        r := CloseGap(list, i);
        return;
      }
      i := i + 1;
    }
    FirstIndex(list, x, i);
    r := list;
  }

  // The list with the entries from i on moved down by one, up to entry j.
  function Shifted<T>(list: seq<T>, i: nat, j: nat): (r: seq<T>)
    requires i <= j < |list|
    ensures |r| == |list|
  {
    list[..i] + list[i + 1..j + 1] + list[j..]
  }

  lemma ShiftedMore<T>(list: seq<T>, i: nat, j: nat)
    requires i <= j < |list| - 1
    ensures Shifted(list, i, j)[j + 1] == list[j + 1]
    ensures Shifted(list, i, j)[j := list[j + 1]] == Shifted(list, i, j + 1)
  {
  }

  lemma ShiftedAll<T>(list: seq<T>, i: nat)
    requires i < |list|
    ensures Shifted(list, i, i) == list
    ensures Shifted(list, i, |list| - 1)[..|list| - 1] == Drop(list, i)
  {
  }

  method CloseGap<T>(list: seq<T>, i: nat) returns (r: seq<T>)
    requires i < |list|
    ensures r == Drop(list, i)
  {
    r := list;
    var j, count := i, |list| - 1;
    ShiftedAll(list, i);
    while j < count
      invariant i <= j <= count && r == Shifted(list, i, j)
    {
      ShiftedMore(list, i, j);
      r := r[j := r[j + 1]];
      j := j + 1;
    }
    r := r[..count];
  }

  // The eight bytes of a tile stand together, and no other byte of the display among them.
  lemma TileIndex(width: nat, tx: nat, ty: nat, px: nat, page: nat)
    requires 8 * tx + 8 <= width && px < width
    ensures var at := ty * width + 8 * tx; var j := page * width + px;
      if page == ty && px / 8 == tx then j == at + px % 8 else !(at <= j < at + 8)
  {
    var at, j := ty * width + 8 * tx, page * width + px;
    if at <= j < at + 8 {
      IndexInjective(width, ty, 8 * tx + (j - at), page, px);
    }
  }
}

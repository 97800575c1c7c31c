// What one pass of SpritePool::drawSprites redraws, and exactly when that is enough.
module Redraw {
  import opened Bits
  import opened NanoCanvas
  import opened Picture
  import opened Sprites
  import opened Words

  predicate InArea(area: Rect, tx: nat, ty: nat) {
    area.left <= tx <= area.right && area.top <= ty <= area.bottom
  }

  // A tile as its column and row.
  type Tile = (int, int)

  ghost function Tiles(left: int, right: int, top: int, bottom: int): set<Tile> {
    set tx, ty | left <= tx <= right && top <= ty <= bottom :: (tx, ty)
  }

  lemma InTiles(left: int, right: int, top: int, bottom: int)
    ensures forall tx, ty :: (tx, ty) in Tiles(left, right, top, bottom) <==> left <= tx <= right && top <= ty <= bottom
  {
  }

  // The tiles updateRegion redraws for ur.
  ghost function RegionTiles(ur: Rect, area: Rect): set<Tile> {
    Tiles(Max(ur.left / 8, area.left), Min(ur.right / 8, area.right), Max(ur.top / 8, area.top), Min(ur.bottom / 8, area.bottom))
  }

  // The tiles drawSprites redraws for one sprite.
  ghost function SpriteTiles(p: Place, area: Rect): set<Tile> {
    if p.IsNearMove() then RegionTiles(p.GetUpdateRect(), area)
    else RegionTiles(p.GetRect(), area) + RegionTiles(p.GetLRect(), area)
  }

  // ... and for the first n sprites of the pool.
  ghost function RedrawnTiles(ps: seq<Place>, n: nat, area: Rect): set<Tile>
    requires n <= |ps|
  {
    if n == 0 then {} else RedrawnTiles(ps, n - 1, area) + SpriteTiles(ps[n - 1], area)
  }

  lemma {:induction false} RedrawnForSome(ps: seq<Place>, n: nat, area: Rect, i: nat)
    requires i < n <= |ps|
    ensures SpriteTiles(ps[i], area) <= RedrawnTiles(ps, n, area)
  {
    if i < n - 1 { RedrawnForSome(ps, n - 1, area, i); }
  }

  // An 8x8 image at (x, y) lights pixel (px, py); coordinates are uint8_t and wrap.
  predicate Lights(data: seq<bv8>, x: uint8, y: uint8, px: nat, py: nat) {
    |data| == 8 && SpriteBit(data, 8, Dist(px, x), Dist(py, y))
  }

  // The first n sprites laid over each other at their new positions ...
  ghost predicate Overlay(ps: seq<Place>, images: seq<seq<bv8>>, n: nat, px: nat, py: nat)
    requires n <= |ps| == |images|
  {
    exists i | 0 <= i < n :: Lights(images[i], ps[i].x, ps[i].y, px, py)
  }

  // ... and at their last ones.
  ghost predicate OverlayLast(ps: seq<Place>, images: seq<seq<bv8>>, n: nat, px: nat, py: nat)
    requires n <= |ps| == |images|
  {
    exists i | 0 <= i < n :: Lights(images[i], ps[i].lx, ps[i].ly, px, py)
  }

  lemma OverlayStep(ps: seq<Place>, images: seq<seq<bv8>>, n: nat, px: nat, py: nat)
    requires n < |ps| == |images|
    ensures Overlay(ps, images, n + 1, px, py)
         == (Overlay(ps, images, n, px, py) || Lights(images[n], ps[n].x, ps[n].y, px, py))
  {
  }

  ghost predicate SamePositions(ps: seq<Place>, ps': seq<Place>) {
    |ps| == |ps'| && forall i | 0 <= i < |ps| :: ps[i].x == ps'[i].x && ps[i].y == ps'[i].y
  }

  lemma SameOverlay(ps: seq<Place>, ps': seq<Place>, images: seq<seq<bv8>>, px: nat, py: nat)
    requires |ps| == |ps'| == |images| && SamePositions(ps, ps')
    ensures Overlay(ps, images, |ps|, px, py) == Overlay(ps', images, |ps|, px, py)
  {
    forall i | 0 <= i < |ps|
      ensures Lights(images[i], ps[i].x, ps[i].y, px, py) == Lights(images[i], ps'[i].x, ps'[i].y, px, py)
    {
    }
  }

  // Moving the origin to the tile's corner, modulo 256, keeps every distance.
  lemma DistInTile(c: nat, s: uint8, t: nat)
    ensures Dist(c, Wrap8(s - 8 * t)) == Dist(8 * t + c, s)
  {
  }

  // ------ Which tiles a sprite covers ------

  // Coordinate t of the tiles under the eight pixels from x on, which wrap at 256.
  predicate Covers(x: uint8, t: nat) {
    t == x / 8 || t == Wrap8(x + 7) / 8
  }

  predicate Occupies(x: uint8, y: uint8, tx: nat, ty: nat) {
    Covers(x, tx) && Covers(y, ty)
  }

  lemma NearPixelCovered(p: uint8, x: uint8)
    requires Dist(p, x) < 8
    ensures Covers(x, p / 8)
  {
    assert Dist(p, x) == if p >= x then p - x else p - x + 256;
    assert Wrap8(x + 7) == if x <= 248 then x + 7 else x - 249;
  }

  lemma LightsInTile(data: seq<bv8>, x: uint8, y: uint8, px: uint8, py: uint8)
    requires Lights(data, x, y, px, py)
    ensures Occupies(x, y, px / 8, py / 8)
  {
    NearPixelCovered(px, x);
    NearPixelCovered(py, y);
  }

  // A covered tile holds one of the eight pixels.
  lemma CoveredPixel(x: uint8, t: nat) returns (p: uint8)
    requires Covers(x, t)
    ensures p / 8 == t && Dist(p, x) < 8
  {
    p := if t == x / 8 then x else 8 * t;
    assert Wrap8(x + 7) == if x <= 248 then x + 7 else x - 249;
    assert Dist(p, x) == if p >= x then p - x else p - x + 256;
  }

  // ------ When a pass is right ------

  // The display after a pass that redraws some tiles, if it showed the last positions before.
  ghost predicate ShownAfter(ps: seq<Place>, images: seq<seq<bv8>>, redrawn: set<Tile>, px: nat, py: nat)
    requires |ps| == |images|
  {
    if (px / 8, py / 8) in redrawn then Overlay(ps, images, |ps|, px, py) else OverlayLast(ps, images, |ps|, px, py)
  }

  // The display shows the new positions in the whole area.
  ghost predicate PassRight(ps: seq<Place>, images: seq<seq<bv8>>, redrawn: set<Tile>, area: Rect)
    requires |ps| == |images|
  {
    forall px: uint8, py: uint8 | InArea(area, px / 8, py / 8) ::
      ShownAfter(ps, images, redrawn, px, py) == Overlay(ps, images, |ps|, px, py)
  }

  predicate Moved(p: Place) {
    p.x != p.lx || p.y != p.ly
  }

  // Every tile of the area that a moved sprite leaves or arrives at is redrawn.
  ghost predicate MovesRedrawn(ps: seq<Place>, redrawn: set<Tile>, area: Rect) {
    forall i, tx: nat, ty: nat |
      0 <= i < |ps| && Moved(ps[i]) && InArea(area, tx, ty)
      && (Occupies(ps[i].x, ps[i].y, tx, ty) || Occupies(ps[i].lx, ps[i].ly, tx, ty)) ::
      (tx, ty) in redrawn
  }

  lemma RedrawSuffices(ps: seq<Place>, images: seq<seq<bv8>>, redrawn: set<Tile>, area: Rect)
    requires |ps| == |images| && MovesRedrawn(ps, redrawn, area)
    ensures PassRight(ps, images, redrawn, area)
  {
    forall px: uint8, py: uint8, i | InArea(area, px / 8, py / 8) && (px / 8, py / 8) !in redrawn && 0 <= i < |ps|
      ensures Lights(images[i], ps[i].x, ps[i].y, px, py) == Lights(images[i], ps[i].lx, ps[i].ly, px, py)
    {
      if Lights(images[i], ps[i].x, ps[i].y, px, py) { LightsInTile(images[i], ps[i].x, ps[i].y, px, py); }
      if Lights(images[i], ps[i].lx, ps[i].ly, px, py) { LightsInTile(images[i], ps[i].lx, ps[i].ly, px, py); }
    }
  }

  // Sprite i one dot in column c and row r, all others empty.
  function DotImage(n: nat, i: nat, c: nat, r: nat): (images: seq<seq<bv8>>)
    requires c < 8 && r < 8
    ensures |images| == n
  {
    var empty: seq<bv8> := [0, 0, 0, 0, 0, 0, 0, 0];
    seq(n, j => if j == i then empty[c := Shl(1, r)] else empty)
  }

  lemma DotLights(n: nat, i: nat, c: nat, r: nat, j: nat, x: uint8, y: uint8, px: nat, py: nat)
    requires c < 8 && r < 8 && j < n
    ensures Lights(DotImage(n, i, c, r)[j], x, y, px, py) <==> i == j && Dist(px, x) == c && Dist(py, y) == r
  {
    BitConst();
    BitOne(r);
  }

  lemma DistInjective(p: uint8, a: uint8, b: uint8)
    ensures Dist(p, a) == Dist(p, b) <==> a == b
  {
    assert Dist(p, a) == if p >= a then p - a else p - a + 256;
    assert Dist(p, b) == if p >= b then p - b else p - b + 256;
  }

  // A dot that sprite i has at (px, py) is the only one there.
  lemma DotAlone(n: nat, i: nat, px: uint8, py: uint8, x: uint8, y: uint8)
    requires i < n && Dist(px, x) < 8 && Dist(py, y) < 8
    ensures var images := DotImage(n, i, Dist(px, x), Dist(py, y)); Lights(images[i], x, y, px, py)
    ensures var images := DotImage(n, i, Dist(px, x), Dist(py, y));
      forall j: nat, u: uint8, v: uint8 | j < n && j != i :: !Lights(images[j], u, v, px, py)
  {
    var c, r := Dist(px, x), Dist(py, y);
    DotLights(n, i, c, r, i, x, y, px, py);
    forall j: nat, u: uint8, v: uint8 | j < n && j != i ensures !Lights(DotImage(n, i, c, r)[j], u, v, px, py) {
      DotLights(n, i, c, r, j, u, v, px, py);
    }
  }

  // ... and it is elsewhere when the sprite is elsewhere.
  lemma DotMoves(n: nat, i: nat, px: uint8, py: uint8, x: uint8, y: uint8, x': uint8, y': uint8)
    requires i < n && Dist(px, x) < 8 && Dist(py, y) < 8 && (x != x' || y != y')
    ensures !Lights(DotImage(n, i, Dist(px, x), Dist(py, y))[i], x', y', px, py)
  {
    DotLights(n, i, Dist(px, x), Dist(py, y), i, x', y', px, py);
    DistInjective(px, x, x');
    DistInjective(py, y, y');
  }

  lemma RedrawNeeded(ps: seq<Place>, redrawn: set<Tile>, area: Rect, i: nat, tx: nat, ty: nat) returns (images: seq<seq<bv8>>)
    requires i < |ps| && Moved(ps[i]) && InArea(area, tx, ty) && (tx, ty) !in redrawn
    requires Occupies(ps[i].x, ps[i].y, tx, ty) || Occupies(ps[i].lx, ps[i].ly, tx, ty)
    ensures |images| == |ps| && !PassRight(ps, images, redrawn, area)
  {
    var p := ps[i];
    var there := Occupies(p.x, p.y, tx, ty);
    var x, y := if there then p.x else p.lx, if there then p.y else p.ly;
    var x', y' := if there then p.lx else p.x, if there then p.ly else p.y;
    var px := CoveredPixel(x, tx);
    var py := CoveredPixel(y, ty);
    images := DotImage(|ps|, i, Dist(px, x), Dist(py, y));
    DotAlone(|ps|, i, px, py, x, y);
    DotMoves(|ps|, i, px, py, x, y, x', y');
    assert Overlay(ps, images, |ps|, px, py) == there && OverlayLast(ps, images, |ps|, px, py) == !there;
    assert ShownAfter(ps, images, redrawn, px, py) != Overlay(ps, images, |ps|, px, py);
  }

  // For all positions, widths and sets of redrawn tiles: a pass is right for every choice of images exactly
  // if it redraws every tile of the area that a moved sprite leaves or arrives at.
  lemma RedrawExact(ps: seq<Place>, redrawn: set<Tile>, area: Rect)
    ensures (forall images: seq<seq<bv8>> | |images| == |ps| :: PassRight(ps, images, redrawn, area))
            <==> MovesRedrawn(ps, redrawn, area)
  {
    if MovesRedrawn(ps, redrawn, area) {
      forall images: seq<seq<bv8>> | |images| == |ps| ensures PassRight(ps, images, redrawn, area) {
        RedrawSuffices(ps, images, redrawn, area);
      }
    } else {
      var i, tx: nat, ty: nat :| 0 <= i < |ps| && Moved(ps[i]) && InArea(area, tx, ty)
        && (Occupies(ps[i].x, ps[i].y, tx, ty) || Occupies(ps[i].lx, ps[i].ly, tx, ty)) && (tx, ty) !in redrawn;
      var images := RedrawNeeded(ps, redrawn, area, i, tx, ty);
    }
  }

  // ------ What the rectangles of an 8x8 sprite cover, one axis at a time ------

  // First and last pixel of a rectangle on one axis.
  type Span = (uint8, uint8)

  predicate SpanCovers(s: Span, t: nat) {
    s.0 / 8 <= t <= s.1 / 8
  }

  predicate Near(x: uint8, lx: uint8) {
    Wrap8(x - lx) < 8 || Wrap8(lx - x) < 8
  }

  // A near move that slides in over the left or upper edge.
  predicate EntersOverEdge(x: uint8, lx: uint8) {
    x >= 249 && 242 <= lx <= 248
  }

  function UpdateSpan(x: uint8, lx: uint8): Span {
    var right0 := Max(Wrap8(x + 7), Wrap8(lx + 7));
    var right := if Wrap8(lx + 7) < 8 && right0 > 16 then Wrap8(lx + 7) else right0;
    (if Min(x, lx) > right then 0 else Min(x, lx), right)
  }

  function LastSpan(lx: uint8): Span {
    (if lx < Wrap8(lx + 7) then lx else 0, Wrap8(lx + 7))
  }

  function BlockSpan(x: uint8): Span {
    var right := Wrap8((x + 7) / 8);
    (if x / 8 < right then x / 8 else 0, right)
  }

  lemma SpansOf(p: Place)
    requires p.w == 8
    ensures p.IsNearMove() <==> Near(p.x, p.lx) && Near(p.y, p.ly)
    ensures var u, v := LastSpan(p.lx), LastSpan(p.ly); p.GetLRect() == Rect(u.0, v.0, u.1, v.1)
    ensures var u, v := BlockSpan(p.x), BlockSpan(p.y); p.GetRect() == Rect(u.0, v.0, u.1, v.1)
  {
  }

  lemma UpdateSpansOf(p: Place)
    requires p.w == 8
    ensures var u, v := UpdateSpan(p.x, p.lx), UpdateSpan(p.y, p.ly); p.GetUpdateRect() == Rect(u.0, v.0, u.1, v.1)
  {
  }

  lemma WrapPlus7(x: uint8)
    ensures Wrap8(x + 7) == if x <= 248 then x + 7 else x - 249
  {
  }

  // The unsigned stand-in for abs.
  lemma NearDifference(x: uint8, lx: uint8)
    ensures Near(x, lx) <==> -8 < x - lx < 8 || x - lx > 248 || x - lx < -248
  {
    assert Wrap8(x - lx) == if x >= lx then x - lx else x - lx + 256;
    assert Wrap8(lx - x) == if lx >= x then lx - x else lx - x + 256;
  }

  // After a near move, the update rectangle covers the new place but for tile 0 of an entering move ...
  lemma UpdateCoversNew(x: uint8, lx: uint8, t: nat)
    requires Near(x, lx) && Covers(x, t) && t <= 29
    ensures SpanCovers(UpdateSpan(x, lx), t) <==> !(t == 0 && EntersOverEdge(x, lx))
  {
    NearDifference(x, lx);
    WrapPlus7(x);
    WrapPlus7(lx);
  }

  // ... and all of the old place.
  lemma UpdateCoversOld(x: uint8, lx: uint8, t: nat)
    requires Near(x, lx) && Covers(lx, t) && t <= 29
    ensures SpanCovers(UpdateSpan(x, lx), t)
  {
    NearDifference(x, lx);
    WrapPlus7(x);
    WrapPlus7(lx);
  }

  // The last rectangle is the old place ...
  lemma LastCovers(lx: uint8, t: nat)
    requires t <= 29
    ensures SpanCovers(LastSpan(lx), t) <==> Covers(lx, t)
  {
    WrapPlus7(lx);
  }

  // ... but getRect already counts in blocks, so updateRegion's shift leaves of the new place only tile 0.
  lemma BlockCovers(x: uint8, t: nat)
    requires Covers(x, t) && t <= 29
    ensures SpanCovers(BlockSpan(x), t) <==> t == 0 && x <= 7
  {
    WrapPlus7(x);
    RoundedUp(x);
  }

  lemma RoundedUp(x: uint8)
    ensures Wrap8((x + 7) / 8) == (if x % 8 == 0 then x / 8 else x / 8 + 1) && x / 8 <= 31
  {
  }

  lemma InRegion(ur: Rect, area: Rect, tx: nat, ty: nat)
    ensures (tx, ty) in RegionTiles(ur, area)
            <==> InArea(area, tx, ty) && ur.left / 8 <= tx <= ur.right / 8 && ur.top / 8 <= ty <= ur.bottom / 8
  {
    InTiles(Max(ur.left / 8, area.left), Min(ur.right / 8, area.right), Max(ur.top / 8, area.top), Min(ur.bottom / 8, area.bottom));
  }

  // ------ What drawSprites redraws of 8x8 sprites ------

  // Tile 0 on the axis a near move enters over.
  predicate EntersTile(p: Place, tx: nat, ty: nat) {
    (tx == 0 && EntersOverEdge(p.x, p.lx)) || (ty == 0 && EntersOverEdge(p.y, p.ly))
  }

  // The old place is always redrawn.
  lemma OldPlaceRedrawn(p: Place, area: Rect, tx: nat, ty: nat)
    requires p.w == 8 && InArea(area, tx, ty) && tx <= 29 && ty <= 29 && Occupies(p.lx, p.ly, tx, ty)
    ensures (tx, ty) in SpriteTiles(p, area)
  {
    SpansOf(p);
    UpdateSpansOf(p);
    if p.IsNearMove() {
      UpdateCoversOld(p.x, p.lx, tx);
      UpdateCoversOld(p.y, p.ly, ty);
      InRegion(p.GetUpdateRect(), area, tx, ty);
    } else {
      LastCovers(p.lx, tx);
      LastCovers(p.ly, ty);
      InRegion(p.GetLRect(), area, tx, ty);
    }
  }

  // A tile of the new place is redrawn: after a near move if the sprite does not enter there, after a far
  // move if it is the corner tile or under the old place.
  predicate NewTileRedrawn(p: Place, tx: nat, ty: nat) {
    if p.IsNearMove() then !EntersTile(p, tx, ty)
    else (tx == 0 && ty == 0 && p.x <= 7 && p.y <= 7) || Occupies(p.lx, p.ly, tx, ty)
  }

  lemma NewPlaceRedrawn(p: Place, area: Rect, tx: nat, ty: nat)
    requires p.w == 8 && InArea(area, tx, ty) && tx <= 29 && ty <= 29 && Occupies(p.x, p.y, tx, ty)
    ensures (tx, ty) in SpriteTiles(p, area) <==> NewTileRedrawn(p, tx, ty)
  {
    SpansOf(p);
    UpdateSpansOf(p);
    if p.IsNearMove() {
      UpdateCoversNew(p.x, p.lx, tx);
      UpdateCoversNew(p.y, p.ly, ty);
      InRegion(p.GetUpdateRect(), area, tx, ty);
    } else {
      LastCovers(p.lx, tx);
      LastCovers(p.ly, ty);
      BlockCovers(p.x, tx);
      BlockCovers(p.y, ty);
      InRegion(p.GetLRect(), area, tx, ty);
      InRegion(p.GetRect(), area, tx, ty);
    }
  }

  // Displays have at most 240 columns and rows.
  ghost predicate SmallArea(area: Rect) {
    area.right <= 29 && area.bottom <= 29
  }

  ghost predicate EightWide(ps: seq<Place>) {
    forall i | 0 <= i < |ps| :: ps[i].w == 8
  }

  // The tiles a far-moved sprite arrives at, and those a near-moved one enters at.
  predicate Arrives(p: Place, tx: nat, ty: nat) {
    Occupies(p.x, p.y, tx, ty) && (!p.IsNearMove() || EntersTile(p, tx, ty))
  }

  // Every arrival in the area is redrawn by the pass.
  ghost predicate ArrivalsRedrawn(ps: seq<Place>, area: Rect) {
    forall i, tx: nat, ty: nat | 0 <= i < |ps| && InArea(area, tx, ty) && Arrives(ps[i], tx, ty) ::
      (tx, ty) in RedrawnTiles(ps, |ps|, area)
  }

  lemma ArrivalIsMove(p: Place, tx: nat, ty: nat)
    requires p.w == 8 && Arrives(p, tx, ty)
    ensures Moved(p)
  {
    SpansOf(p);
    NearDifference(p.x, p.lx);
    NearDifference(p.y, p.ly);
  }

  lemma ArrivalsAreMoves(ps: seq<Place>, area: Rect)
    requires EightWide(ps) && SmallArea(area)
    ensures MovesRedrawn(ps, RedrawnTiles(ps, |ps|, area), area) <==> ArrivalsRedrawn(ps, area)
  {
    var redrawn := RedrawnTiles(ps, |ps|, area);
    forall i, tx: nat, ty: nat | 0 <= i < |ps| && InArea(area, tx, ty)
      ensures Occupies(ps[i].lx, ps[i].ly, tx, ty) ==> (tx, ty) in redrawn
      ensures Occupies(ps[i].x, ps[i].y, tx, ty) ==> (tx, ty) in redrawn || Arrives(ps[i], tx, ty)
      ensures Arrives(ps[i], tx, ty) ==> Moved(ps[i])
    {
      RedrawnForSome(ps, |ps|, area, i);
      if Occupies(ps[i].lx, ps[i].ly, tx, ty) { OldPlaceRedrawn(ps[i], area, tx, ty); }
      if Occupies(ps[i].x, ps[i].y, tx, ty) { NewPlaceRedrawn(ps[i], area, tx, ty); }
      if Arrives(ps[i], tx, ty) { ArrivalIsMove(ps[i], tx, ty); }
    }
  }

  // drawSprites is right for every choice of images exactly if the tiles that far-moved sprites arrive at
  // and near-moved ones enter at happen to be redrawn; all other tiles that matter always are.
  lemma DrawSpritesExact(ps: seq<Place>, area: Rect)
    requires EightWide(ps) && SmallArea(area)
    ensures (forall images: seq<seq<bv8>> | |images| == |ps| ::
               PassRight(ps, images, RedrawnTiles(ps, |ps|, area), area))
            <==> ArrivalsRedrawn(ps, area)
  {
    RedrawExact(ps, RedrawnTiles(ps, |ps|, area), area);
    ArrivalsAreMoves(ps, area);
  }

  // A pass of near moves that do not enter over an edge of the area is right.
  lemma NearMovesRight(ps: seq<Place>, images: seq<seq<bv8>>, area: Rect)
    requires EightWide(ps) && SmallArea(area) && |images| == |ps|
    requires forall i | 0 <= i < |ps| :: ps[i].IsNearMove()
    requires forall i | 0 <= i < |ps| :: area.left > 0 || !EntersOverEdge(ps[i].x, ps[i].lx)
    requires forall i | 0 <= i < |ps| :: area.top > 0 || !EntersOverEdge(ps[i].y, ps[i].ly)
    ensures PassRight(ps, images, RedrawnTiles(ps, |ps|, area), area)
  {
    forall i, tx: nat, ty: nat | 0 <= i < |ps| && InArea(area, tx, ty) ensures !Arrives(ps[i], tx, ty) {
    }
    DrawSpritesExact(ps, area);
  }

  // A lone sprite, near or far moved, is shown right for every image exactly if each tile of the area it now
  // covers is one that NewTileRedrawn allows.
  lemma LoneMove(p: Place, area: Rect)
    requires p.w == 8 && SmallArea(area)
    ensures (forall images: seq<seq<bv8>> | |images| == 1 :: PassRight([p], images, RedrawnTiles([p], 1, area), area))
            <==> forall tx: nat, ty: nat | InArea(area, tx, ty) && Occupies(p.x, p.y, tx, ty) :: NewTileRedrawn(p, tx, ty)
  {
    var ps := [p];
    DrawSpritesExact(ps, area);
    assert RedrawnTiles(ps, 1, area) == SpriteTiles(p, area) by {
      assert RedrawnTiles(ps, 0, area) == {};
    }
    forall tx: nat, ty: nat | InArea(area, tx, ty) && Occupies(p.x, p.y, tx, ty)
      ensures (tx, ty) in RedrawnTiles(ps, 1, area) <==> NewTileRedrawn(p, tx, ty)
      ensures !Arrives(p, tx, ty) ==> NewTileRedrawn(p, tx, ty)
    {
      NewPlaceRedrawn(p, area, tx, ty);
    }
    if ArrivalsRedrawn(ps, area) {
      forall tx: nat, ty: nat | InArea(area, tx, ty) && Occupies(p.x, p.y, tx, ty) ensures NewTileRedrawn(p, tx, ty) {
        assert Arrives(ps[0], tx, ty) ==> (tx, ty) in RedrawnTiles(ps, 1, area);
      }
    } else {
      var i, tx: nat, ty: nat :| 0 <= i < 1 && InArea(area, tx, ty) && Arrives(ps[i], tx, ty)
        && (tx, ty) !in RedrawnTiles(ps, 1, area);
      assert Occupies(p.x, p.y, tx, ty);
    }
  }

  // A jump from one corner of a 128x64 display to its middle is not shown ...
  lemma FarMoveLost()
    ensures exists images: seq<seq<bv8>> | |images| == 1 ::
      !PassRight([Place(64, 32, 8, 0, 0)], images, RedrawnTiles([Place(64, 32, 8, 0, 0)], 1, Rect(0, 0, 15, 7)), Rect(0, 0, 15, 7))
  {
    var p := Place(64, 32, 8, 0, 0);
    assert Occupies(64, 32, 8, 4) && !NewTileRedrawn(p, 8, 4);
    LoneMove(p, Rect(0, 0, 15, 7));
  }

  // ... and neither is the column of a sprite that slides in over the left edge, pixel by pixel.
  lemma EnteringColumnLost()
    ensures exists images: seq<seq<bv8>> | |images| == 1 ::
      !PassRight([Place(249, 0, 8, 248, 0)], images, RedrawnTiles([Place(249, 0, 8, 248, 0)], 1, Rect(0, 0, 15, 7)), Rect(0, 0, 15, 7))
  {
    var p := Place(249, 0, 8, 248, 0);
    assert Occupies(249, 0, 0, 0) && !NewTileRedrawn(p, 0, 0);
    LoneMove(p, Rect(0, 0, 15, 7));
  }

  // A set of tiles of the display has been redrawn with the sprites, the others left alone.
  ghost predicate Repainted(before: Image, after: Image, tiles: set<Tile>, ps: seq<Place>, images: seq<seq<bv8>>)
    requires |ps| == |images|
  {
    && before.w == after.w && before.h == after.h
    && forall px: nat, py: nat | px < after.w && py < after.h ::
         PixOf(after.bytes, after.w, after.h, px, py)
         == if (px / 8, py / 8) in tiles then Overlay(ps, images, |ps|, px, py)
            else PixOf(before.bytes, after.w, after.h, px, py)
  }

  lemma RepaintedTwice(a: Image, b: Image, c: Image, tiles: set<Tile>, more: set<Tile>,
                       ps: seq<Place>, ps': seq<Place>, images: seq<seq<bv8>>)
    requires |ps| == |ps'| == |images| && SamePositions(ps, ps')
    requires Repainted(a, b, tiles, ps, images) && Repainted(b, c, more, ps', images)
    ensures Repainted(a, c, tiles + more, ps, images)
  {
    forall px: nat, py: nat | px < a.w && py < a.h
      ensures PixOf(c.bytes, a.w, a.h, px, py) == if (px / 8, py / 8) in tiles + more then Overlay(ps, images, |ps|, px, py)
                                                  else PixOf(a.bytes, a.w, a.h, px, py)
    {
      SameOverlay(ps, ps', images, px, py);
    }
  }

  // An image shows, throughout the area, every sprite at its last drawn position and nothing else.
  ghost predicate ShowsLast(screen: Image, ps: seq<Place>, images: seq<seq<bv8>>, area: Rect)
    requires |ps| == |images|
  {
    forall px: nat, py: nat | px < screen.w && py < screen.h && InArea(area, px / 8, py / 8) ::
      PixOf(screen.bytes, screen.w, screen.h, px, py) == OverlayLast(ps, images, |ps|, px, py)
  }

  // The place of a sprite after its drawing.
  function Settled(p: Place): Place {
    p.(lx := p.x, ly := p.y)
  }

  // The places when all sprites of the pass are drawn.
  function AllSettled(ps: seq<Place>): (r: seq<Place>)
    ensures |r| == |ps|
  {
    seq(|ps|, i requires 0 <= i < |ps| => Settled(ps[i]))
  }

  ghost predicate AreaOn(area: Rect, screen: Image) {
    8 * area.right + 8 <= screen.w <= 256 && 8 * area.bottom + 8 <= screen.h <= 256
  }

  lemma LastIsNew(ps: seq<Place>, images: seq<seq<bv8>>, px: nat, py: nat)
    requires |ps| == |images|
    ensures OverlayLast(AllSettled(ps), images, |ps|, px, py) == Overlay(ps, images, |ps|, px, py)
  {
    var qs := AllSettled(ps);
    forall i | 0 <= i < |ps|
      ensures Lights(images[i], qs[i].lx, qs[i].ly, px, py) == Lights(images[i], ps[i].x, ps[i].y, px, py)
    {
    }
  }

  // What an up-to-date display shows at a pixel of the area after a repaint.
  lemma RepaintShows(before: Image, after: Image, ps: seq<Place>, images: seq<seq<bv8>>, redrawn: set<Tile>, area: Rect, px: nat, py: nat)
    requires |ps| == |images| && AreaOn(area, before)
    requires ShowsLast(before, ps, images, area) && Repainted(before, after, redrawn, ps, images)
    requires px < after.w && py < after.h && InArea(area, px / 8, py / 8)
    ensures PixOf(after.bytes, after.w, after.h, px, py) == ShownAfter(ps, images, redrawn, px, py)
  {
  }

  // An up-to-date display is up to date after a pass exactly if the pass is right.
  lemma PassShown(before: Image, after: Image, ps: seq<Place>, images: seq<seq<bv8>>, redrawn: set<Tile>, area: Rect)
    requires |ps| == |images| && AreaOn(area, before)
    requires ShowsLast(before, ps, images, area) && Repainted(before, after, redrawn, ps, images)
    ensures ShowsLast(after, AllSettled(ps), images, area) <==> PassRight(ps, images, redrawn, area)
  {
    forall px: nat, py: nat | px < after.w && py < after.h && InArea(area, px / 8, py / 8)
      ensures PixOf(after.bytes, after.w, after.h, px, py) == ShownAfter(ps, images, redrawn, px, py)
      ensures OverlayLast(AllSettled(ps), images, |ps|, px, py) == Overlay(ps, images, |ps|, px, py)
    {
      RepaintShows(before, after, ps, images, redrawn, area, px, py);
      LastIsNew(ps, images, px, py);
    }
  }

  // ------ Removing a sprite ------

  // A list without entry k, if it has one.
  function Drop<T>(s: seq<T>, k: nat): (r: seq<T>)
    ensures |r| == if k < |s| then |s| - 1 else |s|
    ensures forall i | 0 <= i < |r| :: r[i] == if i < k then s[i] else s[i + 1]
  {
    if k < |s| then s[..k] + s[k + 1..] else s
  }

  // All sprites but the k-th at their last positions.
  ghost predicate OverlayLastBut(ps: seq<Place>, images: seq<seq<bv8>>, k: nat, px: nat, py: nat)
    requires |ps| == |images|
  {
    exists i | 0 <= i < |ps| && i != k :: Lights(images[i], ps[i].lx, ps[i].ly, px, py)
  }

  lemma DroppedOverlay(ps: seq<Place>, images: seq<seq<bv8>>, k: nat, px: nat, py: nat)
    requires |ps| == |images|
    ensures OverlayLast(Drop(ps, k), Drop(images, k), |Drop(ps, k)|, px, py) == OverlayLastBut(ps, images, k, px, py)
  {
    var qs, kept := Drop(ps, k), Drop(images, k);
    if OverlayLast(qs, kept, |qs|, px, py) {
      var i :| 0 <= i < |qs| && Lights(kept[i], qs[i].lx, qs[i].ly, px, py);
      var j := if i < k then i else i + 1;
      assert k < |ps| ==> Lights(images[j], ps[j].lx, ps[j].ly, px, py);
    }
    if OverlayLastBut(ps, images, k, px, py) {
      var j :| 0 <= j < |ps| && j != k && Lights(images[j], ps[j].lx, ps[j].ly, px, py);
      var i := if j < k then j else j - 1;
      assert k < |ps| ==> Lights(kept[i], qs[i].lx, qs[i].ly, px, py);
    }
  }

  // The tiles redrawn before the removal show the rest of the pool where it was last drawn.
  ghost predicate RemovalRight(ps: seq<Place>, images: seq<seq<bv8>>, k: nat, redrawn: set<Tile>, area: Rect)
    requires |ps| == |images|
  {
    forall px: uint8, py: uint8 | InArea(area, px / 8, py / 8) ::
      ShownAfter(ps, images, redrawn, px, py) == OverlayLastBut(ps, images, k, px, py)
  }

  // A tile that comes out wrong for some image: a redrawn one under the removed sprite or where another
  // sprite has moved from or to, and any other one where the removed sprite was.
  predicate Disturbs(p: Place, removed: bool, redrawn: bool, tx: nat, ty: nat) {
    if removed then (if redrawn then Occupies(p.x, p.y, tx, ty) else Occupies(p.lx, p.ly, tx, ty))
    else redrawn && Moved(p) && (Occupies(p.x, p.y, tx, ty) || Occupies(p.lx, p.ly, tx, ty))
  }

  ghost predicate RemovalHarmless(ps: seq<Place>, k: nat, redrawn: set<Tile>, area: Rect) {
    forall i, tx: nat, ty: nat | 0 <= i < |ps| && InArea(area, tx, ty) :: !Disturbs(ps[i], i == k, (tx, ty) in redrawn, tx, ty)
  }

  lemma RemovalSuffices(ps: seq<Place>, images: seq<seq<bv8>>, k: nat, redrawn: set<Tile>, area: Rect)
    requires |ps| == |images| && RemovalHarmless(ps, k, redrawn, area)
    ensures RemovalRight(ps, images, k, redrawn, area)
  {
    forall px: uint8, py: uint8, i | InArea(area, px / 8, py / 8) && 0 <= i < |ps|
      ensures i == k && (px / 8, py / 8) in redrawn ==> !Lights(images[i], ps[i].x, ps[i].y, px, py)
      ensures i == k && (px / 8, py / 8) !in redrawn ==> !Lights(images[i], ps[i].lx, ps[i].ly, px, py)
      ensures i != k && (px / 8, py / 8) in redrawn ==>
        Lights(images[i], ps[i].x, ps[i].y, px, py) == Lights(images[i], ps[i].lx, ps[i].ly, px, py)
    {
      assert !Disturbs(ps[i], i == k, (px / 8, py / 8) in redrawn, px / 8, py / 8);
      if Lights(images[i], ps[i].x, ps[i].y, px, py) { LightsInTile(images[i], ps[i].x, ps[i].y, px, py); }
      if Lights(images[i], ps[i].lx, ps[i].ly, px, py) { LightsInTile(images[i], ps[i].lx, ps[i].ly, px, py); }
    }
  }

  lemma RemovalNeeds(ps: seq<Place>, k: nat, redrawn: set<Tile>, area: Rect, i: nat, tx: nat, ty: nat) returns (images: seq<seq<bv8>>)
    requires i < |ps| && InArea(area, tx, ty) && Disturbs(ps[i], i == k, (tx, ty) in redrawn, tx, ty)
    ensures |images| == |ps| && !RemovalRight(ps, images, k, redrawn, area)
  {
    var p := ps[i];
    var there := if i == k then (tx, ty) in redrawn else Occupies(p.x, p.y, tx, ty);
    var x, y := if there then p.x else p.lx, if there then p.y else p.ly;
    var x', y' := if there then p.lx else p.x, if there then p.ly else p.y;
    var px := CoveredPixel(x, tx);
    var py := CoveredPixel(y, ty);
    images := DotImage(|ps|, i, Dist(px, x), Dist(py, y));
    DotAlone(|ps|, i, px, py, x, y);
    if i != k { DotMoves(|ps|, i, px, py, x, y, x', y'); }
    assert ShownAfter(ps, images, redrawn, px, py) != OverlayLastBut(ps, images, k, px, py);
  }

  // For all positions, moved or not: after a removal the display is right for every choice of images exactly
  // if no tile is disturbed.
  lemma RemovalExact(ps: seq<Place>, k: nat, redrawn: set<Tile>, area: Rect)
    ensures (forall images: seq<seq<bv8>> | |images| == |ps| :: RemovalRight(ps, images, k, redrawn, area))
            <==> RemovalHarmless(ps, k, redrawn, area)
  {
    if RemovalHarmless(ps, k, redrawn, area) {
      forall images: seq<seq<bv8>> | |images| == |ps| ensures RemovalRight(ps, images, k, redrawn, area) {
        RemovalSuffices(ps, images, k, redrawn, area);
      }
    } else {
      var i, tx: nat, ty: nat :| 0 <= i < |ps| && InArea(area, tx, ty) && Disturbs(ps[i], i == k, (tx, ty) in redrawn, tx, ty);
      var images := RemovalNeeds(ps, k, redrawn, area, i, tx, ty);
    }
  }

  // With no sprite moved since it was drawn: exactly if the sprite was not in the pool or lies outside of the
  // area, whatever is redrawn.
  lemma SettledRemoval(ps: seq<Place>, k: nat, redrawn: set<Tile>, area: Rect)
    requires forall i | 0 <= i < |ps| :: !Moved(ps[i])
    ensures (forall images: seq<seq<bv8>> | |images| == |ps| :: RemovalRight(ps, images, k, redrawn, area))
            <==> k >= |ps| || forall tx: nat, ty: nat | InArea(area, tx, ty) :: !Occupies(ps[k].x, ps[k].y, tx, ty)
  {
    RemovalExact(ps, k, redrawn, area);
    forall i, tx: nat, ty: nat | 0 <= i < |ps| && InArea(area, tx, ty)
      ensures Disturbs(ps[i], i == k, (tx, ty) in redrawn, tx, ty) <==> i == k && Occupies(ps[i].x, ps[i].y, tx, ty)
    {
    }
  }

  // A lone sprite in the corner of a 128x64 display stays there when it is removed.
  lemma RemovedStaysShown(redrawn: set<Tile>)
    ensures exists images: seq<seq<bv8>> | |images| == 1 ::
      !RemovalRight([Place(0, 0, 8, 0, 0)], images, 0, redrawn, Rect(0, 0, 15, 7))
  {
    SettledRemoval([Place(0, 0, 8, 0, 0)], 0, redrawn, Rect(0, 0, 15, 7));
    assert InArea(Rect(0, 0, 15, 7), 0, 0) && Occupies(0, 0, 0, 0);
  }

  // An up-to-date display is up to date after a removal exactly if the removal is right.
  lemma RemovalShown(before: Image, after: Image, ps: seq<Place>, images: seq<seq<bv8>>, k: nat, redrawn: set<Tile>, area: Rect)
    requires |ps| == |images| && AreaOn(area, before)
    requires ShowsLast(before, ps, images, area) && Repainted(before, after, redrawn, ps, images)
    ensures ShowsLast(after, Drop(ps, k), Drop(images, k), area) <==> RemovalRight(ps, images, k, redrawn, area)
  {
    forall px: nat, py: nat | px < after.w && py < after.h && InArea(area, px / 8, py / 8)
      ensures PixOf(after.bytes, after.w, after.h, px, py) == ShownAfter(ps, images, redrawn, px, py)
      ensures OverlayLast(Drop(ps, k), Drop(images, k), |Drop(ps, k)|, px, py) == OverlayLastBut(ps, images, k, px, py)
    {
      RepaintShows(before, after, ps, images, redrawn, area, px, py);
      DroppedOverlay(ps, images, k, px, py);
    }
  }

  // Shifting the active area to pixels and back keeps it.
  lemma WholeArea(area: Rect)
    requires area.right < 32 && area.bottom < 32
    ensures RegionTiles(Rect(Wrap8(area.left * 8), Wrap8(area.top * 8), Wrap8(area.right * 8), Wrap8(area.bottom * 8)), area)
         == Tiles(area.left, area.right, area.top, area.bottom)
  {
    assert Wrap8(area.right * 8) / 8 == area.right && Wrap8(area.bottom * 8) / 8 == area.bottom;
    assert Wrap8(area.left * 8) / 8 <= area.left && Wrap8(area.top * 8) / 8 <= area.top;
  }
}

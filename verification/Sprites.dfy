// Sprites and the rectangles nano_gfx_types.h derives from their new and last positions.
module Sprites {
  import opened Words

  datatype Rect = Rect(left: uint8, top: uint8, right: uint8, bottom: uint8)

  // Where a sprite is: draw position, width, last draw position.
  datatype Place = Place(x: uint8, y: uint8, w: uint8, lx: uint8, ly: uint8)
  {
    predicate IsNearMove() {
      && (Wrap8(x - lx) < w || Wrap8(lx - x) < w)
      && (Wrap8(y - ly) < 8 || Wrap8(ly - y) < 8)
    }

    // In blocks of eight pixels, unlike the other two.
    function GetRect(): Rect {
      var right, bottom := Wrap8((x + w - 1) / 8), Wrap8((y + 7) / 8);
      var left, top := x / 8, y / 8;
      Rect(if left < right then left else 0, if top < bottom then top else 0, right, bottom)
    }

    function GetLRect(): Rect {
      var right, bottom := Wrap8(lx + w - 1), Wrap8(ly + 7);
      Rect(if lx < right then lx else 0, if ly < bottom then ly else 0, right, bottom)
    }

    function GetUpdateRect(): Rect {
      var left, top := Min(x, lx), Min(y, ly);
      var right0 := Max(Wrap8(x + w - 1), Wrap8(lx + w - 1));
      var right := if Wrap8(lx + w - 1) < w && right0 > 2 * w then Wrap8(lx + w - 1) else right0;
      var bottom0 := Max(Wrap8(y + 7), Wrap8(ly + 7));
      var bottom := if Wrap8(ly + 7) < 8 && bottom0 > 16 then Wrap8(ly + 7) else bottom0;
      Rect(if left > right then 0 else left, if top > bottom then 0 else top, right, bottom)
    }
  }

  function Min(a: uint8, b: uint8): uint8 { if a < b then a else b }

  function Max(a: uint8, b: uint8): uint8 { if a > b then a else b }

  // Sprites of any width that lie within the 256 coordinates at both positions.
  predicate Unwrapped(p: Place) {
    1 <= p.w && p.x + p.w <= 256 && p.lx + p.w <= 256 && p.y + 8 <= 256 && p.ly + 8 <= 256
  }

  // A move is near exactly if the two positions overlap; ...
  lemma NearIsOverlap(p: Place)
    requires Unwrapped(p)
    ensures p.IsNearMove() <==> p.x < p.lx + p.w && p.lx < p.x + p.w && p.y < p.ly + 8 && p.ly < p.y + 8
  {
    WrapDifference(p.x, p.lx);
    WrapDifference(p.lx, p.x);
    WrapDifference(p.y, p.ly);
    WrapDifference(p.ly, p.y);
  }

  lemma WrapDifference(a: uint8, b: uint8)
    ensures Wrap8(a - b) == if a >= b then a - b else a - b + 256
  {
  }

  // ... its update rectangle is then the least one around both, ...
  lemma UpdateRectIsHull(p: Place)
    requires Unwrapped(p) && p.IsNearMove()
    ensures p.GetUpdateRect() == Rect(if p.x < p.lx then p.x else p.lx, if p.y < p.ly then p.y else p.ly,
                                      if p.x > p.lx then p.x + p.w - 1 else p.lx + p.w - 1, if p.y > p.ly then p.y + 7 else p.ly + 7)
  {
    NearIsOverlap(p);
    HullAcross(p);
    HullDown(p);
  }

  lemma HullAcross(p: Place)
    requires Unwrapped(p) && p.x < p.lx + p.w && p.lx < p.x + p.w
    ensures p.GetUpdateRect().left == if p.x < p.lx then p.x else p.lx
    ensures p.GetUpdateRect().right == if p.x > p.lx then p.x + p.w - 1 else p.lx + p.w - 1
  {
    assert Wrap8(p.x + p.w - 1) == p.x + p.w - 1 && Wrap8(p.lx + p.w - 1) == p.lx + p.w - 1;
  }

  lemma HullDown(p: Place)
    requires Unwrapped(p) && p.y < p.ly + 8 && p.ly < p.y + 8
    ensures p.GetUpdateRect().top == if p.y < p.ly then p.y else p.ly
    ensures p.GetUpdateRect().bottom == if p.y > p.ly then p.y + 7 else p.ly + 7
  {
    assert Wrap8(p.y + 7) == p.y + 7 && Wrap8(p.ly + 7) == p.ly + 7;
  }

  // ... and the rectangles of the last position, in pixels, and of the new one, in blocks, are those of their
  // pixels, except that one of a single column or block starts at 0.
  lemma PlaceRects(p: Place)
    requires Unwrapped(p)
    ensures p.GetLRect() == Rect(if p.w == 1 then 0 else p.lx, p.ly, p.lx + p.w - 1, p.ly + 7)
    ensures p.GetRect() == Rect(if p.x / 8 == (p.x + p.w - 1) / 8 then 0 else p.x / 8,
                                if p.y / 8 == (p.y + 7) / 8 then 0 else p.y / 8, (p.x + p.w - 1) / 8, (p.y + 7) / 8)
  {
    assert Wrap8(p.lx + p.w - 1) == p.lx + p.w - 1 && Wrap8(p.ly + 7) == p.ly + 7;
  }
}

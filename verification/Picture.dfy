// The meaning of a page-packed buffer: a plain set of pixels.  A byte holds eight vertical pixels;
// page y / 8 of the image is a run of w bytes.
module Picture {
  import opened Bits
  import opened Grid

  datatype Bitmap = Bitmap(w: nat, h: nat, bytes: seq<bv8>)

  // A buffer with its size.
  type Image = b: Bitmap | IsImage(b.bytes, b.w, b.h) witness Bitmap(1, 0, [])

  ghost predicate IsImage(bytes: seq<bv8>, w: nat, h: nat) {
    w >= 1 && h % 8 == 0 && |bytes| == h / 8 * w
  }

  ghost function PixOf(bytes: seq<bv8>, w: nat, h: nat, x: nat, y: nat): bool
    requires IsImage(bytes, w, h) && x < w && y < h
  {
    IndexInRange(h / 8, w, y / 8, x);
    Bit(bytes[y / 8 * w + x], y % 8)
  }

  // The pixels determine the buffer.
  lemma PixelsDetermine(a: seq<bv8>, b: seq<bv8>, w: nat, h: nat)
    requires IsImage(a, w, h) && IsImage(b, w, h)
    requires forall x: nat, y: nat | x < w && y < h :: PixOf(a, w, h, x, y) == PixOf(b, w, h, x, y)
    ensures a == b
  {
    forall i | 0 <= i < |a| ensures a[i] == b[i] {
      DivModOf(i, w);
      var page, x := i / w, i % w;
      if page >= h / 8 { ProductMonotone(h / 8, page, w); }
      forall k: nat | k < 8 ensures Bit(a[i], k) == Bit(b[i], k) {
        assert PixOf(a, w, h, x, page * 8 + k) == PixOf(b, w, h, x, page * 8 + k);
      }
      BitsDetermine(a[i], b[i]);
    }
  }
}

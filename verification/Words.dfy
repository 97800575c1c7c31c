// The fixed-width integers of the ESP32 target: values, and the wrap-around of
// unsigned arithmetic.
module Words {
  const TWO32: nat := 0x1_0000_0000

  type uint8 = x: int | 0 <= x < 256
  type uint16 = x: int | 0 <= x < 65536
  type uint32 = x: int | 0 <= x < TWO32

  function Wrap8(x: int): uint8 { x % 256 }

  function Wrap32(x: int): uint32 { x % TWO32 }

  // How far b lies before a on the circle of 256 coordinates.
  function Dist(a: nat, b: nat): nat { (a - b) % 256 }

  function Pow2(k: nat): (p: nat)
    ensures p >= 1
  {
    if k == 0 then 1 else 2 * Pow2(k - 1)
  }

  ghost predicate IsPow2(n: nat) {
    exists k: nat :: n == Pow2(k)
  }

  lemma {:induction false} Pow2Monotone(a: nat, b: nat)
    requires a <= b
    ensures Pow2(a) <= Pow2(b)
  {
    if a < b { Pow2Monotone(a, b - 1); }
  }
}

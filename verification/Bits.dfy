// Bit algebra of one byte: what the C operators |, &, ~, << and >> do to each
// of the eight bits.
module Bits {

  // Bit k of b, bit 0 being the least significant.
  predicate Bit(b: bv8, k: nat)
    requires k < 8
  {
    match k
    case 0 => b & 0x01 != 0
    case 1 => b & 0x02 != 0
    case 2 => b & 0x04 != 0
    case 3 => b & 0x08 != 0
    case 4 => b & 0x10 != 0
    case 5 => b & 0x20 != 0
    case 6 => b & 0x40 != 0
    case _ => b & 0x80 != 0
  }

  // A shift drops the bits that leave the byte, as storing the promoted C result into a uint8_t does.
  function Shl(b: bv8, s: nat): bv8
    requires s <= 8
  {
    b << s
  }

  function Shr(b: bv8, s: nat): bv8
    requires s <= 8
  {
    b >> s
  }

  lemma BitOr(a: bv8, b: bv8)
    ensures forall k: nat | k < 8 :: Bit(a | b, k) == (Bit(a, k) || Bit(b, k))
  {
    forall k: nat | k < 8 ensures Bit(a | b, k) == (Bit(a, k) || Bit(b, k)) {
      match k
      case 0 => case 1 => case 2 => case 3 => case 4 => case 5 => case 6 =>
      case _ => assert k == 7;
    }
  }

  lemma BitAnd(a: bv8, b: bv8)
    ensures forall k: nat | k < 8 :: Bit(a & b, k) == (Bit(a, k) && Bit(b, k))
  {
    forall k: nat | k < 8 ensures Bit(a & b, k) == (Bit(a, k) && Bit(b, k)) {
      match k
      case 0 => case 1 => case 2 => case 3 => case 4 => case 5 => case 6 =>
      case _ => assert k == 7;
    }
  }

  lemma BitNot(a: bv8)
    ensures forall k: nat | k < 8 :: Bit(!a, k) == !Bit(a, k)
  {
  }

  lemma BitShl(a: bv8, s: nat)
    requires s <= 8
    ensures forall k: nat | k < 8 :: Bit(Shl(a, s), k) == (s <= k && Bit(a, k - s))
  {
    match s
    case 0 => case 1 => case 2 => case 3 => case 4 => case 5 => case 6 => case 7 =>
    case _ => assert s == 8;
  }

  lemma BitShr(a: bv8, s: nat)
    requires s <= 8
    ensures forall k: nat | k < 8 :: Bit(Shr(a, s), k) == (s + k < 8 && Bit(a, s + k))
  {
    match s
    case 0 => case 1 => case 2 => case 3 => case 4 => case 5 => case 6 => case 7 =>
    case _ => assert s == 8;
  }

  lemma BitConst()
    ensures forall k: nat | k < 8 :: Bit(0xFF, k)
    ensures forall k: nat | k < 8 :: !Bit(0, k)
  {
  }

  // Two bytes with the same bits are the same byte.
  lemma BitsDetermine(a: bv8, b: bv8)
    requires forall k: nat | k < 8 :: Bit(a, k) == Bit(b, k)
    ensures a == b
  {
    assert Bit(a, 0) == Bit(b, 0) && Bit(a, 1) == Bit(b, 1) && Bit(a, 2) == Bit(b, 2) && Bit(a, 3) == Bit(b, 3);
    assert Bit(a, 4) == Bit(b, 4) && Bit(a, 5) == Bit(b, 5) && Bit(a, 6) == Bit(b, 6) && Bit(a, 7) == Bit(b, 7);
  }
}

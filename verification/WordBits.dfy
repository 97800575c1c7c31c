// The bitwise AND of two unsigned words, on their binary digits, and the two uses ringBuff.c makes of it.
module WordBits {
  import opened Grid
  import opened Words

  function WordAnd(a: nat, b: nat): nat {
    if a == 0 || b == 0 then 0
    else (if a % 2 == 1 && b % 2 == 1 then 1 else 0) + 2 * WordAnd(a / 2, b / 2)
  }

  // Masking with 2^k - 1 is the remainder modulo 2^k.
  lemma {:induction false} AndMask(a: nat, k: nat)
    ensures WordAnd(a, Pow2(k) - 1) == a % Pow2(k)
  {
    if k == 0 {
      ModOne(a);
    } else if a == 0 {
      IndexDivMod(Pow2(k), 0, 0);
    } else {
      var d, p := Pow2(k), Pow2(k - 1);
      AndMask(a / 2, k - 1);
      AndLowBit(a, d - 1, p - 1);
      HalfMod(a, d, p);
    }
  }

  lemma ModOne(a: nat)
    ensures a % 1 == 0
  {
  }

  lemma AndLowBit(a: nat, m: nat, q: nat)
    requires a >= 1 && m == 2 * q + 1
    ensures WordAnd(a, m) == a % 2 + 2 * WordAnd(a / 2, q)
  {
    assert m / 2 == q;
  }

  lemma HalfMod(a: nat, d: nat, p: nat)
    requires p >= 1 && d == 2 * p
    ensures a % d == a % 2 + 2 * (a / 2 % p)
  {
    DivModOf(a / 2, p);
    var q, m := a / 2 / p, a % 2 + 2 * (a / 2 % p);
    assert a == q * d + m;
    IndexDivMod(d, q, m);
  }

  lemma {:induction false} AndSelf(a: nat)
    ensures WordAnd(a, a) == a
  {
    if a > 0 { AndSelf(a / 2); }
  }

  // (n - 1) & n is 0 exactly for the powers of two.
  lemma {:induction false} PowerOfTwoTest(n: nat)
    requires n >= 1
    ensures WordAnd(n - 1, n) == 0 <==> IsPow2(n)
  {
    if n == 1 {
      assert n == Pow2(0);
    } else if n % 2 == 1 {
      AndSelf(n / 2);
      forall k: nat ensures n != Pow2(k) {
        if k > 0 { assert Pow2(k) == 2 * Pow2(k - 1); }
      }
    } else {
      var m := n / 2;
      PowerOfTwoTest(m);
      assert (n - 1) / 2 == m - 1;
      if IsPow2(m) {
        var k: nat :| m == Pow2(k);
        assert n == Pow2(k + 1);
      }
      if IsPow2(n) {
        var k: nat :| n == Pow2(k);
        assert k > 0 && m == Pow2(k - 1);
      }
    }
  }

  // A power of two that fits the word divides the word's modulus.
  lemma {:induction false} Pow2Divides(a: nat, b: nat)
    requires a <= b
    ensures Pow2(b) % Pow2(a) == 0
  {
    if a == b {
    } else {
      Pow2Divides(a, b - 1);
      var p, q := Pow2(a), Pow2(b - 1);
      assert q == q / p * p;
      assert Pow2(b) == 2 * (q / p) * p;
      IndexDivMod(p, 2 * (q / p), 0);
    }
  }

  lemma Pow2Of32()
    ensures Pow2(32) == TWO32
  {
    assert Pow2(8) == 256;
    assert Pow2(16) == 65536;
    assert Pow2(24) == 0x100_0000;
  }

  // Reducing a counter modulo 2^32 first does not change its remainder modulo a power of two.
  lemma WrapThenMod(x: nat, n: nat)
    requires 1 <= n < TWO32 && IsPow2(n)
    ensures Wrap32(x) % n == x % n
  {
    var k: nat :| n == Pow2(k);
    Pow2Of32();
    if k > 32 { Pow2Monotone(32, k); }
    Pow2Divides(k, 32);
    DivModOf(TWO32, n);
    DivModOf(x, TWO32);
    DropMultiple(x / TWO32, TWO32 / n, n, x % TWO32);
  }

  lemma DropMultiple(q: nat, c: nat, n: nat, r: nat)
    requires n >= 1
    ensures (q * (c * n) + r) % n == r % n
  {
    DivModOf(r, n);
    assert q * (c * n) + r == (q * c + r / n) * n + r % n;
    Product(q, c);
    IndexDivMod(n, q * c + r / n, r % n);
  }
}

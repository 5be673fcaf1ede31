// Unsigned 64-bit words as the fingerprinting code uses them: multiplication
// wraps modulo 2^64, and the only exclusive-or ever applied combines a hash
// with one byte.

module Word {

  /** 2^64: every uint64 product in the source wraps modulo this value. */
  const Modulus: nat := 0x1_0000_0000_0000_0000

  /** 0x8000000000000000, the most significant bit of a uint64. */
  const TopBit: nat := 0x8000_0000_0000_0000

  type U64 = x: nat | x < Modulus
  type Byte = x: nat | x < 256

  /** uint64 multiplication, wrapping modulo 2^64. */
  function Mul(a: U64, b: U64): U64
  {
    (a * b) % Modulus
  }

  function Pow2(n: nat): (r: nat)
    ensures r > 0
  {
    if n == 0 then 1 else 2 * Pow2(n - 1)
  }

  lemma {:induction false} Pow2Add(a: nat, b: nat)
    ensures Pow2(a + b) == Pow2(a) * Pow2(b)
    decreases a
  {
    if a > 0 {
      Pow2Add(a - 1, b);
      assert Pow2(a + b) == 2 * Pow2(a - 1 + b);
    }
  }

  lemma Pow2Values()
    ensures Pow2(8) == 256 && Pow2(63) == TopBit && Pow2(64) == Modulus
  {
    assert Pow2(2) == 4;
    assert Pow2(4) == 16 by { Pow2Add(2, 2); }
    assert Pow2(8) == 256 by { Pow2Add(4, 4); }
    assert Pow2(16) == 0x1_0000 by { Pow2Add(8, 8); }
    assert Pow2(32) == 0x1_0000_0000 by { Pow2Add(16, 16); }
    assert Pow2(64) == Modulus by { Pow2Add(32, 32); }
    assert Pow2(64) == 2 * Pow2(63);
  }

  /** Bitwise exclusive-or of two naturals, bit by bit from the least significant one. */
  function XorBits(a: nat, b: nat): nat
    decreases a + b
  {
    if a == 0 then b
    else if b == 0 then a
    else 2 * XorBits(a / 2, b / 2) + (if a % 2 == b % 2 then 0 else 1)
  }

  lemma {:induction false} XorBitsBound(a: nat, b: nat, k: nat)
    requires a < Pow2(k) && b < Pow2(k)
    ensures XorBits(a, b) < Pow2(k)
    decreases a + b
  {
    if a != 0 && b != 0 {
      assert k > 0;
      XorBitsBound(a / 2, b / 2, k - 1);
    }
  }

  lemma {:induction false} XorBitsSelfInverse(a: nat, b: nat)
    ensures XorBits(XorBits(a, b), b) == a
    decreases a + b
  {
    if a == 0 {
      XorBitsZero(b);
    } else if b != 0 {
      var c := XorBits(a, b);
      var low := if a % 2 == b % 2 then 0 else 1;
      assert c == 2 * XorBits(a / 2, b / 2) + low;
      assert c / 2 == XorBits(a / 2, b / 2) && c % 2 == low;
      XorBitsSelfInverse(a / 2, b / 2);
      if c == 0 {
        assert XorBits(a / 2, b / 2) == 0 && a % 2 == b % 2;
        XorBitsZero(b / 2);
        assert a / 2 == b / 2;
        assert a == b;
      }
    }
  }

  lemma {:induction false} XorBitsZero(a: nat)
    ensures XorBits(a, a) == 0
    decreases a
  {
    if a != 0 {
      XorBitsZero(a / 2);
    }
  }

  /**
   * `h ^= v` for a uint64 `h` and an unsigned char `v`: the upper 56 bits of
   * `h` are kept and its low byte is exclusive-or'ed with `v`.
   */
  function XorByte(h: U64, v: Byte): (r: U64)
    ensures r / 256 == h / 256
    ensures r % 256 == XorBits(h % 256, v)
    ensures v == 0 ==> r == h
  {
    Pow2Values();
    XorBitsBound(h % 256, v, 8);
    (h - h % 256) + XorBits(h % 256, v)
  }

  /** Exclusive-or with the same byte twice restores the word. */
  lemma XorByteSelfInverse(h: U64, v: Byte)
    ensures XorByte(XorByte(h, v), v) == h
  {
    XorBitsSelfInverse(h % 256, v);
  }

  /** base^n modulo 2^64, the value `uint64pow` computes. */
  function PowMod(base: U64, n: nat): U64
  {
    if n == 0 then 1 else Mul(PowMod(base, n - 1), base)
  }

  /** Reducing a factor modulo 2^64 first does not change a product modulo 2^64. */
  lemma ModMulLeft(x: nat, y: nat)
    ensures ((x % Modulus) * y) % Modulus == (x * y) % Modulus
  {
    var q := x / Modulus;
    var r := x % Modulus;
    assert x * y == (q * y) * Modulus + r * y by {
      assert x == q * Modulus + r;
    }
    ModAddMultiple(q * y, r * y);
  }

  lemma ModAddMultiple(k: nat, a: nat)
    ensures (k * Modulus + a) % Modulus == a % Modulus
  {
  }

  lemma MulOne(a: U64)
    ensures Mul(a, 1) == a && Mul(1, a) == a
  {
  }

  lemma MulComm(a: U64, b: U64)
    ensures Mul(a, b) == Mul(b, a)
  {
  }

  lemma MulAssoc(a: U64, b: U64, c: U64)
    ensures Mul(Mul(a, b), c) == Mul(a, Mul(b, c))
  {
    ModMulLeft(a * b, c);
    ModMulLeft(b * c, a);
    assert (a * b) * c == (b * c) * a;
    assert Mul(a, Mul(b, c)) == (((b * c) % Modulus) * a) % Modulus;
  }

  /** base^m * base^n == base^(m+n) in wrapping arithmetic. */
  lemma {:induction false} PowModAdd(base: U64, m: nat, n: nat)
    ensures Mul(PowMod(base, m), PowMod(base, n)) == PowMod(base, m + n)
    decreases n
  {
    if n == 0 {
      MulOne(PowMod(base, m));
    } else {
      PowModAdd(base, m, n - 1);
      MulAssoc(PowMod(base, m), PowMod(base, n - 1), base);
    }
  }

  /** The product of two odd words is odd: 2^64 is even, so wrapping keeps the parity. */
  lemma MulOdd(a: U64, b: U64)
    requires a % 2 == 1 && b % 2 == 1
    ensures Mul(a, b) % 2 == 1
  {
    var p := a * b;
    OddProduct(a, b);
    ParityWrap(p / Modulus, p % Modulus);
    assert p == (p / Modulus) * Modulus + p % Modulus;
  }

  lemma OddProduct(a: nat, b: nat)
    requires a % 2 == 1 && b % 2 == 1
    ensures (a * b) % 2 == 1
  {
    assert a == 2 * (a / 2) + 1;
    assert a * b == 2 * ((a / 2) * b) + b;
  }

  lemma ParityWrap(k: nat, r: nat)
    ensures (k * Modulus + r) % 2 == r % 2
  {
    assert k * Modulus == 2 * (k * TopBit);
  }

  lemma {:induction false} PowModOdd(base: U64, n: nat)
    requires base % 2 == 1
    ensures PowMod(base, n) % 2 == 1
    decreases n
  {
    if n > 0 {
      PowModOdd(base, n - 1);
      MulOdd(PowMod(base, n - 1), base);
    }
  }

  lemma DivBounds(a: nat, d: nat)
    requires d > 0
    ensures d * (a / d) <= a < d * (a / d + 1)
  {
  }

  lemma DivBelow(a: nat, d: nat, k: nat)
    requires d > 0 && a < k * d
    ensures a / d < k
  {
    DivBounds(a, d);
    MulMonotone(d, k, a / d);
  }

  lemma MulMonotone(d: nat, x: int, y: int)
    ensures x <= y ==> d * x <= d * y
  {
  }

  /** Division by a positive divisor: the quotient and remainder are unique. */
  lemma DivUnique(n: nat, d: nat, q: nat, r: nat)
    requires d > 0 && n == q * d + r && r < d
    ensures n / d == q
  {
    var q' := n / d;
    assert n == q' * d + n % d;
    MulMonotone(d, q' + 1, q);
    MulMonotone(d, q + 1, q');
  }

  /** `uint64pow`: multiplies 1 by `base` `exp` times, wrapping; a negative `exp` runs no iteration. */
  method UInt64Pow(base: U64, exp: int) returns (result: U64)
    ensures result == PowMod(base, if exp < 0 then 0 else exp)
  {
    result := 1;
    var i := 0;
    while i < exp
      invariant 0 <= i && (exp >= 0 ==> i <= exp) && (exp < 0 ==> i == 0)
      invariant result == PowMod(base, i)
    {
      result := Mul(result, base);
      i := i + 1;
    }
  }
}

/** Machine words as natural numbers: the bitwise operators of the daemon's
    unsigned integers, defined bit by bit, and big-endian byte strings. */
module Bits {

  newtype Byte = b: int | 0 <= b < 256
  type Bytes = seq<Byte>

  const WORD_BITS: nat := 64
  const U8_RANGE: nat := 0x100
  const U32_RANGE: nat := 0x1_0000_0000
  const U64_RANGE: nat := 0x1_0000_0000_0000_0000

  type u8 = n: nat | n < 0x100
  type u32 = n: nat | n < 0x1_0000_0000
  type u64 = n: nat | n < 0x1_0000_0000_0000_0000

  function Pow2(n: nat): (p: nat)
    ensures p > 0
  {
    if n == 0 then 1 else 2 * Pow2(n - 1)
  }

  /** The k-th binary digit of `a`. */
  predicate Bit(a: nat, k: nat) {
    if k == 0 then a % 2 == 1 else Bit(a / 2, k - 1)
  }

  function Or(a: nat, b: nat): nat {
    if a == 0 && b == 0 then 0
    else 2 * Or(a / 2, b / 2) + (if a % 2 == 1 || b % 2 == 1 then 1 else 0)
  }

  function And(a: nat, b: nat): nat {
    if a == 0 && b == 0 then 0
    else 2 * And(a / 2, b / 2) + (if a % 2 == 1 && b % 2 == 1 then 1 else 0)
  }

  function Xor(a: nat, b: nat): nat {
    if a == 0 && b == 0 then 0
    else 2 * Xor(a / 2, b / 2) + (if a % 2 != b % 2 then 1 else 0)
  }

  /** The lowest `w` binary digits of `a`. */
  function Low(a: nat, w: nat): nat {
    if w == 0 then 0 else 2 * Low(a / 2, w - 1) + a % 2
  }

  /** `a << n` on a 64-bit word: what is shifted out is lost. */
  function Shl64(a: nat, n: nat): nat {
    Low(a * Pow2(n), WORD_BITS)
  }

  /** `a >> n`. */
  function Shr(a: nat, n: nat): nat {
    if n == 0 then a else Shr(a / 2, n - 1)
  }

  lemma {:induction false} ShrTwice(a: nat, m: nat, n: nat)
    ensures Shr(Shr(a, m), n) == Shr(a, m + n)
    decreases m
  {
    if m > 0 { ShrTwice(a / 2, m - 1, n); }
  }

  lemma Digits(half: nat, digit: nat)
    requires digit < 2
    ensures (2 * half + digit) / 2 == half && (2 * half + digit) % 2 == digit
  {}

  lemma {:induction false} ZeroBit(k: nat)
    ensures !Bit(0, k)
  {
    if k > 0 { ZeroBit(k - 1); }
  }

  lemma {:induction false} OrBit(a: nat, b: nat, k: nat)
    ensures Bit(Or(a, b), k) <==> Bit(a, k) || Bit(b, k)
    decreases k
  {
    if a == 0 && b == 0 {
      ZeroBit(k);
    } else {
      Digits(Or(a / 2, b / 2), if a % 2 == 1 || b % 2 == 1 then 1 else 0);
      if k > 0 {
        OrBit(a / 2, b / 2, k - 1);
      }
    }
  }

  lemma {:induction false} AndBit(a: nat, b: nat, k: nat)
    ensures Bit(And(a, b), k) <==> Bit(a, k) && Bit(b, k)
    decreases k
  {
    if a == 0 && b == 0 {
      ZeroBit(k);
    } else {
      Digits(And(a / 2, b / 2), if a % 2 == 1 && b % 2 == 1 then 1 else 0);
      if k > 0 {
        AndBit(a / 2, b / 2, k - 1);
      }
    }
  }

  lemma {:induction false} Pow2Bit(n: nat, k: nat)
    ensures Bit(Pow2(n), k) <==> n == k
  {
    if n == 0 && k > 0 {
      ZeroBit(k - 1);
    } else if k > 0 {
      Pow2Bit(n - 1, k - 1);
    }
  }

  /** Every nonzero number has a binary digit set. */
  lemma {:induction false} SomeBit(a: nat) returns (k: nat)
    requires a > 0
    ensures Bit(a, k)
  {
    if a % 2 == 1 {
      k := 0;
    } else {
      var k' := SomeBit(a / 2);
      k := k' + 1;
    }
  }

  lemma MaskTestsBit(a: nat, k: nat)
    ensures And(a, Pow2(k)) != 0 <==> Bit(a, k)
  {
    AndBit(a, Pow2(k), k);
    Pow2Bit(k, k);
    ZeroBit(k);
    if And(a, Pow2(k)) != 0 {
      var j := SomeBit(And(a, Pow2(k)));
      AndBit(a, Pow2(k), j);
      Pow2Bit(k, j);
    }
  }

  lemma {:induction false} ScaledBit(a: nat, n: nat, k: nat)
    ensures Bit(a * Pow2(n), k) <==> n <= k && Bit(a, k - n)
    decreases n
  {
    if n > 0 {
      var x := a * Pow2(n - 1);
      assert a * Pow2(n) == 2 * x;
      if k > 0 {
        ScaledBit(a, n - 1, k - 1);
      }
    }
  }

  lemma {:induction false} LowBit(a: nat, w: nat, k: nat)
    requires k < w
    ensures Bit(Low(a, w), k) <==> Bit(a, k)
    decreases w
  {
    Digits(Low(a / 2, w - 1), a % 2);
    if k > 0 {
      LowBit(a / 2, w - 1, k - 1);
    }
  }

  lemma {:induction false} LowOfSmall(a: nat, w: nat)
    requires a < Pow2(w)
    ensures Low(a, w) == a
  {
    if w > 0 {
      LowOfSmall(a / 2, w - 1);
    }
  }

  lemma {:induction false} Pow2Increases(m: nat, n: nat)
    requires m < n
    ensures Pow2(m) < Pow2(n)
  {
    if m < n - 1 { Pow2Increases(m, n - 1); }
  }

  lemma LowOfPow2(n: nat, w: nat)
    requires n < w
    ensures Low(Pow2(n), w) == Pow2(n)
  {
    Pow2Increases(n, w);
    LowOfSmall(Pow2(n), w);
  }

  lemma Shl64Bit(a: nat, n: nat, k: nat)
    requires k < 64
    ensures Bit(Shl64(a, n), k) <==> n <= k && Bit(a, k - n)
  {
    LowBit(a * Pow2(n), WORD_BITS, k);
    ScaledBit(a, n, k);
  }

  lemma {:induction false} ShrBit(a: nat, n: nat, k: nat)
    ensures Bit(Shr(a, n), k) <==> Bit(a, n + k)
    decreases n
  {
    if n > 0 { ShrBit(a / 2, n - 1, k); }
  }

  /** A number below 2^w has no digit at w or above. */
  lemma {:induction false} NoHighBit(a: nat, w: nat, k: nat)
    requires a < Pow2(w) && w <= k
    ensures !Bit(a, k)
  {
    if w == 0 {
      ZeroBit(k);
    } else {
      NoHighBit(a / 2, w - 1, k - 1);
    }
  }

  ghost predicate SameBits(a: nat, b: nat) {
    forall k: nat :: Bit(a, k) == Bit(b, k)
  }

  /** A number is its binary digits. */
  lemma {:induction false} BitsDetermine(a: nat, b: nat)
    requires SameBits(a, b)
    ensures a == b
    decreases a + b
  {
    assert Bit(a, 0) == Bit(b, 0);
    if a != 0 || b != 0 {
      forall k: nat
        ensures Bit(a / 2, k) == Bit(b / 2, k)
      {
        assert Bit(a, k + 1) == Bit(b, k + 1);
      }
      BitsDetermine(a / 2, b / 2);
    }
  }

  ghost predicate AgreeFrom(a: nat, b: nat, n: nat) {
    forall k: nat | n <= k :: Bit(a, k) == Bit(b, k)
  }

  /** Shifting right leaves the same number exactly when the higher digits agree. */
  lemma ShrEqualExactly(a: nat, b: nat, n: nat)
    ensures Shr(a, n) == Shr(b, n) <==> AgreeFrom(a, b, n)
  {
    if Shr(a, n) == Shr(b, n) {
      forall k: nat | n <= k
        ensures Bit(a, k) == Bit(b, k)
      {
        ShrBit(a, n, k - n);
        ShrBit(b, n, k - n);
      }
    }
    if AgreeFrom(a, b, n) {
      forall k: nat
        ensures Bit(Shr(a, n), k) == Bit(Shr(b, n), k)
      {
        ShrBit(a, n, k);
        ShrBit(b, n, k);
      }
      BitsDetermine(Shr(a, n), Shr(b, n));
    }
  }

  lemma {:induction false} XorBit(a: nat, b: nat, k: nat)
    ensures Bit(Xor(a, b), k) <==> Bit(a, k) != Bit(b, k)
    decreases k
  {
    if a == 0 && b == 0 {
      ZeroBit(k);
    } else {
      Digits(Xor(a / 2, b / 2), if a % 2 != b % 2 then 1 else 0);
      if k > 0 {
        XorBit(a / 2, b / 2, k - 1);
      }
    }
  }

  lemma Pow2Of32()
    ensures Pow2(32) == U32_RANGE
  {
    assert Pow2(8) == 256;
    Pow2Sum(8, 8);
    Pow2Sum(16, 16);
  }

  lemma {:induction false} Pow2Sum(m: nat, n: nat)
    ensures Pow2(m + n) == Pow2(m) * Pow2(n)
    decreases n
  {
    if n > 0 {
      Pow2Sum(m, n - 1);
      assert Pow2(m) * (2 * Pow2(n - 1)) == 2 * (Pow2(m) * Pow2(n - 1));
    }
  }

  lemma {:induction false} XorUndoes(a: nat, b: nat)
    ensures Xor(Xor(a, b), b) == a
  {
    if a != 0 || b != 0 {
      XorUndoes(a / 2, b / 2);
      assert Xor(a, b) / 2 == Xor(a / 2, b / 2);
    }
  }

  lemma {:induction false} XorRange(a: nat, b: nat, n: nat)
    requires a < Pow2(n) && b < Pow2(n)
    ensures Xor(a, b) < Pow2(n)
  {
    if n > 0 && (a != 0 || b != 0) {
      XorRange(a / 2, b / 2, n - 1);
    }
  }

  function XorByte(a: Byte, b: Byte): Byte {
    assert Pow2(8) == 256;
    XorRange(a as nat, b as nat, 8);
    Xor(a as nat, b as nat) as Byte
  }

  // ------------------------------------------------ big-endian integers

  function Pow256(n: nat): (p: nat)
    ensures p > 0
  {
    if n == 0 then 1 else 256 * Pow256(n - 1)
  }

  /** `to_be_bytes` of an integer of `width` bytes (the value modulo its range). */
  function Be(n: nat, width: nat): (s: Bytes)
    ensures |s| == width
  {
    if width == 0 then [] else Be(n / 256, width - 1) + [(n % 256) as Byte]
  }

  /** `from_be_bytes`. */
  function FromBe(s: Bytes): (n: nat)
    ensures n < Pow256(|s|)
  {
    if s == [] then 0 else FromBe(s[..|s| - 1]) * 256 + s[|s| - 1] as nat
  }

  lemma {:induction false} FromBeInvertsBe(n: nat, width: nat)
    requires n < Pow256(width)
    ensures FromBe(Be(n, width)) == n
  {
    if width > 0 {
      FromBeInvertsBe(n / 256, width - 1);
      assert Be(n, width)[..width - 1] == Be(n / 256, width - 1);
    }
  }

  /** The first byte carries the highest weight. */
  lemma {:induction false} FirstByteIsHighest(s: Bytes)
    requires s != []
    ensures FromBe(s) == s[0] as nat * Pow256(|s| - 1) + FromBe(s[1..])
  {
    var n := |s| - 1;
    if n > 0 {
      FirstByteIsHighest(s[..n]);
      assert s[..n][1..] == s[1..][..n - 1];
      Scale(s[0] as nat, Pow256(n - 1));
    } else {
      assert s[..0] == [] && s[1..] == [];
    }
  }

  lemma Scale(a: nat, b: nat)
    ensures a * b * 256 == a * (256 * b)
  {}

  lemma {:induction false} BeInvertsFromBe(s: Bytes)
    ensures Be(FromBe(s), |s|) == s
  {
    if s != [] {
      BeInvertsFromBe(s[..|s| - 1]);
      assert s == s[..|s| - 1] + [s[|s| - 1]];
    }
  }

  lemma Widths()
    ensures Pow256(1) == U8_RANGE && Pow256(2) == 0x1_0000
    ensures Pow256(4) == U32_RANGE && Pow256(8) == U64_RANGE
  {
    assert Pow256(3) == 256 * Pow256(2);
    assert Pow256(5) == 256 * Pow256(4);
    assert Pow256(6) == 256 * Pow256(5);
    assert Pow256(7) == 256 * Pow256(6);
  }
}

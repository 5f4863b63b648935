/** Unsigned 32-bit words as C11 section 6.2.5 paragraph 9 defines them: every
    operation is taken modulo 2^32. Bit operations are defined digit by digit, so that
    the masks of the ring are proved to be remainders rather than assumed to be. */
module Words {
  const WORD := 0x1_0000_0000
  type u32 = x: int | 0 <= x < WORD
  type Byte = x: int | 0 <= x < 256

  /** The 32-bit register image of an unbounded position. */
  function Wrap(n: int): u32 {
    n % WORD
  }

  function Add32(a: u32, b: u32): u32 {
    (a + b) % WORD
  }

  function Sub32(a: u32, b: u32): u32 {
    (a - b) % WORD
  }

  /** Subtracting two register images gives the true distance, wrap or no wrap, as long as
      the positions are less than one full lap apart. */
  lemma SubIsDistance(a: nat, b: nat)
    requires b <= a < b + WORD
    ensures Sub32(Wrap(a), Wrap(b)) == a - b
    ensures Wrap(a) == Wrap(b) <==> a == b
  {
    var d := Wrap(a) - Wrap(b);
    assert a == WORD * (a / WORD) + Wrap(a);
    assert b == WORD * (b / WORD) + Wrap(b);
    assert a / WORD == b / WORD || a / WORD == b / WORD + 1;
  }

  lemma AddAdvances(a: nat, k: u32)
    ensures Add32(Wrap(a), k) == Wrap(a + k)
  {
    assert a == WORD * (a / WORD) + Wrap(a);
    assert a + k == WORD * (a / WORD) + (Wrap(a) + k);
  }

  // Bits

  function BitAnd(a: nat, b: nat): nat {
    if a == 0 || b == 0 then 0
    else (if a % 2 == 1 && b % 2 == 1 then 1 else 0) + 2 * BitAnd(a / 2, b / 2)
  }

  function BitOr(a: nat, b: nat): nat {
    if a == 0 && b == 0 then 0
    else (if a % 2 == 1 || b % 2 == 1 then 1 else 0) + 2 * BitOr(a / 2, b / 2)
  }

  function Pow2(k: nat): (r: nat)
    ensures r >= 1
  {
    if k == 0 then 1 else 2 * Pow2(k - 1)
  }

  /** The source's power-of-two test. */
  predicate IsPow2(x: nat) {
    x != 0 && BitAnd(x, x - 1) == 0
  }

  /** Masking with 2^k - 1 keeps the remainder modulo 2^k. */
  lemma MaskIsMod(a: nat, k: nat)
    ensures BitAnd(a, Pow2(k) - 1) == a % Pow2(k)
  {
    var q := MaskSplits(a, k);
    ModUnique(a, Pow2(k), q, BitAnd(a, Pow2(k) - 1));
  }

  lemma {:induction false} MaskSplits(a: nat, k: nat) returns (q: nat)
    ensures a == Pow2(k) * q + BitAnd(a, Pow2(k) - 1)
    ensures BitAnd(a, Pow2(k) - 1) < Pow2(k)
  {
    if k == 0 {
      q := a;
    } else if a == 0 {
      q := 0;
    } else {
      hide BitAnd;
      var m := Pow2(k - 1);
      assert Pow2(k) == 2 * m;
      q := MaskSplits(a / 2, k - 1);
      MaskStep(a, m);
      DoubleProduct(m, q);
    }
  }

  lemma DoubleProduct(m: int, q: int)
    ensures (2 * m) * q == 2 * (m * q)
  {
  }

  lemma MaskStep(a: nat, m: nat)
    requires a > 0 && m > 0
    ensures BitAnd(a, 2 * m - 1) == a % 2 + 2 * BitAnd(a / 2, m - 1)
  {
    assert (2 * m - 1) / 2 == m - 1 && (2 * m - 1) % 2 == 1;
  }

  /** The quotient and remainder of a division are the only ones in range. */
  lemma ModUnique(a: int, n: int, k: int, r: int)
    requires n > 0 && 0 <= r < n && a == n * k + r
    ensures a % n == r && a / n == k
  {
    var d := k - a / n;
    assert n * d == a % n - r;
    assert d >= 1 ==> n * d >= n;
    assert d <= -1 ==> n * d <= -n;
  }

  /** The test `x & (x - 1)` accepts the powers of two and nothing else. */
  lemma {:induction false} IsPow2Exactly(x: nat)
    ensures IsPow2(x) <==> exists k: nat :: x == Pow2(k)
  {
    if IsPow2(x) {
      var k := Log2(x);
    }
    if k: nat :| x == Pow2(k) {
      Pow2Passes(k);
    }
  }

  lemma {:induction false} Pow2Passes(k: nat)
    ensures IsPow2(Pow2(k))
  {
    MaskIsMod(Pow2(k), k);
    ModUnique(Pow2(k), Pow2(k), 1, 0);
  }

  /** The exponent of a number that passes the power-of-two test. */
  lemma {:induction false} Log2(x: nat) returns (k: nat)
    requires IsPow2(x)
    ensures x == Pow2(k)
  {
    if x == 1 {
      k := 0;
      assert Pow2(0) == 1;
    } else if x % 2 == 1 {
      BitAndSelf(x / 2);
      assert false;
    } else {
      assert (x - 1) / 2 == x / 2 - 1;
      k := Log2(x / 2);
      k := k + 1;
    }
  }

  lemma {:induction false} BitAndSelf(x: nat)
    ensures BitAnd(x, x) == x
  {
    if x > 0 { BitAndSelf(x / 2); }
  }

  /** OR-ing in a bit above a number adds it. */
  lemma {:induction false} OrHighBit(a: nat, k: nat)
    requires a < Pow2(k)
    ensures BitOr(a, Pow2(k)) == a + Pow2(k)
  {
    if k == 0 {
      assert BitOr(0, 1) == 1 + 2 * BitOr(0, 0);
    } else {
      OrHighBit(a / 2, k - 1);
      assert Pow2(k) / 2 == Pow2(k - 1) && Pow2(k) % 2 == 0;
    }
  }

  /** Masking out a single bit tests the digit of that weight. */
  lemma {:induction false} AndSingleBit(a: nat, k: nat)
    ensures BitAnd(a, Pow2(k)) == (a / Pow2(k)) % 2 * Pow2(k)
  {
    if a == 0 {
    } else if k == 0 {
      assert BitAnd(a / 2, 0) == 0;
    } else {
      AndSingleBit(a / 2, k - 1);
      var m := Pow2(k - 1);
      assert Pow2(k) / 2 == m && Pow2(k) % 2 == 0;
      DivTwice(a, m);
    }
  }

  lemma DivTwice(a: nat, m: nat)
    requires m > 0
    ensures a / 2 / m == a / (2 * m)
  {
    var h := a / 2;
    assert a == 2 * h + a % 2;
    assert h == m * (h / m) + h % m;
    assert a == (2 * m) * (h / m) + (2 * (h % m) + a % 2);
    ModUnique(a, 2 * m, h / m, 2 * (h % m) + a % 2);
  }

  lemma {:induction false} Pow2Sum(a: nat, b: nat)
    ensures Pow2(a + b) == Pow2(a) * Pow2(b)
  {
    if b > 0 {
      Pow2Sum(a, b - 1);
      assert Pow2(a + b) == 2 * Pow2(a + (b - 1));
      assert Pow2(a) * Pow2(b) == 2 * (Pow2(a) * Pow2(b - 1));
    }
  }

  lemma {:induction false} Pow2Grows(a: nat, b: nat)
    requires a <= b
    ensures Pow2(a) <= Pow2(b)
    decreases b
  {
    if a < b { Pow2Grows(a, b - 1); }
  }

  lemma Pow2Values()
    ensures Pow2(31) == 0x8000_0000
    ensures Pow2(32) == WORD
  {
    assert Pow2(4) == 16;
    Pow2Sum(4, 4);
    Pow2Sum(8, 8);
    Pow2Sum(16, 8);
    Pow2Sum(24, 4);
    assert Pow2(28) == 0x1000_0000;
    assert Pow2(29) == 2 * Pow2(28);
    assert Pow2(30) == 2 * Pow2(29);
    assert Pow2(31) == 2 * Pow2(30);
    assert Pow2(32) == 2 * Pow2(31);
  }
}

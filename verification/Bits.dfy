/** Bitwise operators on unsigned machine words, and what masking and combining do to bit fields. */
module Bits {

  type byte = b: int | 0 <= b < 256

  const U64: nat := 0x1_0000_0000_0000_0000
  const U32: nat := 0x1_0000_0000

  function Or(a: nat, b: nat): (r: nat)
    decreases a
  {
    if a == 0 then b
    else if b == 0 then a
    else 2 * Or(a / 2, b / 2) + (if a % 2 == 1 || b % 2 == 1 then 1 else 0)
  }

  function And(a: nat, b: nat): (r: nat)
    decreases a
  {
    if a == 0 || b == 0 then 0
    else 2 * And(a / 2, b / 2) + (if a % 2 == 1 && b % 2 == 1 then 1 else 0)
  }

  function Pow2(k: nat): (r: nat)
    ensures r > 0
  {
    if k == 0 then 1 else 2 * Pow2(k - 1)
  }

  lemma {:induction false} DivModUnique(n: nat, d: nat, q: nat, r: nat)
    requires r < d && n == d * q + r
    ensures n / d == q && n % d == r
  {
    var z := q - n / d;
    assert d * z == n % d - r by {
      assert d * z == d * q - d * (n / d);
    }
    MulMagnitude(d, z);
  }

  /** Adding whole multiples of `d` leaves the remainder and shifts the quotient. */
  lemma {:induction false} ModShift(a: nat, d: nat, n: nat)
    requires d > 0
    ensures (a + d * n) % d == a % d && (a + d * n) / d == a / d + n
  {
    assert a + d * n == d * (a / d + n) + a % d;
    DivModUnique(a + d * n, d, a / d + n, a % d);
  }

  lemma ModSucc(a: nat, d: nat)
    requires d > 0
    ensures (a + 1) % d == (a % d + 1) % d
  {
    assert a + 1 == (a % d + 1) + d * (a / d);
    ModShift(a % d + 1, d, a / d);
  }

  lemma {:induction false} MulMagnitude(d: nat, z: int)
    ensures z >= 1 ==> d * z >= d
    ensures z <= -1 ==> d * z <= 0 - d
  {
  }

  lemma MulMono(a: nat, b: nat, m: nat)
    requires a <= b
    ensures a * m <= b * m && m * a <= m * b
  {
  }

  /** A field of `k + 1` bits is a field of `k` bits above one more bit. */
  lemma {:induction false} HalfSplit(a: nat, k: nat)
    ensures a % Pow2(k + 1) == 2 * (a / 2 % Pow2(k)) + a % 2
    ensures a / Pow2(k + 1) == a / 2 / Pow2(k)
    ensures a % Pow2(k + 1) / 2 == a / 2 % Pow2(k)
    ensures a % Pow2(k + 1) % 2 == a % 2
  {
    var h, m := a / 2, Pow2(k);
    assert h == m * (h / m) + h % m;
    assert a == (2 * m) * (h / m) + (2 * (h % m) + a % 2);
    DivModUnique(a, 2 * m, h / m, 2 * (h % m) + a % 2);
  }

  lemma {:induction false} OrDouble(a: nat, b: nat)
    ensures Or(a, b) % 2 == (if a % 2 == 1 || b % 2 == 1 then 1 else 0)
    ensures Or(a, b) / 2 == Or(a / 2, b / 2)
    ensures Or(a, b) == 2 * Or(a / 2, b / 2) + (if a % 2 == 1 || b % 2 == 1 then 1 else 0)
  {
  }

  /** The low `k` bits of `a`, and `a >> k`, one place at a time. */
  function Low(a: nat, k: nat): (r: nat)
  {
    if k == 0 then 0 else 2 * Low(a / 2, k - 1) + a % 2
  }

  function Shr(a: nat, k: nat): (r: nat)
  {
    if k == 0 then a else Shr(a / 2, k - 1)
  }

  /** Both agree with division by the power of two. */
  lemma {:induction false} FieldsAreDivMod(a: nat, k: nat)
    ensures Low(a, k) == a % Pow2(k)
    ensures Shr(a, k) == a / Pow2(k)
  {
    if k > 0 {
      FieldsAreDivMod(a / 2, k - 1);
      HalfSplit(a, k - 1);
    }
  }

  /** Splitting a word into a low field of `k` bits and the rest commutes with `|`. */
  lemma {:induction false} OrFields(a: nat, b: nat, k: nat)
    ensures Low(Or(a, b), k) == Or(Low(a, k), Low(b, k))
    ensures Shr(Or(a, b), k) == Or(Shr(a, k), Shr(b, k))
  {
    hide Or;
    if k > 0 {
      OrFields(a / 2, b / 2, k - 1);
      OrDouble(a, b);
      OrDouble(Low(a, k), Low(b, k));
    } else {
      OrZero();
    }
  }

  lemma OrZero()
    ensures Or(0, 0) == 0
  {
  }

  /** `|` is addition when the operands occupy disjoint fields. */
  lemma {:induction false} OrDisjoint(a: nat, b: nat, k: nat)
    requires Low(a, k) == 0 && b < Pow2(k)
    ensures Or(a, b) == a + b
  {
    if k > 0 {
      OrDisjoint(a / 2, b / 2, k - 1);
      OrDouble(a, b);
    }
  }

  lemma {:induction false} AndDouble(a: nat, b: nat)
    ensures And(a, b) == 2 * And(a / 2, b / 2) + (if a % 2 == 1 && b % 2 == 1 then 1 else 0)
  {
  }

  /** `a & (2^k - 1)` is the low field. */
  lemma {:induction false} AndLowMask(a: nat, k: nat)
    ensures And(a, Pow2(k) - 1) == Low(a, k)
  {
    if k > 0 {
      AndLowMask(a / 2, k - 1);
      var mask := Pow2(k) - 1;
      assert mask % 2 == 1 && mask / 2 == Pow2(k - 1) - 1;
      AndDouble(a, mask);
    }
  }

  lemma {:induction false} Pow2Monotone(k: nat, n: nat)
    requires k <= n
    ensures Pow2(k) <= Pow2(n)
  {
    if k < n {
      Pow2Monotone(k, n - 1);
    }
  }

  lemma {:induction false} LowOfSmall(a: nat, n: nat)
    requires a < Pow2(n)
    ensures Low(a, n) == a
  {
    if n > 0 {
      LowOfSmall(a / 2, n - 1);
    }
  }

  lemma UnitPower()
    ensures Pow2(0) == 1 && forall a: nat :: Low(a, 0) == 0
  {
  }

  lemma HalfBelow(a: nat, n: nat)
    requires n > 0 && a < Pow2(n)
    ensures a / 2 < Pow2(n - 1)
  {
  }

  /** A high mask is even, and half of it is the mask one place lower. */
  lemma HalfMask(k: nat, n: nat)
    requires 0 < k <= n && Pow2(k) <= Pow2(n) && Pow2(k - 1) <= Pow2(n - 1)
    ensures (Pow2(n) - Pow2(k)) % 2 == 0 && (Pow2(n) - Pow2(k)) / 2 == Pow2(n - 1) - Pow2(k - 1)
  {
  }

  lemma LowHalf(a: nat, k: nat)
    requires k > 0
    ensures Low(a, k) == 2 * Low(a / 2, k - 1) + a % 2
  {
  }

  /** `a & ~(2^k - 1)` in an `n`-bit word clears the low field. */
  lemma {:induction false} AndHighMask(a: nat, k: nat, n: nat)
    requires k <= n && a < Pow2(n)
    ensures Pow2(k) <= Pow2(n)
    ensures And(a, Pow2(n) - Pow2(k)) == a - Low(a, k)
  {
    hide And, Pow2, Low;
    Pow2Monotone(k, n);
    UnitPower();
    if k == 0 {
      AndLowMask(a, n);
      LowOfSmall(a, n);
    } else {
      HalfBelow(a, n);
      AndHighMask(a / 2, k - 1, n - 1);
      HalfMask(k, n);
      AndDouble(a, Pow2(n) - Pow2(k));
      LowHalf(a, k);
    }
  }

  /** Numeric values of the powers the page-table code uses. */
  lemma {:induction false} Powers()
    ensures Pow2(1) == 2 && Pow2(7) == 0x80 && Pow2(8) == 0x100 && Pow2(9) == 0x200
    ensures Pow2(12) == 0x1000 && Pow2(21) == 0x20_0000 && Pow2(30) == 0x4000_0000
    ensures Pow2(31) == 0x8000_0000 && Pow2(32) == 0x1_0000_0000
    ensures Pow2(40) == 0x100_0000_0000 && Pow2(52) == 0x10_0000_0000_0000
    ensures Pow2(64) == 0x1_0000_0000_0000_0000
  {
    assert Pow2(4) == 16;
    assert Pow2(8) == 16 * Pow2(4);
    assert Pow2(12) == 16 * Pow2(8);
    assert Pow2(16) == 16 * Pow2(12);
    assert Pow2(20) == 16 * Pow2(16);
    assert Pow2(24) == 16 * Pow2(20);
    assert Pow2(28) == 16 * Pow2(24);
    assert Pow2(32) == 16 * Pow2(28);
    assert Pow2(36) == 16 * Pow2(32);
    assert Pow2(40) == 16 * Pow2(36);
    assert Pow2(44) == 16 * Pow2(40);
    assert Pow2(48) == 16 * Pow2(44);
    assert Pow2(52) == 16 * Pow2(48);
    assert Pow2(56) == 16 * Pow2(52);
    assert Pow2(60) == 16 * Pow2(56);
    assert Pow2(64) == 16 * Pow2(60);
  }
}

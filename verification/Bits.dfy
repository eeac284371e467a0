/** Bitwise operators on naturals, and the two uses the codecs make of them:
    OR-ing into cleared low bits is addition, AND-ing with a mask is remainder. */
module Bits {
  const TWO_TO_THE_32 := 0x1_0000_0000
  const TWO_TO_THE_64 := 0x1_0000_0000_0000_0000

  function Pow2(n: nat): (p: nat)
    ensures p >= 1
  {
    if n == 0 then 1 else 2 * Pow2(n - 1)
  }

  function Or(a: nat, b: nat): nat
    decreases a + b
  {
    if a == 0 then b
    else if b == 0 then a
    else 2 * Or(a / 2, b / 2) + if a % 2 == 1 || b % 2 == 1 then 1 else 0
  }

  function And(a: nat, b: nat): nat {
    if a == 0 || b == 0 then 0
    else 2 * And(a / 2, b / 2) + if a % 2 == 1 && b % 2 == 1 then 1 else 0
  }

  // `a << n` and `a >> n` on machine words of 32 or 64 bits.
  function Shl32(a: nat, n: nat): nat { a * Pow2(n) % TWO_TO_THE_32 }

  function Shl64(a: nat, n: nat): nat { a * Pow2(n) % TWO_TO_THE_64 }

  function Shr(a: nat, n: nat): nat {
    DivNonNegative(a, Pow2(n));
    a / Pow2(n)
  }

  lemma MulMonotone(k: int, m: nat)
    ensures k >= 1 ==> k * m >= m
    ensures k <= -1 ==> k * m + m <= 0
  {
  }

  lemma DivNonNegative(a: nat, m: nat)
    requires m > 0
    ensures a / m >= 0 && a / m * m + a % m == a
  {
    assert a == a / m * m + a % m;
    MulMonotone(a / m, m);
  }

  lemma DivModUnique(x: int, m: int, q: int, r: int)
    requires 0 <= r < m && x == q * m + r
    ensures x / m == q && x % m == r
  {
    assert x == m * (x / m) + x % m;
    assert (q - x / m) * m == x % m - r;
    MulMonotone(q - x / m, m);
  }

  lemma {:induction false} Pow2Add(a: nat, b: nat)
    ensures Pow2(a + b) == Pow2(a) * Pow2(b)
  {
    if a == 0 {
      assert Pow2(0) * Pow2(b) == Pow2(b);
    } else {
      Pow2Add(a - 1, b);
      assert Pow2(a + b) == 2 * Pow2(a - 1 + b);
      assert 2 * Pow2(a - 1) * Pow2(b) == 2 * (Pow2(a - 1) * Pow2(b));
    }
  }

  lemma Pow2Values()
    ensures Pow2(0) == 1 && Pow2(1) == 2 && Pow2(2) == 4 && Pow2(3) == 8
    ensures Pow2(4) == 16 && Pow2(5) == 32 && Pow2(6) == 64 && Pow2(7) == 128
    ensures Pow2(8) == 0x100 && Pow2(12) == 0x1000 && Pow2(16) == 0x1_0000
    ensures Pow2(18) == 0x4_0000 && Pow2(24) == 0x100_0000
  {
    assert Pow2(8) == 0x100;
    Pow2Add(4, 8);
    Pow2Add(8, 8);
    Pow2Add(2, 16);
    Pow2Add(8, 16);
  }

  lemma {:induction false} OrDisjoint(a: nat, b: nat, k: nat)
    requires b < Pow2(k)
    ensures Or(a * Pow2(k), b) == a * Pow2(k) + b
  {
    if k != 0 && a != 0 && b != 0 {
      var high := a * Pow2(k - 1);
      assert a * Pow2(k) == 2 * high && high > 0;
      OrDisjoint(a, b / 2, k - 1);
      assert Or(2 * high, b) == 2 * Or(high, b / 2) + b % 2;
    }
  }

  lemma OrInto(high: nat, low: nat, k: nat, m: nat)
    requires m == Pow2(k) && high % m == 0 && low < m
    ensures Or(high, low) == high + low
  {
    assert high == high / m * m;
    OrDisjoint(high / m, low, k);
  }

  lemma HalveMod(a: nat, half: nat)
    requires half > 0
    ensures a % (2 * half) == 2 * (a / 2 % half) + a % 2
  {
    var h, p := a / 2, a % 2;
    var q, r := h / half, h % half;
    assert h == q * half + r;
    assert 2 * (q * half) == q * (2 * half);
    DivModUnique(a, 2 * half, q, 2 * r + p);
  }

  lemma AndOdd(a: nat, h: nat)
    requires h > 0
    ensures And(a, 2 * h - 1) == 2 * And(a / 2, h - 1) + a % 2
  {
    assert (2 * h - 1) / 2 == h - 1;
  }

  lemma {:induction false} AndMask(a: nat, k: nat)
    ensures And(a, Pow2(k) - 1) == a % Pow2(k)
    decreases k
  {
    if k == 0 {
      assert Pow2(0) == 1 && And(a, 0) == 0;
    } else {
      var half := Pow2(k - 1);
      assert Pow2(k) == 2 * half;
      hide And, Pow2;
      AndMask(a / 2, k - 1);
      HalveMod(a, half);
      AndOdd(a, half);
    }
  }

  // Reducing a large value modulo m * n does not disturb its low bits.
  lemma LowBits(x: nat, m: nat, n: nat)
    requires m > 0 && n > 0
    ensures x % (m * n) / m == x / m % n
    ensures x % (m * n) % m == x % m
  {
    var q, r := x / m, x % m;
    var t, s := q / n, q % n;
    assert x == q * m + r && q == t * n + s;
    assert (t * n) * m == t * (m * n);
    assert s * m + r < m * n by {
      MulMonotone(n - s, m);
      assert (n - s) * m == m * n - s * m;
    }
    assert (t * n + s) * m == (t * n) * m + s * m;
    DivModUnique(x, m * n, t, s * m + r);
    DivModUnique(s * m + r, m, s, r);
  }

  lemma Pow2Words()
    ensures Pow2(32) == TWO_TO_THE_32 && Pow2(64) == TWO_TO_THE_64
  {
    Pow2Values();
    Pow2Add(16, 16);
    Pow2Add(32, 32);
  }

  // In a word of w bits, the k bits above bit n are those of the unwrapped value.
  lemma WrappedField(x: nat, w: nat, n: nat, k: nat)
    requires n + k <= w
    ensures x % Pow2(w) / Pow2(n) % Pow2(k) == x / Pow2(n) % Pow2(k)
    ensures x % Pow2(w) % Pow2(n) == x % Pow2(n)
  {
    hide Pow2;
    var m, f, h := Pow2(n), Pow2(k), Pow2(w - n - k);
    assert Pow2(w) == m * (f * h) by {
      Pow2Add(n, w - n);
      Pow2Add(k, w - n - k);
    }
    LowBits(x, m, f * h);
    DivNonNegative(x, m);
    LowBits(x / m, f, h);
  }

  // Bit i of a natural, and what the operators do to it.
  predicate Bit(a: nat, i: nat) { if i == 0 then a % 2 == 1 else Bit(a / 2, i - 1) }

  lemma {:induction false} ZeroBit(i: nat)
    ensures !Bit(0, i)
  {
    if i > 0 {
      ZeroBit(i - 1);
    }
  }

  // The bits determine the number.
  lemma {:induction false} SameBits(a: nat, b: nat)
    requires forall i: nat :: Bit(a, i) <==> Bit(b, i)
    ensures a == b
  {
    if a != 0 || b != 0 {
      assert Bit(a, 0) <==> Bit(b, 0);
      forall i: nat ensures Bit(a / 2, i) <==> Bit(b / 2, i) {
        assert Bit(a, i + 1) <==> Bit(b, i + 1);
      }
      SameBits(a / 2, b / 2);
    }
  }

  lemma {:induction false} OrBit(a: nat, b: nat, i: nat)
    ensures Bit(Or(a, b), i) <==> Bit(a, i) || Bit(b, i)
    decreases i
  {
    ZeroBit(i);
    if a != 0 && b != 0 && i > 0 {
      assert Or(a, b) / 2 == Or(a / 2, b / 2);
      OrBit(a / 2, b / 2, i - 1);
    }
  }

  lemma {:induction false} AndBit(a: nat, b: nat, i: nat)
    ensures Bit(And(a, b), i) <==> Bit(a, i) && Bit(b, i)
    decreases i
  {
    ZeroBit(i);
    if a != 0 && b != 0 && i > 0 {
      assert And(a, b) / 2 == And(a / 2, b / 2);
      AndBit(a / 2, b / 2, i - 1);
    }
  }
}

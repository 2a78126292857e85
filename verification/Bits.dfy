/** Bitwise operations on natural numbers, and what they compute on network masks. */
module Bits {

  function Pow2(n: nat): (r: nat)
    ensures r >= 1
  {
    if n == 0 then 1 else 2 * Pow2(n - 1)
  }

  function And(x: nat, y: nat): nat {
    if x == 0 || y == 0 then 0 else 2 * And(x / 2, y / 2) + (if x % 2 == 1 && y % 2 == 1 then 1 else 0)
  }

  function Or(x: nat, y: nat): nat {
    if x == 0 then y else 2 * Or(x / 2, y / 2) + (if x % 2 == 1 || y % 2 == 1 then 1 else 0)
  }

  function Xor(x: nat, y: nat): nat {
    if x == 0 then y else 2 * Xor(x / 2, y / 2) + (if x % 2 != y % 2 then 1 else 0)
  }

  function ShiftRight(x: nat, n: nat): nat {
    if n == 0 then x else ShiftRight(x / 2, n - 1)
  }

  function Ones(n: nat): nat { Pow2(n) - 1 }

  lemma {:induction false} ShiftedOnes(w: nat, n: nat)
    requires n <= w
    ensures ShiftRight(Ones(w), n) == Ones(w - n)
  {
    if n > 0 {
      assert Ones(w) / 2 == Ones(w - 1);
      ShiftedOnes(w - 1, n - 1);
    }
  }

  lemma {:induction false} PowGrows(h: nat, w: nat)
    requires h <= w
    ensures Pow2(h) <= Pow2(w)
  {
    if h < w {
      PowGrows(h, w - 1);
    }
  }

  lemma {:induction false} XorWithZero(x: nat)
    ensures Xor(x, 0) == x
  {
    if x > 0 {
      XorWithZero(x / 2);
    }
  }

  /** All ones with the low `h` cleared. */
  lemma {:induction false} XorClearsOnes(w: nat, h: nat)
    requires h <= w
    ensures Xor(Ones(w), Ones(h)) == Mask(w, h)
  {
    PowGrows(h, w);
    if h == 0 {
      XorWithZero(Ones(w));
    } else {
      assert Ones(w) / 2 == Ones(w - 1) && Ones(h) / 2 == Ones(h - 1);
      XorClearsOnes(w - 1, h - 1);
    }
  }

  lemma HalfOfMod(x: nat, m: nat)
    requires m >= 1
    ensures x % (2 * m) == 2 * ((x / 2) % m) + x % 2
  {
    var q, r := (x / 2) / m, (x / 2) % m;
    assert x / 2 == q * m + r;
    assert x == q * (2 * m) + (2 * r + x % 2);
    ModIsUnique(x, 2 * m, q, 2 * r + x % 2);
  }

  lemma AtLeastOnce(k: int, m: int)
    requires m >= 0
    ensures k >= 1 ==> k * m >= m
    ensures k <= -1 ==> k * m <= -m
  {
    assert k * m == (k - 1) * m + m;
    assert k * m == (k + 1) * m - m;
  }

  lemma ModIsUnique(x: nat, m: nat, q: nat, r: nat)
    requires m >= 1 && r < m && x == q * m + r
    ensures x % m == r && x / m == q
  {
    var k := x / m - q;
    assert x == (x / m) * m + x % m;
    assert k * m == (x / m) * m - q * m;
    AtLeastOnce(k, m);
  }

  lemma {:induction false} AndWithOnes(x: nat, w: nat)
    requires x < Pow2(w)
    ensures And(x, Ones(w)) == x
  {
    if w > 0 && x > 0 {
      assert Ones(w) / 2 == Ones(w - 1);
      AndWithOnes(x / 2, w - 1);
    }
  }

  lemma {:induction false} ZeroAnd(x: nat)
    ensures And(x, 0) == 0 && And(0, x) == 0
  {}

  lemma MaskOneMore(x: nat, high: nat, low: nat)
    requires 1 <= low <= high && And(x / 2, high - low) == x / 2 - (x / 2) % low
    ensures And(x, 2 * high - 2 * low) == x - x % (2 * low)
  {
    HalfOfMod(x, low);
    AndOfEven(x, high - low, 2 * high - 2 * low);
  }

  function Mask(w: nat, h: nat): nat
    requires h <= w
  {
    PowGrows(h, w);
    Pow2(w) - Pow2(h)
  }

  /** Masking keeps a number's high part: it subtracts the remainder. */
  lemma {:induction false} AndWithMask(x: nat, w: nat, h: nat)
    requires h <= w && x < Pow2(w)
    ensures And(x, Mask(w, h)) == x - x % Pow2(h)
  {
    if h == 0 {
      AndWithOnes(x, w);
    } else {
      AndWithMask(x / 2, w - 1, h - 1);
      PowGrows(h - 1, w - 1);
      MaskOneMore(x, Pow2(w - 1), Pow2(h - 1));
    }
  }

  lemma AndOfEven(x: nat, y: nat, z: nat)
    requires z == 2 * y
    ensures And(x, z) == 2 * And(x / 2, y)
  {
    ZeroAnd(x / 2);
  }

  lemma {:induction false} OrWithZero(x: nat)
    ensures Or(x, 0) == x
  {
    if x > 0 {
      OrWithZero(x / 2);
    }
  }

  /** Setting the low bits of an aligned number adds them. */
  lemma {:induction false} OrWithOnes(x: nat, h: nat)
    requires x % Pow2(h) == 0
    ensures Or(x, Ones(h)) == x + Ones(h)
  {
    if h == 0 {
      OrWithZero(x);
    } else {
      HalfOfMod(x, Pow2(h - 1));
      assert Ones(h) / 2 == Ones(h - 1);
      OrWithOnes(x / 2, h - 1);
    }
  }
}

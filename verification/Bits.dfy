/** Python's integer operators `&`, `|`, `& ~`, `<<` and `>>` on non-negative
    integers, defined bit by bit, and the facts that let masks be read as
    arithmetic. */
module Bits {

  function And(a: nat, b: nat): nat {
    if a == 0 || b == 0 then 0
    else 2 * And(a / 2, b / 2) + (if a % 2 == 1 && b % 2 == 1 then 1 else 0)
  }

  function Or(a: nat, b: nat): nat {
    if a == 0 then b else if b == 0 then a
    else 2 * Or(a / 2, b / 2) + (if a % 2 == 1 || b % 2 == 1 then 1 else 0)
  }

  /** `a & ~b` */
  function AndNot(a: nat, b: nat): nat {
    if a == 0 then 0
    else 2 * AndNot(a / 2, b / 2) + (if a % 2 == 1 && b % 2 == 0 then 1 else 0)
  }

  /** `a << n` */
  function Shl(a: nat, n: nat): nat {
    if n == 0 then a else 2 * Shl(a, n - 1)
  }

  /** `a >> n` */
  function Shr(a: nat, n: nat): nat {
    if n == 0 then a else Shr(a / 2, n - 1)
  }

  function Pow2(n: nat): (p: nat)
    ensures p >= 1
  {
    if n == 0 then 1 else 2 * Pow2(n - 1)
  }

  /** The mask of bits 0 to n inclusive. */
  function Bits0(n: nat): nat { Or(Shl(1, n), Pow2(n) - 1) }

  /** The low `n` bits of `v`. */
  function Low(v: nat, n: nat): (r: nat)
    ensures r < Pow2(n)
  {
    if n == 0 then 0 else 2 * Low(v / 2, n - 1) + v % 2
  }

  /** `v` with the `w` bits from bit `s` on replaced by `f`. */
  function Replaced(v: nat, f: nat, w: nat, s: nat): nat {
    if s == 0 then Shl(Shr(v, w), w) + f else 2 * Replaced(v / 2, f, w, s - 1) + v % 2
  }

  // ---- Masks as arithmetic ------------------------------------------------

  lemma {:induction false} OrDisjoint(low: nat, high: nat, n: nat)
    requires low < Pow2(n)
    ensures Or(low, Shl(high, n)) == Shl(high, n) + low
  {
    if n > 0 { OrDisjoint(low / 2, high, n - 1); }
  }

  lemma {:induction false} OrSymmetric(a: nat, b: nat)
    ensures Or(a, b) == Or(b, a)
  {
    if a > 0 && b > 0 { OrSymmetric(a / 2, b / 2); }
  }

  lemma {:induction false} ShlOne(n: nat)
    ensures Shl(1, n) == Pow2(n)
  {
    if n > 0 { ShlOne(n - 1); }
  }

  lemma Bits0Value(n: nat)
    ensures Bits0(n) == Pow2(n + 1) - 1
  {
    OrSymmetric(Shl(1, n), Pow2(n) - 1);
    OrDisjoint(Pow2(n) - 1, 1, n);
    ShlOne(n);
  }

  lemma {:induction false} AndMask(v: nat, n: nat)
    ensures And(v, Pow2(n) - 1) == Low(v, n)
  {
    if n > 0 {
      AndMask(v / 2, n - 1);
      assert (Pow2(n) - 1) / 2 == Pow2(n - 1) - 1;
    }
    if v == 0 { LowZero(n); }
  }

  lemma {:induction false} LowZero(n: nat)
    ensures Low(0, n) == 0
  {
    if n > 0 { LowZero(n - 1); }
  }

  lemma {:induction false} AndNotMask(v: nat, n: nat)
    ensures AndNot(v, Pow2(n) - 1) == Shl(Shr(v, n), n) == v - Low(v, n)
  {
    if n == 0 {
      AndNotZero(v);
    } else {
      AndNotMask(v / 2, n - 1);
      assert (Pow2(n) - 1) / 2 == Pow2(n - 1) - 1;
    }
    if v == 0 { LowZero(n); }
  }

  lemma {:induction false} AndNotZero(v: nat)
    ensures AndNot(v, 0) == v
  {
    if v > 0 { AndNotZero(v / 2); }
  }

  /** Clearing `w` bits at `s` and or-ing `f` in their place replaces that field
      and keeps every bit below and above it. */
  lemma {:induction false} ReplaceField(v: nat, f: nat, w: nat, s: nat)
    requires f < Pow2(w)
    ensures Or(AndNot(v, Shl(Pow2(w) - 1, s)), Shl(f, s)) == Replaced(v, f, w, s)
  {
    if s == 0 {
      AndNotMask(v, w);
      OrSymmetric(Shl(Shr(v, w), w), f);
      OrDisjoint(f, Shr(v, w), w);
    } else {
      ReplaceField(v / 2, f, w, s - 1);
      OrAndNotHalf(v, Shl(Pow2(w) - 1, s - 1), Shl(f, s - 1));
    }
  }

  lemma OrAndNotHalf(v: nat, k: nat, g: nat)
    ensures Or(AndNot(v, 2 * k), 2 * g) == 2 * Or(AndNot(v / 2, k), g) + v % 2
  {
    AndNotDouble(v, k);
    hide AndNot;
    OrDouble(AndNot(v / 2, k), g, v % 2);
  }

  lemma AndNotDouble(v: nat, k: nat)
    ensures AndNot(v, 2 * k) == 2 * AndNot(v / 2, k) + v % 2
  {
  }

  lemma OrDouble(x: nat, g: nat, b: nat)
    requires b < 2
    ensures Or(2 * x + b, 2 * g) == 2 * Or(x, g) + b
  {
  }

  /** Single-bit masks. */
  lemma LowBits(v: nat)
    ensures And(v, 1) == v % 2
    ensures And(v, 2) == 2 * (v / 2 % 2)
    ensures And(v, 4) == 4 * (v / 4 % 2)
  {
    BitOne(v);
    BitOne(v / 2);
    BitOne(v / 4);
    assert And(v, 2) == 2 * And(v / 2, 1);
    assert And(v / 2, 2) == 2 * And(v / 4, 1);
    assert And(v, 4) == 2 * And(v / 2, 2);
  }

  lemma BitOne(v: nat)
    ensures And(v, 1) == v % 2
  {
  }

  // ---- Remainders ---------------------------------------------------------

  lemma DivModUnique(a: nat, d: nat, q: nat, r: nat)
    requires d > 0 && r < d && a == q * d + r
    ensures a / d == q && a % d == r
  {
    var q', r' := a / d, a % d;
    assert q' * d + r' == q * d + r;
    if q' < q {
      MulGap(q', q, d);
    } else if q < q' {
      MulGap(q, q', d);
    }
  }

  lemma MulGap(m: nat, n: nat, d: nat)
    requires m < n
    ensures m * d + d <= n * d
  {
    var k := n - m - 1;
    assert k * d >= 0;
    assert n * d == m * d + k * d + d;
  }

  lemma ModSmall(a: nat, d: nat)
    requires a < d
    ensures a % d == a
  {
  }

  lemma ModStep(a: nat, d: nat)
    requires 0 < d <= a
    ensures a % d == (a - d) % d
  {
    var q, r := (a - d) / d, (a - d) % d;
    assert a == (q + 1) * d + r;
    DivModUnique(a, d, q + 1, r);
  }

  /** The low `n` bits are the remainder modulo 2^n. */
  lemma {:induction false} LowIsMod(v: nat, n: nat)
    ensures Low(v, n) == v % Pow2(n)
  {
    if n > 0 {
      LowIsMod(v / 2, n - 1);
      ModDouble(v, Pow2(n - 1));
    }
  }

  lemma ModDouble(v: nat, p: nat)
    requires p > 0
    ensures v % (2 * p) == 2 * ((v / 2) % p) + v % 2
  {
    var q, r := (v / 2) / p, (v / 2) % p;
    assert v / 2 == q * p + r;
    assert q * (2 * p) == 2 * (q * p);
    DivModUnique(v, 2 * p, q, 2 * r + v % 2);
  }
}

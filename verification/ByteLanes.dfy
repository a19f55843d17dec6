/** Integers as lanes of bytes: what shifts by whole bytes, masks of whole bytes
    and field replacement at byte positions do to each byte. */
module ByteLanes {
  import opened Bits
  import opened Bytes

  /** Byte `i` of `v`, counting from the least significant. */
  function ByteOf(v: nat, i: nat): byte {
    if i == 0 then v % 256 else ByteOf(v / 256, i - 1)
  }

  /** Bytes `from` to `from + n - 1`. */
  function Lanes(v: nat, from: nat, n: nat): (s: seq<byte>)
    ensures |s| == n && forall i :: 0 <= i < n ==> s[i] == ByteOf(v, from + i)
  {
    seq<byte>(n, i requires 0 <= i < n => ByteOf(v, from + i))
  }

  // ---- Eight bits at a time -------------------------------------------------

  lemma ShrByte(v: nat, m: nat)
    ensures Shr(v, 8 + m) == Shr(v / 256, m)
  {
    var a, b, c := v / 2 / 2, v / 16, v / 64;
    assert Shr(v, 8 + m) == Shr(a, 6 + m);
    assert Shr(a, 6 + m) == Shr(b, 4 + m);
    assert Shr(b, 4 + m) == Shr(c, 2 + m);
    assert Shr(c, 2 + m) == Shr(v / 256, m);
  }

  lemma ShlByte(x: nat, m: nat)
    ensures Shl(x, 8 + m) == 256 * Shl(x, m)
  {
    assert Shl(x, 8 + m) == 4 * Shl(x, 6 + m);
    assert Shl(x, 6 + m) == 4 * Shl(x, 4 + m);
    assert Shl(x, 4 + m) == 4 * Shl(x, 2 + m);
  }

  lemma Pow2Byte(m: nat)
    ensures Pow2(8 + m) == 256 * Pow2(m)
  {
    assert Pow2(8 + m) == 4 * Pow2(6 + m);
    assert Pow2(6 + m) == 4 * Pow2(4 + m);
    assert Pow2(4 + m) == 4 * Pow2(2 + m);
  }

  lemma LowByte(v: nat, m: nat)
    ensures Low(v, 8 + m) == 256 * Low(v / 256, m) + v % 256
  {
    LowFour(v, 4 + m);
    LowFour(v / 16, m);
    Nibbles(v);
  }

  lemma LowFour(v: nat, m: nat)
    ensures Low(v, 4 + m) == 16 * Low(v / 16, m) + v % 16
  {
    LowTwo(v, 2 + m);
    LowTwo(v / 4, m);
    Quarters(v);
  }

  lemma LowTwo(v: nat, m: nat)
    ensures Low(v, 2 + m) == 4 * Low(v / 4, m) + v % 4
  {
    assert Low(v, 2 + m) == 2 * Low(v / 2, 1 + m) + v % 2;
    assert v / 2 / 2 == v / 4 && v % 4 == 2 * (v / 2 % 2) + v % 2;
  }

  lemma Quarters(v: nat)
    ensures v / 4 / 4 == v / 16 && v % 16 == 4 * (v / 4 % 4) + v % 4
  {
  }

  lemma Nibbles(v: nat)
    ensures v / 16 / 16 == v / 256 && v % 256 == 16 * (v / 16 % 16) + v % 16
  {
  }

  lemma ReplacedByte(v: nat, f: nat, w: nat, m: nat)
    ensures Replaced(v, f, w, 8 + m) == 256 * Replaced(v / 256, f, w, m) + v % 256
  {
    ReplacedFour(v, f, w, 4 + m);
    ReplacedFour(v / 16, f, w, m);
    Nibbles(v);
  }

  lemma ReplacedFour(v: nat, f: nat, w: nat, m: nat)
    ensures Replaced(v, f, w, 4 + m) == 16 * Replaced(v / 16, f, w, m) + v % 16
  {
    ReplacedTwo(v, f, w, 2 + m);
    ReplacedTwo(v / 4, f, w, m);
    Quarters(v);
  }

  lemma ReplacedTwo(v: nat, f: nat, w: nat, m: nat)
    ensures Replaced(v, f, w, 2 + m) == 4 * Replaced(v / 4, f, w, m) + v % 4
  {
    assert Replaced(v, f, w, 2 + m) == 2 * Replaced(v / 2, f, w, 1 + m) + v % 2;
    assert v / 2 / 2 == v / 4 && v % 4 == 2 * (v / 2 % 2) + v % 2;
  }

  // ---- Lanes under shifts, masks and replacement ---------------------------------

  lemma {:induction false} ShrLanes(v: nat, r: nat, i: nat)
    ensures ByteOf(Shr(v, 8 * r), i) == ByteOf(v, r + i)
    decreases r
  {
    if r > 0 {
      ShrByte(v, 8 * (r - 1));
      ShrLanes(v / 256, r - 1, i);
    }
  }

  lemma {:induction false} LowLanes(v: nat, n: nat)
    ensures Low(v, 8 * n) == FromLe(Lanes(v, 0, n))
  {
    if n > 0 {
      LowByte(v, 8 * (n - 1));
      LowLanes(v / 256, n - 1);
      assert Lanes(v, 0, n)[1..] == Lanes(v / 256, 0, n - 1);
    }
  }

  /** `(v >> 8*r) & mask` of `n` bytes is those bytes, little-endian. */
  lemma FieldLanes(v: nat, r: nat, n: nat)
    ensures Low(Shr(v, 8 * r), 8 * n) == FromLe(Lanes(v, r, n))
  {
    LowLanes(Shr(v, 8 * r), n);
    forall i | 0 <= i < n ensures ByteOf(Shr(v, 8 * r), i) == ByteOf(v, r + i) { ShrLanes(v, r, i); }
    assert Lanes(Shr(v, 8 * r), 0, n) == Lanes(v, r, n);
  }

  lemma {:induction false} FromLeBound(s: seq<byte>)
    ensures FromLe(s) < Pow2(8 * |s|)
  {
    if s != [] {
      FromLeBound(s[1..]);
      Pow2Byte(8 * (|s| - 1));
    }
  }

  lemma {:induction false} FromLeConcat(a: seq<byte>, b: seq<byte>)
    ensures FromLe(a + b) == Shl(FromLe(b), 8 * |a|) + FromLe(a)
  {
    if a == [] {
      assert a + b == b;
    } else {
      FromLeConcat(a[1..], b);
      ShlByte(FromLe(b), 8 * (|a| - 1));
      assert (a + b)[1..] == a[1..] + b;
    }
  }

  lemma {:induction false} LanesOfFromLe(s: seq<byte>, i: nat)
    requires i < |s|
    ensures ByteOf(FromLe(s), i) == s[i]
  {
    if i > 0 { LanesOfFromLe(s[1..], i - 1); }
  }

  /** The low `n` lanes of a sum of a high part and a field below 2^(8n). */
  lemma {:induction false} StackedLanes(v: nat, f: nat, n: nat, i: nat)
    requires f < Pow2(8 * n)
    ensures ByteOf(Shl(Shr(v, 8 * n), 8 * n) + f, i) == if i < n then ByteOf(f, i) else ByteOf(v, i)
    decreases n
  {
    if n > 0 {
      var m := 8 * (n - 1);
      ShrByte(v, m);
      Pow2Byte(m);
      ShlByte(Shr(v / 256, m), m);
      var x := Shl(Shr(v, 8 * n), 8 * n) + f;
      assert x / 256 == Shl(Shr(v / 256, m), m) + f / 256 && x % 256 == f % 256;
      if i > 0 { StackedLanes(v / 256, f / 256, n - 1, i - 1); }
    }
  }

  /** Replacing `n` bytes from byte `r` on replaces exactly those lanes. */
  lemma {:induction false} ReplacedLanes(v: nat, f: nat, n: nat, r: nat, i: nat)
    requires f < Pow2(8 * n)
    ensures ByteOf(Replaced(v, f, 8 * n, 8 * r), i) == if r <= i < r + n then ByteOf(f, i - r) else ByteOf(v, i)
    decreases r
  {
    if r == 0 {
      StackedLanes(v, f, n, i);
    } else {
      ReplacedByte(v, f, 8 * n, 8 * (r - 1));
      if i > 0 { ReplacedLanes(v / 256, f, n, r - 1, i - 1); }
    }
  }

  lemma {:induction false} LowKeepsLanes(v: nat, n: nat, i: nat)
    requires i < n
    ensures ByteOf(Low(v, 8 * n), i) == ByteOf(v, i)
  {
    LowLanes(v, n);
    LanesOfFromLe(Lanes(v, 0, n), i);
  }
}

/** Aligned accesses over naturally aligned registers act on a flat array of
    bytes, whatever mix of register widths they cross. */
module RegisterProofs {
  import opened Common
  import opened Bits
  import opened Bytes
  import opened ByteLanes
  import opened Registers

  /** The byte a device shows at an offset. */
  function RegByte(regs: seq<Register>, values: seq<nat>, o: int): byte
    requires |values| == |regs| && o in OffsetMap(regs)
  {
    OffsetMapCovers(regs, o);
    var j := OffsetMap(regs)[o];
    ByteOf(regs[j].Observed(values[j]), o - regs[j].offset)
  }

  /** Every byte of an aligned access belongs to some register. */
  ghost predicate Access(regs: seq<Register>, s: int, n: nat) {
    && Layout(regs) && IsSize(n) && Aligned(s, n)
    && forall o :: s <= o < s + n ==> o in OffsetMap(regs)
  }

  function FlatBytes(regs: seq<Register>, values: seq<nat>, s: int, n: nat): (bytes: seq<byte>)
    requires |values| == |regs| && forall o :: s <= o < s + n ==> o in OffsetMap(regs)
    ensures |bytes| == n && forall i :: 0 <= i < n ==> bytes[i] == RegByte(regs, values, s + i)
  {
    seq<byte>(n, i requires 0 <= i < n => RegByte(regs, values, s + i))
  }

  // ---- Where the split falls --------------------------------------------------

  /** Two aligned power-of-two ranges that meet are nested. */
  lemma Nested(s: int, n: nat, o: int, k: nat, x: int)
    requires IsSize(n) && IsSize(k) && Aligned(s, n) && Aligned(o, k)
    requires s <= x < s + n && o <= x < o + k
    ensures if k >= n then o <= s && s + n <= o + k else s <= o && o + k <= s + n
  {
    if k >= n { Inside(s, n, o, k, x); } else { Inside(o, k, s, n, x); }
  }

  lemma Inside(s: int, n: nat, o: int, k: nat, x: int)
    requires IsSize(n) && IsSize(k) && Aligned(s, n) && Aligned(o, k) && n <= k
    requires s <= x < s + n && o <= x < o + k
    ensures o <= s && s + n <= o + k
  {
    hide Aligned;
    hide IsSize;
    var a := Multiple(s, n);
    var b, c := InBlocks(o, k, n);
    if a < b { NextMultiple(a, b, n); }
    if b + c <= a { SumTimes(b, c, n); NextMultiple(b + c - 1, a, n); SumTimes(b + c - 1, 1, n); }
    if b <= a < b + c { SumTimes(b, c, n); FromMultiples(a, b, c, n); }
  }

  lemma NextMultiple(a: int, b: int, n: nat)
    requires a < b
    ensures a * n + n <= b * n
  {
    var k: nat := b - a - 1;
    assert k * n >= 0;
    assert b * n == (a + 1 + k) * n == a * n + n + k * n;
  }

  lemma SumTimes(a: int, b: int, n: nat)
    ensures (a + b) * n == a * n + b * n
  {
  }

  lemma FromMultiples(a: int, b: int, c: int, n: nat)
    requires b <= a < b + c
    ensures b * n <= a * n && a * n + n <= (b + c) * n
  {
    NextMultiple(a, b + c, n);
    if b < a { NextMultiple(b, a, n); }
  }

  lemma Multiple(o: int, n: nat) returns (q: int)
    requires IsSize(n) && Aligned(o, n)
    ensures o == q * n
  {
    q := o / n;
  }

  /** `o` and `k` counted in blocks of `n`. */
  lemma InBlocks(o: int, k: nat, n: nat) returns (q: int, c: int)
    requires IsSize(n) && IsSize(k) && Aligned(o, k) && n <= k
    ensures o == q * n && k == c * n
  {
    var q0 := Multiple(o, k);
    c := if n == k then 1 else if n == 1 then k else if n == 4 then 2 else k / 2;
    assert k == c * n;
    q := q0 * c;
    assert q0 * (c * n) == (q0 * c) * n;
  }

  /** The register at `cur`. */
  function At(regs: seq<Register>, cur: int): (j: nat)
    requires cur in OffsetMap(regs)
    ensures j < |regs| && regs[j].Covers(cur)
  {
    OffsetMapCovers(regs, cur);
    OffsetMap(regs)[cur]
  }

  /** The first of `n`, `n / 2`, ... that is at most `a`. */
  function Fitting(n: nat, a: nat): (c: nat)
    requires IsSize(n) && a >= 1
    ensures IsSize(c) && c <= n && c <= a && (n <= a ==> c == n)
  {
    if n <= a then n else Fitting(n / 2, a)
  }

  lemma {:induction false} ChunkIsFitting(n: nat, a: nat)
    requires IsSize(n) && a >= 1
    ensures Chunk(8 * n, 8 * a) == 8 * Fitting(n, a)
  {
    if n > a {
      assert 8 * n / 2 == 8 * (n / 2);
      ChunkIsFitting(n / 2, a);
    }
  }

  lemma FittingSize(n: nat, k: nat)
    requires IsSize(n) && IsSize(k) && k <= n
    ensures Fitting(n, k) == k
  {
    match n {
      case 1 =>
      case 2 => assert Fitting(1, k) == 1;
      case 4 => assert Fitting(1, k) == 1; assert k <= 2 ==> Fitting(2, k) == k;
      case 8 => assert Fitting(1, k) == 1; assert k <= 2 ==> Fitting(2, k) == k; assert k <= 4 ==> Fitting(4, k) == k;
    }
  }

  /** How many bytes the engine takes at `cur`. */
  function TurnSize(regs: seq<Register>, n: nat, cur: int): (c: nat)
    requires IsSize(n) && cur in OffsetMap(regs)
    ensures IsSize(c) && c <= n && cur + c <= regs[At(regs, cur)].End()
  {
    Fitting(n, regs[At(regs, cur)].End() - cur)
  }

  lemma TurnCovers(regs: seq<Register>, n: nat, cur: int)
    requires Layout(regs) && IsSize(n) && cur in OffsetMap(regs)
    ensures var r, c := regs[At(regs, cur)], TurnSize(regs, n, cur);
      && r.width - (cur - r.offset) * 8 > 0
      && Chunk(8 * n, r.width - (cur - r.offset) * 8) == 8 * c
      && (forall o :: cur <= o < cur + c ==> o in OffsetMap(regs) && At(regs, o) == At(regs, cur))
  {
    hide OffsetMap;
    hide Chunk;
    hide Fitting;
    var j := At(regs, cur);
    ChunkIsFitting(n, regs[j].End() - cur);
    forall o | cur <= o < cur + TurnSize(regs, n, cur) ensures o in OffsetMap(regs) && At(regs, o) == j {
      CoveredIsMapped(regs, o, j);
      OnlyCover(regs, o, j);
    }
  }

  /** Where an access of `n` bytes at `s` that has come to `cur` ends: behind its
      last turn, or at the first offset without a register. */
  function SplitEnd(regs: seq<Register>, s: int, n: nat, cur: int): (e: int)
    requires Layout(regs) && IsSize(n)
    ensures cur <= e && forall o :: cur <= o < e ==> o in OffsetMap(regs)
    ensures cur < s + n <= e ==> cur in OffsetMap(regs)
    decreases s + n - cur
  {
    if cur >= s + n || cur !in OffsetMap(regs) then cur
    else
      TurnCovers(regs, n, cur);
      SplitEnd(regs, s, n, cur + TurnSize(regs, n, cur))
  }

  /** The engine is at the start of the access or just behind a register. */
  ghost predicate Boundary(regs: seq<Register>, s: int, cur: int) {
    cur == s || (cur - 1 in OffsetMap(regs) && regs[At(regs, cur - 1)].End() == cur)
  }

  /** Each turn of an aligned access takes a whole register or the whole access. */
  lemma AlignedTurn(regs: seq<Register>, s: int, n: nat, cur: int)
    requires Access(regs, s, n) && s <= cur < s + n && Boundary(regs, s, cur)
    ensures var c := TurnSize(regs, n, cur);
      cur + c <= s + n && (cur + c < s + n ==> Boundary(regs, s, cur + c))
  {
    var j := At(regs, cur);
    var r, k := regs[j], regs[j].Size();
    Nested(s, n, r.offset, k, cur);
    TurnCovers(regs, n, cur);
    if cur > s && r.offset < cur {
      CoveredIsMapped(regs, cur - 1, j);
      OnlyCover(regs, cur - 1, j);
      assert false;
    }
    if k < n { FittingSize(n, k); }
  }

  /** An aligned access ends where it should, not behind. */
  lemma {:induction false} AlignedSplit(regs: seq<Register>, s: int, n: nat, cur: int)
    requires Access(regs, s, n) && s <= cur <= s + n && (cur < s + n ==> Boundary(regs, s, cur))
    ensures SplitEnd(regs, s, n, cur) == s + n
    decreases s + n - cur
  {
    hide Layout;
    hide Boundary;
    hide TurnSize;
    hide OffsetMap;
    if cur < s + n {
      AlignedTurn(regs, s, n, cur);
      AlignedSplit(regs, s, n, cur + TurnSize(regs, n, cur));
    }
  }

  // ---- Reads --------------------------------------------------------------------

  lemma MaskIsLow(v: nat, c: nat)
    requires c > 0
    ensures And(v, Bits0(8 * c - 1)) == Low(v, 8 * c)
  {
    Bits0Value(8 * c - 1);
    AndMask(v, 8 * c);
  }

  /** One field read is that many bytes, little-endian. */
  lemma FieldIsBytes(v: nat, off: nat, c: nat)
    requires c > 0
    ensures ReadField(v, off, 8 * c) == FromLe(Lanes(v, off, c))
  {
    hide And;
    hide Shr;
    hide Bits0;
    hide Low;
    hide FromLe;
    MaskIsLow(Shr(v, 8 * off), c);
    FieldLanes(v, off, c);
  }

  /** One turn of the read loop. */
  lemma ReadTurn(regs: seq<Register>, values: seq<nat>, s: int, n: nat, cur: int, v: nat)
    requires |values| == |regs| && MapOk(regs, OffsetMap(regs)) && Layout(regs) && IsSize(n)
    requires s <= cur < s + n && cur in OffsetMap(regs)
    ensures var r, c := regs[At(regs, cur)], TurnSize(regs, n, cur);
      ReadLoop(regs, OffsetMap(regs), values, cur, 8 * (cur - s), 8 * n, v)
        == ReadLoop(regs, OffsetMap(regs), values, cur + c, 8 * (cur + c - s), 8 * n,
             Or(v, Shl(FromLe(Lanes(r.Observed(values[At(regs, cur)]), cur - r.offset, c)), 8 * (cur - s))))
  {
    hide ReadField;
    hide Chunk;
    hide TurnSize;
    hide Layout;
    hide FromLe;
    hide Shl;
    hide Or;
    var r, c := regs[At(regs, cur)], TurnSize(regs, n, cur);
    TurnCovers(regs, n, cur);
    FieldIsBytes(r.Observed(values[At(regs, cur)]), cur - r.offset, c);
  }

  lemma {:induction false} ReadLoopBytes(regs: seq<Register>, values: seq<nat>, s: int, n: nat, cur: int, v: nat)
    requires |values| == |regs| && MapOk(regs, OffsetMap(regs)) && Layout(regs) && IsSize(n)
    requires s <= cur && forall o :: s <= o < cur ==> o in OffsetMap(regs)
    requires v == FromLe(FlatBytes(regs, values, s, cur - s))
    ensures forall o :: s <= o < SplitEnd(regs, s, n, cur) ==> o in OffsetMap(regs)
    ensures var e := SplitEnd(regs, s, n, cur);
      ReadLoop(regs, OffsetMap(regs), values, cur, 8 * (cur - s), 8 * n, v)
        == if e < s + n then Raises else Returns(FromLe(FlatBytes(regs, values, s, e - s)))
    decreases s + n - cur
  {
    hide ReadLoop;
    hide FlatBytes;
    hide TurnSize;
    hide FromLe;
    hide Shl;
    hide Or;
    hide Layout;
    if cur < s + n && cur in OffsetMap(regs) {
      var j := At(regs, cur);
      var r, c := regs[j], TurnSize(regs, n, cur);
      var vv := FromLe(Lanes(r.Observed(values[j]), cur - r.offset, c));
      TurnCovers(regs, n, cur);
      ReadTurn(regs, values, s, n, cur, v);
      AppendField(regs, values, s, cur, c);
      ReadLoopBytes(regs, values, s, n, cur + c, Or(v, Shl(vv, 8 * (cur - s))));
    } else {
      ReadEnd(regs, values, cur, 8 * (cur - s), 8 * n, v);
    }
  }

  lemma ReadEnd(regs: seq<Register>, values: seq<nat>, cur: int, bitCount: nat, width: nat, v: nat)
    requires |values| == |regs| && MapOk(regs, OffsetMap(regs))
    requires bitCount >= width || cur !in OffsetMap(regs)
    ensures ReadLoop(regs, OffsetMap(regs), values, cur, bitCount, width, v)
         == if bitCount < width then Raises else Returns(v)
  {
  }

  lemma AppendField(regs: seq<Register>, values: seq<nat>, s: int, cur: int, c: nat)
    requires |values| == |regs| && s <= cur && cur in OffsetMap(regs) && IsSize(c)
    requires forall o :: s <= o < cur + c ==> o in OffsetMap(regs)
    requires forall o :: cur <= o < cur + c ==> At(regs, o) == At(regs, cur)
    ensures var r, v := regs[At(regs, cur)], FromLe(FlatBytes(regs, values, s, cur - s));
      Or(v, Shl(FromLe(Lanes(r.Observed(values[At(regs, cur)]), cur - r.offset, c)), 8 * (cur - s)))
        == FromLe(FlatBytes(regs, values, s, cur + c - s))
  {
    hide OffsetMap;
    hide FromLe;
    hide Shl;
    hide Or;
    hide ByteOf;
    var r := regs[At(regs, cur)];
    var a, b := FlatBytes(regs, values, s, cur - s), Lanes(r.Observed(values[At(regs, cur)]), cur - r.offset, c);
    assert FlatBytes(regs, values, s, cur + c - s) == a + b by {
      forall i | 0 <= i < c ensures RegByte(regs, values, cur + i) == b[i] {
        assert At(regs, cur + i) == At(regs, cur);
      }
    }
    FromLeBound(a);
    OrDisjoint(FromLe(a), FromLe(b), 8 * |a|);
    FromLeConcat(a, b);
  }

  lemma MapIsOk(regs: seq<Register>)
    ensures MapOk(regs, OffsetMap(regs))
  {
    forall o | o in OffsetMap(regs) ensures OffsetMap(regs)[o] < |regs| && regs[OffsetMap(regs)[o]].Covers(o) {
      OffsetMapCovers(regs, o);
    }
  }

  /** A read of any alignment returns the bytes up to where its split ends,
      little-endian, and raises if it comes to an offset without a register. */
  lemma ReadIsSplitBytes(regs: seq<Register>, values: seq<nat>, s: int, n: nat)
    requires |values| == |regs| && Layout(regs) && IsSize(n)
    ensures MapOk(regs, OffsetMap(regs))
    ensures var e := SplitEnd(regs, s, n, s);
      ReadLoop(regs, OffsetMap(regs), values, s, 0, 8 * n, 0)
        == if e < s + n then Raises else Returns(FromLe(FlatBytes(regs, values, s, e - s)))
  {
    hide ReadLoop;
    hide OffsetMap;
    MapIsOk(regs);
    ReadLoopBytes(regs, values, s, n, s, 0);
  }

  /** An aligned read is the little-endian combination of the bytes it covers. */
  lemma ReadIsBytes(regs: seq<Register>, values: seq<nat>, s: int, n: nat)
    requires |values| == |regs| && Access(regs, s, n)
    ensures MapOk(regs, OffsetMap(regs))
    ensures ReadLoop(regs, OffsetMap(regs), values, s, 0, 8 * n, 0) == Returns(FromLe(FlatBytes(regs, values, s, n)))
  {
    hide ReadLoop;
    hide OffsetMap;
    hide FlatBytes;
    hide FromLe;
    hide Layout;
    ReadIsSplitBytes(regs, values, s, n);
    AlignedSplit(regs, s, n, s);
  }

  /** Every register holds a value of its width. */
  ghost predicate InWidth(regs: seq<Register>, values: seq<nat>)
    requires |values| == |regs|
  {
    forall j :: 0 <= j < |regs| ==> values[j] < Pow2(regs[j].width)
  }

  /** The byte at `o` reads as zero whatever the registers hold. */
  ghost predicate ShowsZero(regs: seq<Register>, o: int)
    requires o in OffsetMap(regs)
  {
    var r := regs[At(regs, o)];
    r.getter.Some? && ByteOf(r.getter.value, o - r.offset) == 0
  }

  /** Without alignment a read over populated offsets is exact, whatever the
      registers hold, exactly when its split ends with its last byte, or runs over
      only into registers that always show zeros. */
  lemma ReadExactIff(regs: seq<Register>, s: int, n: nat)
    requires Layout(regs) && IsSize(n) && forall o :: s <= o < s + n ==> o in OffsetMap(regs)
    ensures MapOk(regs, OffsetMap(regs))
    ensures (forall values: seq<nat> :: |values| == |regs| && InWidth(regs, values) ==>
               ReadLoop(regs, OffsetMap(regs), values, s, 0, 8 * n, 0)
                 == Returns(FromLe(FlatBytes(regs, values, s, n))))
       <==> (forall o :: s + n <= o < SplitEnd(regs, s, n, s) ==> ShowsZero(regs, o))
  {
    hide ReadLoop;
    hide FlatBytes;
    hide FromLe;
    hide OffsetMap;
    hide InWidth;
    hide ShowsZero;
    MapIsOk(regs);
    SplitReaches(regs, s, n, s);
    var e := SplitEnd(regs, s, n, s);
    if forall o :: s + n <= o < e ==> ShowsZero(regs, o) {
      forall values: seq<nat> | |values| == |regs| && InWidth(regs, values)
        ensures ReadLoop(regs, OffsetMap(regs), values, s, 0, 8 * n, 0)
             == Returns(FromLe(FlatBytes(regs, values, s, n)))
      {
        ReadIsSplitBytes(regs, values, s, n);
        ZerosBehind(regs, values, s, n, e);
      }
    } else {
      var o :| s + n <= o < e && !ShowsZero(regs, o);
      ReadRunsOver(regs, s, n, o);
    }
  }

  lemma ZerosBehind(regs: seq<Register>, values: seq<nat>, s: int, n: nat, e: int)
    requires |values| == |regs| && s + n <= e && forall o :: s <= o < e ==> o in OffsetMap(regs)
    requires forall o :: s + n <= o < e ==> ShowsZero(regs, o)
    ensures FromLe(FlatBytes(regs, values, s, e - s)) == FromLe(FlatBytes(regs, values, s, n))
  {
    hide FromLe;
    hide OffsetMap;
    hide ByteOf;
    var a, f := FlatBytes(regs, values, s, n), FlatBytes(regs, values, s, e - s);
    var b := f[n..];
    assert f[..n] == a && f == a + b;
    forall i | 0 <= i < |b| ensures b[i] == 0 {
      assert b[i] == RegByte(regs, values, s + (n + i)) && ShowsZero(regs, s + (n + i));
    }
    FromLeConcat(a, b);
    ZerosValue(b);
    ShlZero(8 * n);
  }

  lemma {:induction false} ShlZero(n: nat)
    ensures Shl(0, n) == 0
  {
    if n > 0 { ShlZero(n - 1); }
  }

  lemma {:induction false} SplitReaches(regs: seq<Register>, s: int, n: nat, cur: int)
    requires Layout(regs) && IsSize(n) && forall o :: cur <= o < s + n ==> o in OffsetMap(regs)
    ensures SplitEnd(regs, s, n, cur) >= s + n
    decreases s + n - cur
  {
    hide TurnSize;
    hide Layout;
    hide OffsetMap;
    if cur < s + n { SplitReaches(regs, s, n, cur + TurnSize(regs, n, cur)); }
  }

  /** All bits set in every register. */
  function AllOnes(regs: seq<Register>): (values: seq<nat>)
    ensures |values| == |regs| && forall j :: 0 <= j < |regs| ==> values[j] == Pow2(regs[j].width) - 1
  {
    seq(|regs|, j requires 0 <= j < |regs| => Pow2(regs[j].width) - 1)
  }

  lemma AllOnesInWidth(regs: seq<Register>)
    ensures InWidth(regs, AllOnes(regs))
  {
  }

  /** With these a read that runs over shows too much. */
  lemma ReadRunsOver(regs: seq<Register>, s: int, n: nat, o: int)
    requires Layout(regs) && IsSize(n) && s + n <= o < SplitEnd(regs, s, n, s) && !ShowsZero(regs, o)
    ensures MapOk(regs, OffsetMap(regs)) && InWidth(regs, AllOnes(regs))
    ensures ReadLoop(regs, OffsetMap(regs), AllOnes(regs), s, 0, 8 * n, 0)
         != Returns(FromLe(FlatBytes(regs, AllOnes(regs), s, n)))
  {
    hide ReadLoop;
    hide OffsetMap;
    hide FromLe;
    hide RegByte;
    hide Pow2;
    hide Layout;
    hide InWidth;
    hide ShowsZero;
    var values := AllOnes(regs);
    var k := SplitEnd(regs, s, n, s) - s;
    AllOnesInWidth(regs);
    ReadIsSplitBytes(regs, values, s, n);
    var a, f := FlatBytes(regs, values, s, n), FlatBytes(regs, values, s, k);
    assert f[..n] == a && f == a + f[n..];
    AllOnesShown(regs, o);
    assert f[n..][o - s - n] == f[o - s] == RegByte(regs, values, s + (o - s));
    LongerIsLarger(a, f[n..], o - s - n);
  }

  lemma AllOnesShown(regs: seq<Register>, o: int)
    requires Layout(regs) && o in OffsetMap(regs)
    ensures regs[At(regs, o)].getter.None? ==> RegByte(regs, AllOnes(regs), o) == 255
    ensures !ShowsZero(regs, o) ==> RegByte(regs, AllOnes(regs), o) > 0
  {
    hide OffsetMap;
    hide ByteOf;
    hide Pow2;
    var r := regs[At(regs, o)];
    if r.getter.None? { AllOnesByte(r.Size(), o - r.offset); }
  }

  lemma LongerIsLarger(a: seq<byte>, b: seq<byte>, i: nat)
    requires i < |b| && b[i] > 0
    ensures FromLe(a + b) > FromLe(a)
  {
    FromLeConcat(a, b);
    SomeBytes(b, i);
    ShlPositive(FromLe(b), 8 * |a|);
  }

  lemma {:induction false} SomeBytes(b: seq<byte>, i: nat)
    requires i < |b| && b[i] > 0
    ensures FromLe(b) > 0
  {
    if i > 0 { SomeBytes(b[1..], i - 1); }
  }

  lemma {:induction false} AllOnesByte(k: nat, i: nat)
    requires i < k
    ensures ByteOf(Pow2(8 * k) - 1, i) == 255
  {
    Pow2Byte(8 * (k - 1));
    var rest := Pow2(8 * (k - 1)) - 1;
    assert Pow2(8 * k) - 1 == 256 * rest + 255;
    if i > 0 { AllOnesByte(k - 1, i - 1); }
  }

  lemma {:induction false} ShlPositive(v: nat, n: nat)
    requires v > 0
    ensures Shl(v, n) > 0
  {
    if n > 0 { ShlPositive(v, n - 1); }
  }

  /** ... and each of those bytes is what a byte read there returns. */
  lemma ByteReadIsByte(regs: seq<Register>, values: seq<nat>, o: int)
    requires |values| == |regs| && Layout(regs) && o in OffsetMap(regs)
    ensures MapOk(regs, OffsetMap(regs))
    ensures ReadLoop(regs, OffsetMap(regs), values, o, 0, 8, 0) == Returns(RegByte(regs, values, o))
  {
    hide OffsetMap;
    hide ReadLoop;
    hide RegByte;
    ReadIsBytes(regs, values, o, 1);
    var f := FlatBytes(regs, values, o, 1);
    assert FromLe(f) == f[0] + 256 * FromLe(f[1..]) && f[1..] == [];
    assert f[0] == RegByte(regs, values, o + 0);
  }

  // ---- Writes -------------------------------------------------------------------

  /** No register of the access does anything but store what is written. */
  ghost predicate PlainAccess(regs: seq<Register>, s: int, n: nat)
    requires forall o :: s <= o < s + n ==> o in OffsetMap(regs)
  {
    forall o :: s <= o < s + n ==>
      regs[At(regs, o)].setter.Store? && (regs[At(regs, o)].ro || regs[At(regs, o)].getter.None?)
  }

  lemma MergeIsReplaced(r: Register, value: nat, off: nat, v: nat, c: nat)
    requires Natural(r) && IsSize(c) && off + c <= r.Size()
    ensures var k := r.Size();
      Merge(r, value, off, v, 8 * c)
        == if c < k then Replaced(Low(r.Observed(value), 8 * k), Low(v, 8 * c), 8 * c, 8 * off) else Low(v, 8 * k)
  {
    hide And;
    hide Or;
    hide AndNot;
    hide Shl;
    hide Shr;
    hide Low;
    hide Pow2;
    hide Replaced;
    hide Bits0;
    var k, o := r.Size(), r.Observed(value);
    MaskIsLow(v, c);
    MaskIsLow(v, k);
    MaskIsLow(o, k);
    Bits0Value(8 * c - 1);
    ShrNothing(o);
    ReplaceField(Low(o, 8 * k), Low(v, 8 * c), 8 * c, 8 * off);
  }

  lemma ShrNothing(v: nat)
    ensures Shr(v, 0) == v
  {
  }

  /** Merging keeps the register's other bytes and takes the written ones. */
  lemma MergedLanes(r: Register, value: nat, off: nat, v: nat, c: nat, i: nat)
    requires Natural(r) && IsSize(c) && off + c <= r.Size() && i < r.Size()
    ensures ByteOf(Merge(r, value, off, v, 8 * c), i)
         == if off <= i < off + c then ByteOf(v, i - off) else ByteOf(r.Observed(value), i)
  {
    hide Merge;
    hide Low;
    hide Replaced;
    hide ByteOf;
    var k, o := r.Size(), r.Observed(value);
    MergeIsReplaced(r, value, off, v, c);
    if c < k {
      ReplacedLanes(Low(o, 8 * k), Low(v, 8 * c), c, off, i);
      if off <= i < off + c { LowKeepsLanes(v, c, i - off); } else { LowKeepsLanes(o, k, i); }
    } else {
      LowKeepsLanes(v, k, i);
    }
  }

  /** Writing register `j` can have an effect: it is not read-only and not an
      absent BAR. */
  predicate Changeable(regs: seq<Register>, bars: seq<Bar>, j: nat)
    requires j < |regs|
  {
    var r := regs[j];
    !r.ro && (r.setter.SetBar? ==> r.setter.barNo < |bars| && !bars[r.setter.barNo].NoBar?)
  }

  /** Register `j` stores what it is given, if it changes at all. */
  predicate Stores(regs: seq<Register>, bars: seq<Bar>, j: nat)
    requires j < |regs|
  {
    Changeable(regs, bars, j) ==> regs[j].setter.Store? && regs[j].getter.None?
  }

  /** The byte at `o` can be followed through an access that has come from `s` to
      `cur`: its register stores, or has not been reached. */
  predicate Tracked(regs: seq<Register>, bars: seq<Bar>, s: int, cur: int, o: int)
    requires o in OffsetMap(regs)
  {
    var r := regs[At(regs, o)];
    Stores(regs, bars, At(regs, o)) || r.End() <= s || cur <= r.offset
  }

  /** The bytes of the access before `cur` are written where they may be; all
      other bytes are as before. */
  ghost predicate WrittenUpTo(regs: seq<Register>, bars: seq<Bar>, before: seq<nat>, now: seq<nat>, s: int, cur: int,
                              v: nat)
    requires |before| == |now| == |regs|
  {
    forall o :: o in OffsetMap(regs) && Tracked(regs, bars, s, cur, o) ==>
      RegByte(regs, now, o) == ByteAfter(regs, bars, before, s, cur, v, o)
  }

  function ByteAfter(regs: seq<Register>, bars: seq<Bar>, before: seq<nat>, s: int, cur: int, v: nat, o: int): byte
    requires |before| == |regs| && o in OffsetMap(regs)
  {
    if s <= o < cur && Changeable(regs, bars, At(regs, o)) then ByteOf(v, o - s) else RegByte(regs, before, o)
  }

  /** BAR handlers stay unless a register that moves them was reached. */
  ghost predicate BasesUpTo(regs: seq<Register>, before: seq<nat>, now: seq<nat>, s: int, cur: int)
    requires |before| == |now|
  {
    forall b :: 0 <= b < |before| && !Moves(regs, s, cur, b) ==> now[b] == before[b]
  }

  ghost predicate Moves(regs: seq<Register>, s: int, cur: int, b: nat) {
    exists o :: s <= o < cur && o in OffsetMap(regs) && regs[At(regs, o)].setter == SetBar(b)
  }

  /** The device after one turn of the write loop. */
  function TurnState(regs: seq<Register>, bars: seq<Bar>, st: DevState, s: int, cur: int, c: nat, v: nat): (r: DevState)
    requires |st.values| == |regs| && |st.bases| == |bars|
    requires cur in OffsetMap(regs) && s <= cur && IsSize(c) && Layout(regs)
    ensures |r.values| == |regs| && |r.bases| == |bars|
  {
    var j := At(regs, cur);
    if regs[j].ro then st
    else
      var f := And(Shr(v, 8 * (cur - s)), Bits0(8 * c - 1));
      SetRegister(regs, bars, st, j, Merge(regs[j], st.values[j], cur - regs[j].offset, f, 8 * c))
  }

  /** The bytes one turn takes from the value. */
  lemma TakenLanes(v: nat, from: nat, c: nat, i: nat)
    requires i < c
    ensures ByteOf(And(Shr(v, 8 * from), Bits0(8 * c - 1)), i) == ByteOf(v, from + i)
  {
    hide And;
    hide Shr;
    hide Low;
    hide Bits0;
    MaskIsLow(Shr(v, 8 * from), c);
    LowKeepsLanes(Shr(v, 8 * from), c, i);
    ShrLanes(v, from, i);
  }

  lemma TurnByte(regs: seq<Register>, bars: seq<Bar>, st: DevState, s: int, cur: int, c: nat, v: nat, o: int)
    requires |st.values| == |regs| && |st.bases| == |bars| && Layout(regs) && IsSize(c)
    requires cur in OffsetMap(regs) && o in OffsetMap(regs) && s <= cur
    requires cur + c <= regs[At(regs, cur)].End() && Tracked(regs, bars, s, cur + c, o)
    requires cur <= o < cur + c ==> At(regs, o) == At(regs, cur)
    ensures RegByte(regs, TurnState(regs, bars, st, s, cur, c, v).values, o)
         == if cur <= o < cur + c && Changeable(regs, bars, At(regs, o)) then ByteOf(v, o - s)
            else RegByte(regs, st.values, o)
  {
    hide Merge;
    hide And;
    hide Shr;
    hide Bits0;
    hide ByteOf;
    hide OffsetMap;
    hide BarValue;
    var j := At(regs, cur);
    var r := regs[j];
    if At(regs, o) == j && Changeable(regs, bars, j) {
      var f := And(Shr(v, 8 * (cur - s)), Bits0(8 * c - 1));
      MergedLanes(r, st.values[j], cur - r.offset, f, c, o - r.offset);
      if cur <= o < cur + c { TakenLanes(v, cur - s, c, o - cur); }
    }
  }

  lemma TurnWrites(regs: seq<Register>, bars: seq<Bar>, before: seq<nat>, st: DevState, s: int, cur: int, c: nat,
                   v: nat)
    requires |before| == |st.values| == |regs| && |st.bases| == |bars| && Layout(regs) && IsSize(c)
    requires cur in OffsetMap(regs) && s <= cur && cur + c <= regs[At(regs, cur)].End()
    requires forall o :: cur <= o < cur + c ==> o in OffsetMap(regs) && At(regs, o) == At(regs, cur)
    requires WrittenUpTo(regs, bars, before, st.values, s, cur, v)
    ensures WrittenUpTo(regs, bars, before, TurnState(regs, bars, st, s, cur, c, v).values, s, cur + c, v)
  {
    hide TurnState;
    hide RegByte;
    hide OffsetMap;
    hide ByteOf;
    hide Changeable;
    hide Stores;
    var now := TurnState(regs, bars, st, s, cur, c, v).values;
    forall o | o in OffsetMap(regs) && Tracked(regs, bars, s, cur + c, o)
      ensures RegByte(regs, now, o) == ByteAfter(regs, bars, before, s, cur + c, v, o)
    {
      TurnByte(regs, bars, st, s, cur, c, v, o);
      assert Tracked(regs, bars, s, cur, o);
      assert RegByte(regs, st.values, o) == ByteAfter(regs, bars, before, s, cur, v, o);
    }
  }

  lemma TurnMoves(regs: seq<Register>, bars: seq<Bar>, before: seq<nat>, st: DevState, s: int, cur: int, c: nat, v: nat)
    requires |st.values| == |regs| && |before| == |st.bases| == |bars| && Layout(regs) && IsSize(c)
    requires cur in OffsetMap(regs) && s <= cur && BasesUpTo(regs, before, st.bases, s, cur)
    ensures BasesUpTo(regs, before, TurnState(regs, bars, st, s, cur, c, v).bases, s, cur + c)
  {
    hide Merge;
    hide And;
    hide Shr;
    hide Bits0;
    hide OffsetMap;
    hide BarValue;
    hide At;
    hide Layout;
    var now := TurnState(regs, bars, st, s, cur, c, v).bases;
    forall b | 0 <= b < |before| && !Moves(regs, s, cur + c, b) ensures now[b] == before[b] {
      assert s <= cur < cur + c;
      assert regs[At(regs, cur)].setter != SetBar(b);
      assert !Moves(regs, s, cur, b);
    }
  }

  /** Some register of the access before `cur` may be written. */
  ghost predicate SomeWritable(regs: seq<Register>, s: int, cur: int) {
    exists o :: s <= o < cur && o in OffsetMap(regs) && !regs[At(regs, o)].ro
  }

  lemma WritableGrows(regs: seq<Register>, s: int, cur: int, c: nat)
    requires s <= cur && c > 0 && cur in OffsetMap(regs)
    requires forall o :: cur <= o < cur + c ==> o in OffsetMap(regs) && At(regs, o) == At(regs, cur)
    ensures SomeWritable(regs, s, cur + c) <==> SomeWritable(regs, s, cur) || !regs[At(regs, cur)].ro
  {
    hide At;
    hide OffsetMap;
    if !regs[At(regs, cur)].ro { assert s <= cur < cur + c; }
    if SomeWritable(regs, s, cur) {
      var o :| s <= o < cur && o in OffsetMap(regs) && !regs[At(regs, o)].ro;
      assert s <= o < cur + c;
    }
    if SomeWritable(regs, s, cur + c) {
      var o :| s <= o < cur + c && o in OffsetMap(regs) && !regs[At(regs, o)].ro;
      if o >= cur { assert At(regs, o) == At(regs, cur); }
    }
  }

  /** One turn of the write loop. */
  lemma WriteTurn(regs: seq<Register>, bars: seq<Bar>, st: DevState, s: int, n: nat, cur: int, v: nat, ok: bool)
    requires |st.values| == |regs| && |st.bases| == |bars| && MapOk(regs, OffsetMap(regs))
    requires Layout(regs) && IsSize(n) && s <= cur < s + n && cur in OffsetMap(regs)
    ensures var c := TurnSize(regs, n, cur);
      WriteLoop(regs, bars, OffsetMap(regs), st, cur, 8 * (cur - s), 8 * n, Shr(v, 8 * (cur - s)), ok)
        == WriteLoop(regs, bars, OffsetMap(regs), TurnState(regs, bars, st, s, cur, c, v),
             cur + c, 8 * (cur + c - s), 8 * n, Shr(v, 8 * (cur + c - s)), ok || !regs[At(regs, cur)].ro)
  {
    hide Merge;
    hide And;
    hide Shr;
    hide Bits0;
    hide Chunk;
    hide TurnSize;
    hide Layout;
    hide OffsetMap;
    hide SetRegister;
    var c := TurnSize(regs, n, cur);
    TurnCovers(regs, n, cur);
    ShrTwice(v, 8 * (cur - s), 8 * c);
  }

  lemma {:induction false} ShrTwice(v: nat, a: nat, b: nat)
    ensures Shr(Shr(v, a), b) == Shr(v, a + b)
  {
    if a > 0 { ShrTwice(v / 2, a - 1, b); }
  }

  lemma {:induction false} WriteLoopBytes(regs: seq<Register>, bars: seq<Bar>, before: DevState, st: DevState,
                                          s: int, n: nat, cur: int, v: nat, ok: bool)
    requires |before.values| == |st.values| == |regs| && |before.bases| == |st.bases| == |bars|
    requires MapOk(regs, OffsetMap(regs))
    requires Layout(regs) && IsSize(n) && s <= cur && forall o :: s <= o < cur ==> o in OffsetMap(regs)
    requires WrittenUpTo(regs, bars, before.values, st.values, s, cur, v) && ok == SomeWritable(regs, s, cur)
    requires BasesUpTo(regs, before.bases, st.bases, s, cur)
    ensures var r, e := WriteLoop(regs, bars, OffsetMap(regs), st, cur, 8 * (cur - s), 8 * n,
                                  Shr(v, 8 * (cur - s)), ok),
                        SplitEnd(regs, s, n, cur);
      && |r.0.values| == |regs| && |r.0.bases| == |bars|
      && WrittenUpTo(regs, bars, before.values, r.0.values, s, e, v)
      && BasesUpTo(regs, before.bases, r.0.bases, s, e)
      && r.1 == (e < s + n || !SomeWritable(regs, s, e))
    decreases s + n - cur
  {
    hide WriteLoop;
    hide WrittenUpTo;
    hide BasesUpTo;
    hide SomeWritable;
    hide TurnState;
    hide Shr;
    hide Layout;
    hide OffsetMap;
    hide TurnSize;
    if cur < s + n && cur in OffsetMap(regs) {
      var c := TurnSize(regs, n, cur);
      TurnCovers(regs, n, cur);
      WriteTurn(regs, bars, st, s, n, cur, v, ok);
      TurnWrites(regs, bars, before.values, st, s, cur, c, v);
      TurnMoves(regs, bars, before.bases, st, s, cur, c, v);
      WritableGrows(regs, s, cur, c);
      WriteLoopBytes(regs, bars, before, TurnState(regs, bars, st, s, cur, c, v),
                     s, n, cur + c, v, ok || !regs[At(regs, cur)].ro);
    } else {
      WriteEnd(regs, bars, st, cur, 8 * (cur - s), 8 * n, Shr(v, 8 * (cur - s)), ok);
    }
  }

  lemma WriteEnd(regs: seq<Register>, bars: seq<Bar>, st: DevState, cur: int, bitCount: nat, width: nat, vv: nat,
                 ok: bool)
    requires |st.values| == |regs| && |st.bases| == |bars| && MapOk(regs, OffsetMap(regs))
    requires bitCount >= width || cur !in OffsetMap(regs)
    ensures WriteLoop(regs, bars, OffsetMap(regs), st, cur, bitCount, width, vv, ok) == (st, bitCount < width || !ok)
  {
  }

  /** What an access does, whatever registers it reaches: of those that store, it
      changes exactly the bytes up to where its split ends, those behind the access
      taking what the value has above its width; a register it does not reach keeps
      its value, and so does a BAR handler. It raises when it comes to an offset
      without a register, and when there was nothing to write. */
  lemma WriteIsSplitBytes(regs: seq<Register>, bars: seq<Bar>, st: DevState, s: int, n: nat, v: nat)
    requires |st.values| == |regs| && |st.bases| == |bars| && Layout(regs) && IsSize(n)
    ensures MapOk(regs, OffsetMap(regs))
    ensures var r, e := WriteLoop(regs, bars, OffsetMap(regs), st, s, 0, 8 * n, v, false), SplitEnd(regs, s, n, s);
      && |r.0.values| == |regs| && |r.0.bases| == |bars|
      && WrittenUpTo(regs, bars, st.values, r.0.values, s, e, v)
      && BasesUpTo(regs, st.bases, r.0.bases, s, e)
      && r.1 == (e < s + n || !SomeWritable(regs, s, e))
  {
    hide OffsetMap;
    hide WriteLoop;
    hide Shr;
    MapIsOk(regs);
    ShrNothing(v);
    WriteLoopBytes(regs, bars, st, st, s, n, s, v, false);
  }

  /** Over plain registers every byte of the device can be followed. */
  lemma PlainTracks(regs: seq<Register>, bars: seq<Bar>, s: int, n: nat, o: int)
    requires Layout(regs) && (forall x :: s <= x < s + n ==> x in OffsetMap(regs)) && PlainAccess(regs, s, n)
    requires n > 0 && o in OffsetMap(regs)
    ensures Tracked(regs, bars, s, s + n, o)
    ensures s <= o < s + n ==> (Changeable(regs, bars, At(regs, o)) <==> !regs[At(regs, o)].ro)
  {
    hide OffsetMap;
    var j := At(regs, o);
    if regs[j].End() > s && s + n > regs[j].offset {
      var x := if regs[j].offset >= s then regs[j].offset else s;
      OnlyCover(regs, x, j);
      assert At(regs, x) == j;
    }
  }

  lemma PlainBases(regs: seq<Register>, before: seq<nat>, now: seq<nat>, s: int, n: nat)
    requires (forall x :: s <= x < s + n ==> x in OffsetMap(regs)) && PlainAccess(regs, s, n)
    requires |before| == |now| && BasesUpTo(regs, before, now, s, s + n)
    ensures now == before
  {
    hide OffsetMap;
    hide At;
    forall b | 0 <= b < |before| ensures now[b] == before[b] { assert !Moves(regs, s, s + n, b); }
  }

  /** The bytes an aligned write leaves: its own where they can be written. */
  ghost predicate WrittenAt(regs: seq<Register>, before: seq<nat>, now: seq<nat>, s: int, n: nat, v: nat)
    requires |before| == |now| == |regs|
  {
    forall o :: o in OffsetMap(regs) ==>
      RegByte(regs, now, o)
        == if s <= o < s + n && !regs[At(regs, o)].ro then ByteOf(v, o - s) else RegByte(regs, before, o)
  }

  /** An aligned write changes exactly the bytes it covers that belong to
      writable registers; it raises exactly when there is none. */
  lemma WriteIsBytes(regs: seq<Register>, bars: seq<Bar>, st: DevState, s: int, n: nat, v: nat)
    requires |st.values| == |regs| && |st.bases| == |bars| && Access(regs, s, n) && PlainAccess(regs, s, n)
    ensures MapOk(regs, OffsetMap(regs))
    ensures var r := WriteLoop(regs, bars, OffsetMap(regs), st, s, 0, 8 * n, v, false);
      && |r.0.values| == |regs| && r.0.bases == st.bases
      && WrittenAt(regs, st.values, r.0.values, s, n, v)
      && r.1 == !SomeWritable(regs, s, s + n)
  {
    hide WriteLoop;
    hide OffsetMap;
    hide RegByte;
    hide ByteOf;
    hide SomeWritable;
    hide PlainAccess;
    hide Layout;
    hide Tracked;
    hide BasesUpTo;
    hide Changeable;
    AlignedSplit(regs, s, n, s);
    WriteIsSplitBytes(regs, bars, st, s, n, v);
    var r := WriteLoop(regs, bars, OffsetMap(regs), st, s, 0, 8 * n, v, false);
    PlainBases(regs, st.bases, r.0.bases, s, n);
    forall o | o in OffsetMap(regs)
      ensures RegByte(regs, r.0.values, o) == ByteAfter(regs, bars, st.values, s, s + n, v, o)
      ensures s <= o < s + n ==> (Changeable(regs, bars, At(regs, o)) <==> !regs[At(regs, o)].ro)
    {
      PlainTracks(regs, bars, s, n, o);
    }
  }

  // ---- Writes that run over -------------------------------------------------------------

  /** What the registers have after a write. */
  function ValuesAfter(regs: seq<Register>, bars: seq<Bar>, st: DevState, s: int, n: nat, v: nat): (values: seq<nat>)
    requires |st.values| == |regs| && |st.bases| == |bars| && Layout(regs) && IsSize(n)
    ensures |values| == |regs|
  {
    WriteIsSplitBytes(regs, bars, st, s, n, v);
    WriteLoop(regs, bars, OffsetMap(regs), st, s, 0, 8 * n, v, false).0.values
  }

  /** Outside the access every byte of a register that stores is as before. */
  ghost predicate OnlyAsked(regs: seq<Register>, bars: seq<Bar>, before: seq<nat>, now: seq<nat>, s: int, n: nat)
    requires |before| == |now| == |regs|
  {
    forall o :: o in OffsetMap(regs) && !(s <= o < s + n) && Stores(regs, bars, At(regs, o)) ==>
      RegByte(regs, now, o) == RegByte(regs, before, o)
  }

  /** Of the registers that store, a write touches only the bytes asked for,
      whatever the registers hold and whatever is written, exactly when its split
      runs over into none of them that can be written. */
  lemma WriteExactIff(regs: seq<Register>, bars: seq<Bar>, s: int, n: nat)
    requires Layout(regs) && IsSize(n)
    ensures (forall st: DevState, v: nat ::
               |st.values| == |regs| && InWidth(regs, st.values) && |st.bases| == |bars| && v < Pow2(8 * n) ==>
                 OnlyAsked(regs, bars, st.values, ValuesAfter(regs, bars, st, s, n, v), s, n))
       <==> (forall o :: s + n <= o < SplitEnd(regs, s, n, s) && Stores(regs, bars, At(regs, o)) ==>
               !Changeable(regs, bars, At(regs, o)))
  {
    hide WriteLoop;
    hide OffsetMap;
    hide InWidth;
    hide SomeWritable;
    hide BasesUpTo;
    hide Pow2;
    hide Layout;
    hide RegByte;
    hide Changeable;
    hide Stores;
    hide ByteOf;
    var e := SplitEnd(regs, s, n, s);
    if forall o :: s + n <= o < e && Stores(regs, bars, At(regs, o)) ==> !Changeable(regs, bars, At(regs, o)) {
      forall st: DevState, v: nat
        | |st.values| == |regs| && InWidth(regs, st.values) && |st.bases| == |bars| && v < Pow2(8 * n)
        ensures OnlyAsked(regs, bars, st.values, ValuesAfter(regs, bars, st, s, n, v), s, n)
      {
        WriteIsSplitBytes(regs, bars, st, s, n, v);
      }
    } else {
      var o :| s + n <= o < e && Stores(regs, bars, At(regs, o)) && Changeable(regs, bars, At(regs, o));
      OverrunShows(regs, bars, s, n, o);
    }
  }

  /** All registers full of ones, and zero written: the byte changes. */
  lemma OverrunShows(regs: seq<Register>, bars: seq<Bar>, s: int, n: nat, o: int)
    requires Layout(regs) && IsSize(n) && s + n <= o < SplitEnd(regs, s, n, s)
    requires Stores(regs, bars, At(regs, o)) && Changeable(regs, bars, At(regs, o))
    ensures InWidth(regs, AllOnes(regs))
    ensures !OnlyAsked(regs, bars, AllOnes(regs), ValuesAfter(regs, bars, Full(regs, bars), s, n, 0), s, n)
  {
    hide WriteLoop;
    hide OffsetMap;
    hide InWidth;
    hide SomeWritable;
    hide BasesUpTo;
    hide Layout;
    hide RegByte;
    hide ByteOf;
    var st, e := Full(regs, bars), SplitEnd(regs, s, n, s);
    AllOnesInWidth(regs);
    AllOnesShown(regs, o);
    WriteIsSplitBytes(regs, bars, st, s, n, 0);
    assert Tracked(regs, bars, s, e, o);
    assert ByteAfter(regs, bars, st.values, s, e, 0, o) == ByteOf(0, o - s);
    ZeroLanes(o - s);
  }

  function Full(regs: seq<Register>, bars: seq<Bar>): (st: DevState)
    ensures st.values == AllOnes(regs) && |st.bases| == |bars|
  {
    DevState(AllOnes(regs), seq(|bars|, _ => 0))
  }

  lemma {:induction false} ZeroLanes(i: nat)
    ensures ByteOf(0, i) == 0
  {
    if i > 0 { ZeroLanes(i - 1); }
  }

  /** The access comes to register `j`. */
  ghost predicate Reached(regs: seq<Register>, s: int, e: int, j: nat) {
    exists o :: s <= o < e && o in OffsetMap(regs) && At(regs, o) == j
  }

  lemma {:induction false} AndAtMost(a: nat, b: nat)
    ensures And(a, b) <= b
  {
    if a > 0 && b > 0 { AndAtMost(a / 2, b / 2); }
  }

  lemma {:induction false} AndNotAtMost(a: nat, b: nat)
    ensures AndNot(a, b) <= a
  {
    if a > 0 { AndNotAtMost(a / 2, b / 2); }
  }

  lemma OrOneAtMost(a: nat)
    ensures Or(a, 1) <= a + 1
  {
  }

  /** No BAR takes a value of all ones. */
  lemma BarNeverFull(bar: Bar, v: nat)
    requires !bar.NoBar?
    ensures BarValue(bar, v).0 < 0xFFFF_FFFF
  {
    hide And;
    hide AndNot;
    hide Or;
    AndAtMost(v, 0xFFFF_FFFC);
    AndAtMost(v, 0xFFFF_FFF0);
    OrOneAtMost(And(v, 0xFFFF_FFFC));
    if bar.M32Bar? && bar.len > 0 { AndNotAtMost(And(v, 0xFFFF_FFF0), bar.len - 1); }
  }

  /** Base address registers have 32 bits. */
  ghost predicate BarsFit(regs: seq<Register>) {
    forall j :: 0 <= j < |regs| && regs[j].setter.SetBar? ==> regs[j].width == 32
  }

  /** A turn that comes to a register that can change does not leave it full of
      ones when zero is written; all other registers keep their value. */
  lemma TurnOnRegister(regs: seq<Register>, bars: seq<Bar>, st: DevState, s: int, cur: int, c: nat, v: nat, j: nat)
    requires |st.values| == |regs| && |st.bases| == |bars| && Layout(regs) && IsSize(c) && BarsFit(regs)
    requires cur in OffsetMap(regs) && s <= cur && cur + c <= regs[At(regs, cur)].End() && j < |regs|
    ensures At(regs, cur) != j || !Changeable(regs, bars, j) ==>
      TurnState(regs, bars, st, s, cur, c, v).values[j] == st.values[j]
    ensures At(regs, cur) == j && Changeable(regs, bars, j) && v == 0 ==>
      TurnState(regs, bars, st, s, cur, c, v).values[j] != AllOnes(regs)[j]
  {
    hide Merge;
    hide And;
    hide Shr;
    hide Bits0;
    hide ByteOf;
    hide OffsetMap;
    hide BarValue;
    hide Pow2;
    hide Layout;
    hide AllOnes;
    if At(regs, cur) == j && Changeable(regs, bars, j) && v == 0 {
      var r := regs[j];
      var f := And(Shr(0, 8 * (cur - s)), Bits0(8 * c - 1));
      if r.setter.Store? {
        assert Natural(r) by { NaturalAt(regs, j); }
        StoredZero(r, st.values[j], cur - r.offset, c, cur - s);
      } else {
        BarNeverFull(bars[r.setter.barNo], Merge(r, st.values[j], cur - r.offset, f, 8 * c));
        Pow2Of32();
      }
    }
  }

  lemma NaturalAt(regs: seq<Register>, j: nat)
    requires Layout(regs) && j < |regs|
    ensures Natural(regs[j])
  {
  }

  lemma StoredZero(r: Register, value: nat, off: nat, c: nat, from: nat)
    requires Natural(r) && IsSize(c) && off + c <= r.Size()
    ensures Merge(r, value, off, And(Shr(0, 8 * from), Bits0(8 * c - 1)), 8 * c) != Pow2(r.width) - 1
  {
    hide Merge;
    hide And;
    hide Shr;
    hide Bits0;
    hide ByteOf;
    hide Pow2;
    MergedLanes(r, value, off, And(Shr(0, 8 * from), Bits0(8 * c - 1)), c, off);
    TakenLanes(0, from, c, 0);
    ZeroLanes(from);
    AllOnesByte(r.Size(), off);
  }

  lemma Pow2Of32()
    ensures Pow2(32) == 0x1_0000_0000
  {
    Pow2Byte(0);
    Pow2Byte(8);
    Pow2Byte(16);
    Pow2Byte(24);
  }

  lemma {:induction false} LoopOnRegister(regs: seq<Register>, bars: seq<Bar>, st: DevState, s: int, n: nat, cur: int,
                                          v: nat, ok: bool, j: nat)
    requires |st.values| == |regs| && |st.bases| == |bars| && MapOk(regs, OffsetMap(regs)) && BarsFit(regs)
    requires Layout(regs) && IsSize(n) && s <= cur && j < |regs|
    ensures var r, e := WriteLoop(regs, bars, OffsetMap(regs), st, cur, 8 * (cur - s), 8 * n,
                                  Shr(v, 8 * (cur - s)), ok).0,
                        SplitEnd(regs, s, n, cur);
      && |r.values| == |regs|
      && (!Reached(regs, cur, e, j) || !Changeable(regs, bars, j) ==> r.values[j] == st.values[j])
      && (v == 0 && Changeable(regs, bars, j) && (Reached(regs, cur, e, j) || st.values[j] != AllOnes(regs)[j]) ==>
            r.values[j] != AllOnes(regs)[j])
    decreases s + n - cur
  {
    hide WriteLoop;
    hide TurnState;
    hide Shr;
    hide Layout;
    hide OffsetMap;
    hide TurnSize;
    hide Changeable;
    hide Reached;
    hide BarsFit;
    hide AllOnes;
    if cur < s + n && cur in OffsetMap(regs) {
      var c := TurnSize(regs, n, cur);
      var st1 := TurnState(regs, bars, st, s, cur, c, v);
      TurnCovers(regs, n, cur);
      WriteTurn(regs, bars, st, s, n, cur, v, ok);
      TurnOnRegister(regs, bars, st, s, cur, c, v, j);
      ReachedSplit(regs, cur, cur + c, SplitEnd(regs, s, n, cur), j);
      LoopOnRegister(regs, bars, st1, s, n, cur + c, v, ok || !regs[At(regs, cur)].ro, j);
    } else {
      WriteEnd(regs, bars, st, cur, 8 * (cur - s), 8 * n, Shr(v, 8 * (cur - s)), ok);
      NothingReached(regs, cur, j);
    }
  }

  lemma NothingReached(regs: seq<Register>, cur: int, j: nat)
    ensures !Reached(regs, cur, cur, j)
  {
  }

  lemma ReachedSplit(regs: seq<Register>, cur: int, mid: int, e: int, j: nat)
    requires cur < mid <= e && cur in OffsetMap(regs)
    requires forall o :: cur <= o < mid ==> o in OffsetMap(regs) && At(regs, o) == At(regs, cur)
    ensures Reached(regs, cur, e, j) <==> At(regs, cur) == j || Reached(regs, mid, e, j)
  {
    hide OffsetMap;
    hide At;
    if At(regs, cur) == j { assert cur <= cur < e && cur in OffsetMap(regs); }
    if Reached(regs, cur, e, j) {
      var o :| cur <= o < e && o in OffsetMap(regs) && At(regs, o) == j;
      if o < mid { assert At(regs, o) == At(regs, cur); }
    }
    if Reached(regs, mid, e, j) {
      var o :| mid <= o < e && o in OffsetMap(regs) && At(regs, o) == j;
      assert cur <= o < e;
    }
  }

  /** Whatever its alignment, a write leaves a register's value alone, whatever the
      registers hold and whatever is written, exactly when its split does not come
      to that register or the register cannot change: plain registers, BARs and
      registers with getters alike. */
  lemma RegisterKeptIff(regs: seq<Register>, bars: seq<Bar>, s: int, n: nat, j: nat)
    requires Layout(regs) && IsSize(n) && BarsFit(regs) && j < |regs|
    ensures (forall st: DevState, v: nat ::
               |st.values| == |regs| && InWidth(regs, st.values) && |st.bases| == |bars| && v < Pow2(8 * n) ==>
                 ValuesAfter(regs, bars, st, s, n, v)[j] == st.values[j])
       <==> !Reached(regs, s, SplitEnd(regs, s, n, s), j) || !Changeable(regs, bars, j)
  {
    hide WriteLoop;
    hide OffsetMap;
    hide InWidth;
    hide Layout;
    hide Changeable;
    hide Reached;
    hide AllOnes;
    hide BarsFit;
    hide Pow2;
    hide Shr;
    MapIsOk(regs);
    if !Reached(regs, s, SplitEnd(regs, s, n, s), j) || !Changeable(regs, bars, j) {
      forall st: DevState, v: nat
        | |st.values| == |regs| && InWidth(regs, st.values) && |st.bases| == |bars| && v < Pow2(8 * n)
        ensures ValuesAfter(regs, bars, st, s, n, v)[j] == st.values[j]
      {
        ShrNothing(v);
        LoopOnRegister(regs, bars, st, s, n, s, v, false, j);
      }
    } else {
      var st := Full(regs, bars);
      AllOnesInWidth(regs);
      ShrNothing(0);
      LoopOnRegister(regs, bars, st, s, n, s, 0, false, j);
      assert ValuesAfter(regs, bars, st, s, n, 0)[j] != st.values[j];
    }
  }
}

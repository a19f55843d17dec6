/** The register access engine (iodev.py): how an access of 8 to 64 bits is split
    over registers of mixed widths. */
module Registers {
  import opened Common
  import opened Bits
  import opened Bytes
  import opened ByteLanes

  /** What writing a register does: store the value, or go through `_setBar`. */
  datatype Setter = Store | SetBar(barNo: nat)

  /** A base address register of a PCI function; see Pci. */
  datatype Bar = NoBar | IoBar | M32Bar(len: nat)

  /** `getter` is the value of a register whose getter returns a constant. */
  datatype Register = Register(offset: nat, width: nat, ro: bool, getter: Option<nat>, setter: Setter) {
    function Size(): nat { width / 8 }

    function End(): nat { offset + Size() }

    predicate Covers(o: int) { offset <= o < End() }

    function Observed(value: nat): nat { if getter.Some? then getter.value else value }
  }

  /** The values of the registers and the bases of the BAR handlers. */
  datatype DevState = DevState(values: seq<nat>, bases: seq<nat>)

  // ---- The offset map ---------------------------------------------------------

  /** `m` with register `k` at the `n` offsets from `o` on. */
  function AddOffsets(m: map<int, nat>, o: int, n: nat, k: nat): map<int, nat> {
    if n == 0 then m else AddOffsets(m, o, n - 1, k)[o + n - 1 := k]
  }

  /** The register of each byte offset; a later register wins. */
  function OffsetMap(regs: seq<Register>): map<int, nat> {
    if regs == [] then map[]
    else
      var k := |regs| - 1;
      AddOffsets(OffsetMap(regs[..k]), regs[k].offset, regs[k].Size(), k)
  }

  lemma {:induction false} AddedOffsets(m: map<int, nat>, o: int, n: nat, k: nat, x: int)
    ensures var r := AddOffsets(m, o, n, k);
      if o <= x < o + n then x in r && r[x] == k else (x in r <==> x in m) && (x in m ==> r[x] == m[x])
  {
    if n > 0 { AddedOffsets(m, o, n - 1, k, x); }
  }

  lemma {:induction false} OffsetMapCovers(regs: seq<Register>, o: int)
    requires o in OffsetMap(regs)
    ensures OffsetMap(regs)[o] < |regs| && regs[OffsetMap(regs)[o]].Covers(o)
  {
    var k := |regs| - 1;
    AddedOffsets(OffsetMap(regs[..k]), regs[k].offset, regs[k].Size(), k, o);
    if !regs[k].Covers(o) { OffsetMapCovers(regs[..k], o); }
  }

  ghost predicate MapOk(regs: seq<Register>, m: map<int, nat>) {
    forall o :: o in m ==> m[o] < |regs| && regs[m[o]].Covers(o)
  }

  method BuildOffsetMap(regs: seq<Register>) returns (m: map<int, nat>)
    ensures m == OffsetMap(regs) && MapOk(regs, m)
  {
    m := map[];
    for i := 0 to |regs|
      invariant m == OffsetMap(regs[..i])
    {
      assert regs[..i + 1][..i] == regs[..i];
      ghost var before := m;
      assert (regs[i].width + 8) / 8 - 1 == regs[i].Size();
      for j := 0 to (regs[i].width + 8) / 8 - 1
        invariant m == AddOffsets(before, regs[i].offset, j, i)
      {
        m := m[regs[i].offset + j := i];
      }
    }
    assert regs[..|regs|] == regs;
    forall o | o in m ensures m[o] < |regs| && regs[m[o]].Covers(o) { OffsetMapCovers(regs, o); }
  }

  /** Natural alignment and no overlap. */
  ghost predicate Layout(regs: seq<Register>) {
    && (forall i :: 0 <= i < |regs| ==> Natural(regs[i]))
    && (forall i, j :: 0 <= i < j < |regs| ==> regs[i].End() <= regs[j].offset || regs[j].End() <= regs[i].offset)
  }

  predicate IsSize(n: nat) { n == 1 || n == 2 || n == 4 || n == 8 }

  predicate Natural(r: Register) {
    IsSize(r.Size()) && r.width == 8 * r.Size() && Aligned(r.offset, r.Size())
  }

  predicate Aligned(o: int, n: nat) {
    match n
    case 1 => true
    case 2 => o % 2 == 0
    case 4 => o % 4 == 0
    case 8 => o % 8 == 0
    case _ => false
  }

  lemma OnlyCover(regs: seq<Register>, o: int, j: nat)
    requires Layout(regs) && o in OffsetMap(regs) && j < |regs| && regs[j].Covers(o)
    ensures OffsetMap(regs)[o] == j
  {
    OffsetMapCovers(regs, o);
  }

  lemma {:induction false} CoveredIsMapped(regs: seq<Register>, o: int, j: nat)
    requires j < |regs| && regs[j].Covers(o)
    ensures o in OffsetMap(regs)
  {
    var k := |regs| - 1;
    AddedOffsets(OffsetMap(regs[..k]), regs[k].offset, regs[k].Size(), k, o);
    if j < k { CoveredIsMapped(regs[..k], o, j); }
  }

  // ---- One register -----------------------------------------------------------

  /** `RegisterInstance.read` on the register's value. */
  function ReadField(v: nat, off: nat, width: nat): nat
    requires width > 0
  {
    And(Shr(v, off * 8), Bits0(width - 1))
  }

  /** The value `RegisterInstance.write` hands to the setter. */
  function Merge(r: Register, value: nat, off: nat, v: nat, width: nat): nat
    requires 0 < width && 0 < r.width
  {
    if width < r.width then
      var oldv := ReadField(r.Observed(value), 0, r.width);
      var wmask := Bits0(width - 1);
      Or(AndNot(oldv, Shl(wmask, off * 8)), Shl(And(v, wmask), off * 8))
    else And(v, Bits0(r.width - 1))
  }

  /** `_setBar`: the register's new value, and the base given to the handler. */
  function BarValue(bar: Bar, v: nat): (nat, nat)
    requires !bar.NoBar?
  {
    match bar
    case IoBar => (Or(And(v, 0xFFFF_FFFC), 1), And(v, 0xFFFF_FFFC))
    case M32Bar(len) =>
      var vv := if len > 0 then AndNot(And(v, 0xFFFF_FFF0), len - 1) else 0;
      (vv, vv)
  }

  function SetRegister(regs: seq<Register>, bars: seq<Bar>, st: DevState, i: nat, v: nat): (r: DevState)
    requires i < |regs| == |st.values| && |st.bases| == |bars|
    ensures |r.values| == |st.values| && |r.bases| == |st.bases|
  {
    match regs[i].setter
    case Store => st.(values := st.values[i := v])
    case SetBar(n) =>
      if n >= |bars| || bars[n].NoBar? then st
      else st.(values := st.values[i := BarValue(bars[n], v).0], bases := st.bases[n := BarValue(bars[n], v).1])
  }

  // ---- The loops, as the source runs them on any access ---------------------------

  /** Halve the access until it fits into what is left of the register. */
  function Chunk(rw: nat, avail: int): nat
    requires avail > 0
  {
    if rw > avail then Chunk(rw / 2, avail) else rw
  }

  function ReadLoop(regs: seq<Register>, m: map<int, nat>, values: seq<nat>, cur: int, bitCount: nat, width: nat,
                    v: nat): Outcome<nat>
    requires MapOk(regs, m) && |values| == |regs|
    decreases width - bitCount
  {
    if bitCount >= width then Returns(v)
    else if cur !in m then Raises
    else
      var r := regs[m[cur]];
      var rel := cur - r.offset;
      var rw := if r.width - rel * 8 > 0 then Chunk(width, r.width - rel * 8) else 0;
      if rw < 8 then Raises
      else
        var vv := ReadField(r.Observed(values[m[cur]]), rel, rw);
        ReadLoop(regs, m, values, cur + rw / 8, bitCount + rw, width, Or(v, Shl(vv, bitCount)))
  }

  /** The device afterwards, and whether the write raised. */
  function WriteLoop(regs: seq<Register>, bars: seq<Bar>, m: map<int, nat>, st: DevState, cur: int, bitCount: nat,
                     width: nat, vv: nat, oneSuccess: bool): (r: (DevState, bool))
    requires MapOk(regs, m) && |st.values| == |regs| && |st.bases| == |bars|
    ensures |r.0.values| == |regs| && |r.0.bases| == |bars|
    decreases width - bitCount
  {
    if bitCount >= width then (st, !oneSuccess)
    else if cur !in m then (st, true)
    else
      var r := regs[m[cur]];
      var rel := cur - r.offset;
      var rw := if r.width - rel * 8 > 0 then Chunk(width, r.width - rel * 8) else 0;
      if rw < 8 then (st, true)
      else
        var st' := if r.ro then st
          else SetRegister(regs, bars, st, m[cur], Merge(r, st.values[m[cur]], rel, And(vv, Bits0(rw - 1)), rw));
        WriteLoop(regs, bars, m, st', cur + rw / 8, bitCount + rw, width, Shr(vv, rw), oneSuccess || !r.ro)
  }

  class RegisterDevice {
    const base: nat
    const regs: seq<Register>
    const bars: seq<Bar>
    const byOffset: map<int, nat>
    var values: seq<nat>
    var barBases: seq<nat>

    ghost predicate Valid()
      reads this
    {
      byOffset == OffsetMap(regs) && MapOk(regs, byOffset) && |values| == |regs| && |barBases| == |bars|
    }

    ghost function State(): DevState
      reads this
    {
      DevState(values, barBases)
    }

    constructor (base: nat, regs: seq<Register>, initial: seq<nat>, bars: seq<Bar>)
      requires |initial| == |regs|
      ensures Valid() && this.base == base && this.regs == regs && this.bars == bars
      ensures values == initial && forall i :: 0 <= i < |bars| ==> barBases[i] == 0xFFFF_FFFF
    {
      this.base, this.regs, this.bars := base, regs, bars;
      values, barBases := initial, seq(|bars|, _ => 0xFFFF_FFFF);
      var m := BuildOffsetMap(regs);
      byOffset := m;
    }

    method Read(addr: nat, width: nat) returns (r: Outcome<nat>)
      requires Valid()
      ensures r == ReadLoop(regs, byOffset, values, addr - base, 0, width, 0)
    {
      hide ReadField;
      var curOffset := addr - base;
      var bitCount, v := 0, 0;
      ghost var goal := ReadLoop(regs, byOffset, values, curOffset, 0, width, 0);
      while bitCount < width
        invariant goal == ReadLoop(regs, byOffset, values, curOffset, bitCount, width, v)
      {
        if curOffset !in byOffset { return Raises; }
        var ri := regs[byOffset[curOffset]];
        var relOffset := curOffset - ri.offset;
        BitsLeft(ri, curOffset);
        var rw := SplitWidth(width, ri.width - relOffset * 8);
        if rw < 8 { return Raises; }
        var vv := ReadField(ri.Observed(values[byOffset[curOffset]]), relOffset, rw);
        v := Or(v, Shl(vv, bitCount));
        curOffset := curOffset + rw / 8;
        bitCount := bitCount + rw;
      }
      r := Returns(v);
    }

    method Write(addr: nat, v: nat, width: nat) returns (raised: bool)
      requires Valid()
      modifies this
      ensures Valid()
      ensures (State(), raised) == WriteLoop(regs, bars, byOffset, old(State()), addr - base, 0, width, v, false)
    {
      hide Merge;
      var curOffset := addr - base;
      var bitCount, vv, oneSuccess := 0, v, false;
      ghost var goal := WriteLoop(regs, bars, byOffset, State(), curOffset, 0, width, v, false);
      while bitCount < width
        invariant Valid()
        invariant goal == WriteLoop(regs, bars, byOffset, State(), curOffset, bitCount, width, vv, oneSuccess)
      {
        if curOffset !in byOffset { return true; }
        var i := byOffset[curOffset];
        var relOffset := curOffset - regs[i].offset;
        BitsLeft(regs[i], curOffset);
        var rw := SplitWidth(width, regs[i].width - relOffset * 8);
        if rw < 8 { return true; }
        if !regs[i].ro {
          WriteRegister(i, relOffset, And(vv, Bits0(rw - 1)), rw);
          oneSuccess := true;
        }
        vv := Shr(vv, rw);
        curOffset := curOffset + rw / 8;
        bitCount := bitCount + rw;
      }
      raised := !oneSuccess;
    }

    /** `RegisterInstance.write` of a writable register. */
    method WriteRegister(i: nat, offset: nat, v: nat, width: nat)
      requires Valid() && i < |regs| && 0 < width && 0 < regs[i].width
      modifies this
      ensures Valid()
      ensures State() == SetRegister(regs, bars, old(State()), i, Merge(regs[i], old(values[i]), offset, v, width))
    {
      hide Merge;
      hide BarValue;
      var vv := Merge(regs[i], values[i], offset, v, width);
      match regs[i].setter {
        case Store => values := values[i := vv];
        case SetBar(n) =>
          if n >= |bars| || bars[n].NoBar? { return; }
          var b := BarValue(bars[n], vv);
          values := values[i := b.0];
          barBases := barBases[n := b.1];
      }
    }
  }

  /** The inner loop that halves the access. */
  method SplitWidth(width: nat, avail: int) returns (rw: nat)
    requires avail > 0
    ensures rw == Chunk(width, avail) && rw <= width && rw <= avail
  {
    rw := width;
    while rw > avail
      invariant rw <= width && Chunk(rw, avail) == Chunk(width, avail)
    {
      rw := rw / 2;
    }
  }

  /** Something is left of the register that covers an offset. */
  lemma BitsLeft(r: Register, o: int)
    requires r.Covers(o)
    ensures r.width - (o - r.offset) * 8 > 0
  {
  }
}

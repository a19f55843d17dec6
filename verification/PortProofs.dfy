/** The port pair 0xCF8, 0xCFC from end to end: what a write leaves in the address
    port, and which register of which function an access to the data port then
    reaches. */
module PortProofs {
  import opened Common
  import opened Bits
  import opened Bytes
  import opened ByteLanes
  import opened Registers
  import opened RegisterProofs
  import opened Pci
  import opened PciProofs

  // ---- The address port ---------------------------------------------------------

  /** The address port takes the bytes written and keeps its others. */
  lemma AddressBytes(cf8: nat, off: nat, v: nat, n: nat)
    requires IsSize(n) && off + n <= 4
    ensures MergedAddress(cf8, off, v, n) < 0x1_0000_0000
    ensures forall i :: 0 <= i < 4 ==>
      ByteOf(MergedAddress(cf8, off, v, n), i) == if off <= i < off + n then ByteOf(v, i - off) else ByteOf(cf8, i)
  {
    hide Merge;
    hide And;
    hide Bits0;
    hide ByteOf;
    hide Pow2;
    hide FromLe;
    var r, f := Ports(0)[0], And(v, Bits0(8 * n - 1));
    Pow2Of32();
    MergedNumber(r, cf8, off, f, n);
    forall i | 0 <= i < 4
      ensures ByteOf(Merge(r, cf8, off, f, 8 * n), i)
           == if off <= i < off + n then ByteOf(v, i - off) else ByteOf(cf8, i)
    {
      MergedLanes(r, cf8, off, f, n, i);
      if off <= i < off + n {
        ShrNothing(v);
        TakenLanes(v, 0, n, i - off);
      }
    }
  }

  /** Four bytes make up a 32-bit number. */
  lemma SameNumber(a: nat, b: nat)
    requires a < 0x1_0000_0000 && b < 0x1_0000_0000 && forall i :: 0 <= i < 4 ==> ByteOf(a, i) == ByteOf(b, i)
    ensures a == b
  {
    hide ByteOf;
    hide FromLe;
    hide Low;
    hide Pow2;
    Pow2Of32();
    assert Lanes(a, 0, 4) == Lanes(b, 0, 4);
    LowLanes(a, 4);
    LowLanes(b, 4);
    LowOfSmall(a, 32);
    LowOfSmall(b, 32);
  }

  /** A write inside the address port changes nothing but the bytes it covers; a
      32-bit one leaves the number written. */
  lemma AddressPortWrite(configs: map<nat, RegisterDevice>, ps: PortState, off: nat, v: nat, n: nat)
    requires Kept(configs, ps.devs) && IsSize(n) && off + n <= 4
    ensures var r := PortsAfter(configs, ps, off, 0, n, v, false);
      && !r.1 && r.0.devs == ps.devs && r.0.cf8 < 0x1_0000_0000
      && (forall i :: 0 <= i < 4 ==>
            ByteOf(r.0.cf8, i) == if off <= i < off + n then ByteOf(v, i - off) else ByteOf(ps.cf8, i))
      && (n == 4 && v < 0x1_0000_0000 ==> r.0.cf8 == v)
  {
    hide MergedAddress;
    hide DataWritten;
    hide Shr;
    hide Kept;
    hide ByteOf;
    AddressBytes(ps.cf8, off, v, n);
    assert off % 4 == off && Fitting(n, 4 - off) == n;
    var ps' := ps.(cf8 := MergedAddress(ps.cf8, off, v, n));
    assert PortsAfter(configs, ps', off + n, n, n, Shr(v, 8 * n), true) == (ps', false);
    if n == 4 && v < 0x1_0000_0000 { SameNumber(ps'.cf8, v); }
  }

  // ---- The data port -------------------------------------------------------------

  /** What the driver writes to the address port to select a register. */
  function Select(bdf: nat, reg: nat): nat { 0x8000_0000 + 256 * bdf + reg }

  /** A 32-bit write to the data port hands on the number itself. */
  lemma WholeData(v: nat)
    requires v < 0x1_0000_0000
    ensures MergedAtPort(0, 0, v, 4) == v
  {
    hide Merge;
    hide And;
    hide Bits0;
    hide ByteOf;
    hide Pow2;
    hide FromLe;
    var f := And(v, Bits0(31));
    Pow2Of32();
    MergeIsReplaced(Ports(0)[1], 0, 0, f, 4);
    forall i | 0 <= i < 4 ensures ByteOf(MergedAtPort(0, 0, v, 4), i) == ByteOf(v, i) {
      MergedAtPortLanes(0, 0, v, 4, i);
    }
    SameNumber(MergedAtPort(0, 0, v, 4), v);
  }

  lemma WholeRead(data: nat, cf8: nat)
    ensures PortRead(data, cf8, 0xCFC, 32) == Returns(data % 0x1_0000_0000)
  {
    hide PortRead;
    hide Low;
    hide FromLe;
    hide ByteOf;
    hide Pow2;
    PortReadLanes(data, cf8, 0, 4);
    LowLanes(data, 4);
    LowIsMod(data, 32);
    Pow2Of32();
  }

  /** After a function's number and a register were written to the address port, a
      32-bit read of the data port is a 32-bit read of that register; all ones for
      a function that is not there. */
  lemma SelectThenRead(pci: PciSubsystem, ps: PortState, bdf: nat, reg: nat)
    requires pci.Valid() && Kept(pci.configs, ps.devs) && bdf <= 0xFFFF && reg < 256
    ensures var sel := PortsAfter(pci.configs, ps, 0, 0, 4, Select(bdf, reg), false);
      && sel == (ps.(cf8 := Select(bdf, reg)), false)
      && DataPortResult(pci, sel.0.cf8, 0xCFC, 32) ==
         if bdf !in pci.configs then Returns(0xFFFF_FFFF)
         else
           var dev := pci.configs[bdf];
           match ReadLoop(dev.regs, dev.byOffset, dev.values, reg, 0, 32, 0)
           case Raises => Raises
           case Returns(data) => Returns(data % 0x1_0000_0000)
  {
    hide PortsAfter;
    hide ReadLoop;
    hide PortRead;
    hide SelectedBdf;
    hide SelectedReg;
    hide Kept;
    var cf8 := Select(bdf, reg);
    AddressPortWrite(pci.configs, ps, 0, cf8, 4);
    SelectedByAddress(bdf, reg);
    var data := pci.RegisterRead(bdf, reg);
    if data.Returns? { WholeRead(data.result, cf8); }
  }

  /** And a 32-bit write to the data port is a 32-bit write to that register of
      that function; no other function changes, and nothing does if the function
      is not there. */
  lemma SelectThenWrite(configs: map<nat, RegisterDevice>, ps: PortState, bdf: nat, reg: nat, v: nat)
    requires Kept(configs, ps.devs) && bdf <= 0xFFFF && reg < 256 && v < 0x1_0000_0000
    ensures var sel := PortsAfter(configs, ps, 0, 0, 4, Select(bdf, reg), false);
      && sel == (ps.(cf8 := Select(bdf, reg)), false)
      && PortsAfter(configs, sel.0, 4, 0, 4, v, false) ==
         if bdf !in configs then sel
         else
           var dev := configs[bdf];
           var w := WriteLoop(dev.regs, dev.bars, dev.byOffset, ps.devs[dev], reg, 0, 32, v, false);
           (sel.0.(devs := ps.devs[dev := w.0]), w.1)
  {
    hide PortsAfter;
    hide ReadLoop;
    hide WriteLoop;
    hide MergedAtPort;
    hide SelectedBdf;
    hide SelectedReg;
    AddressPortWrite(configs, ps, 0, Select(bdf, reg), 4);
    var sel := ps.(cf8 := Select(bdf, reg));
    DataPortIsOneTurn(configs, sel, 0, v, 4);
    SelectedByAddress(bdf, reg);
    WholeData(v);
  }

  /** A number with one of bits 24 to 30 set is no function's. A read of the data
      port then raises, and so does a write of part of it, which reads first; a write
      of all of it is lost. */
  lemma NoSuchNumber(pci: PciSubsystem, ps: PortState, addr: nat, width: nat, off: nat, v: nat, n: nat)
    requires pci.Valid() && Kept(pci.configs, ps.devs) && ps.cf8 / 0x100_0000 % 128 != 0
    requires forall b :: b in pci.configs ==> b <= 0xFFFF
    requires IsSize(n) && off + n <= 4
    ensures DataPortResult(pci, ps.cf8, addr, width) == Raises
    ensures PortsAfter(pci.configs, ps, 4 + off, 0, n, v, false) == (ps, n < 4)
  {
    hide SelectedBdf;
    hide SelectedReg;
    hide PortRead;
    hide PortsAfter;
    hide ReadLoop;
    SelectedByNumber(ps.cf8);
    HighBits(ps.cf8);
    DataPortIsOneTurn(pci.configs, ps, off, v, n);
  }

  lemma HighBits(cf8: nat)
    requires cf8 / 0x100_0000 % 128 != 0
    ensures cf8 / 256 % 0x80_0000 > 0xFFFF
  {
    var a := cf8 / 256;
    assert a / 65536 == cf8 / 0x100_0000;
    var q, r := a / 0x80_0000, a % 0x80_0000;
    assert a == q * 0x80_0000 + r;
    if r <= 0xFFFF {
      DivModUnique(a, 65536, 128 * q, r);
      DivModUnique(128 * q, 128, q, 0);
    }
  }

  /** A partial write of the data port reads the register first and raises if that
      raises; otherwise it is a 32-bit write of what was read with the new bytes put
      in. */
  lemma PartOfRegister(configs: map<nat, RegisterDevice>, ps: PortState, bdf: nat, reg: nat, off: nat, v: nat, n: nat)
    returns (m: nat)
    requires Kept(configs, ps.devs) && bdf in configs && ps.cf8 == Select(bdf, reg) && bdf <= 0xFFFF && reg < 256
    requires (n == 1 || n == 2) && off + n <= 4
    ensures var dev := configs[bdf];
      var data := ReadLoop(dev.regs, dev.byOffset, ps.devs[dev].values, reg, 0, 32, 0);
      var w := WriteLoop(dev.regs, dev.bars, dev.byOffset, ps.devs[dev], reg, 0, 32, m, false);
      PortsAfter(configs, ps, 4 + off, 0, n, v, false)
        == (if data.Raises? then (ps, true) else (ps.(devs := ps.devs[dev := w.0]), w.1))
      && (data.Returns? ==> forall i :: 0 <= i < 4 ==>
            ByteOf(m, i) == if off <= i < off + n then ByteOf(v, i - off) else ByteOf(data.result, i))
  {
    hide PortsAfter;
    hide ReadLoop;
    hide WriteLoop;
    hide MergedAtPort;
    hide SelectedBdf;
    hide SelectedReg;
    hide ByteOf;
    SelectedByAddress(bdf, reg);
    DataPortIsOneTurn(configs, ps, off, v, n);
    var dev := configs[bdf];
    var data := ReadLoop(dev.regs, dev.byOffset, ps.devs[dev].values, reg, 0, 32, 0);
    m := 0;
    if data.Returns? {
      m := MergedAtPort(data.result, off, v, n);
      forall i | 0 <= i < 4
        ensures ByteOf(m, i) == if off <= i < off + n then ByteOf(v, i - off) else ByteOf(data.result, i)
      {
        MergedAtPortLanes(data.result, off, v, n, i);
      }
    }
  }

  /** One step of a write of any width and alignment that has come to offset `cur`
      with `v` left: it takes the largest part, by halving, that stays inside the
      port there, and goes on behind it with `v` without the bytes taken; it raises
      behind the ports, and where a write of the data port does. */
  lemma OnePiece(configs: map<nat, RegisterDevice>, ps: PortState, cur: int, done: nat, n: nat, v: nat, ok: bool)
    returns (c: nat)
    requires Kept(configs, ps.devs) && IsSize(n) && done < n
    ensures !(0 <= cur < 8) ==> PortsAfter(configs, ps, cur, done, n, v, ok) == (ps, true)
    ensures 0 <= cur < 8 ==>
      && IsSize(c) && c <= n && c <= 4 - cur % 4 && (c < n ==> 2 * c > 4 - cur % 4)
      && PortsAfter(configs, ps, cur, done, n, v, ok) ==
         if cur < 4 then
           var ps' := PortsAfter(configs, ps, cur, 0, c, v, false).0;
           PortsAfter(configs, ps', cur + c, done + c, n, Rest(v, c), true)
         else
           var r := PortsAfter(configs, ps, cur, 0, c, v, false);
           if r.1 then r else PortsAfter(configs, r.0, cur + c, done + c, n, Rest(v, c), true)
  {
    hide DataWritten;
    hide MergedAddress;
    hide PortsAfter;
    hide Kept;
    hide Shr;
    hide Rest;
    c := 1;
    PortsTurn(configs, ps, cur, done, n, v, ok);
    if 0 <= cur < 8 {
      c := Fitting(n, 4 - cur % 4);
      FittingIsLargest(n, 4 - cur % 4);
      ShrIsRest(v, c);
      assert Fitting(c, 4 - cur % 4) == c;
      if cur < 4 {
        PortsTurn(configs, ps, cur, 0, c, v, false);
        PortsTurn(configs, ps.(cf8 := MergedAddress(ps.cf8, cur, v, c)), cur + c, c, c, Shr(v, 8 * c), true);
      } else {
        DataPortIsOneTurn(configs, ps, cur - 4, v, c);
        assert cur % 4 == cur - 4;
      }
    }
  }

  lemma {:induction false} FittingIsLargest(n: nat, a: nat)
    requires IsSize(n) && a >= 1
    ensures Fitting(n, a) < n ==> 2 * Fitting(n, a) > a
  {
    if n > a { FittingIsLargest(n / 2, a); }
  }

  /** `v` without its `c` low bytes. */
  function Rest(v: nat, c: nat): nat { if c == 0 then v else Rest(v / 256, c - 1) }

  lemma {:induction false} ShrIsRest(v: nat, c: nat)
    ensures Shr(v, 8 * c) == Rest(v, c)
  {
    if c > 0 {
      hide Shr;
      ShrByte(v, 8 * (c - 1));
      ShrIsRest(v / 256, c - 1);
    } else {
      ShrNothing(v);
    }
  }

  /** A 64-bit write at 0xCF8 selects with its low half, then writes its high half
      to the register just selected. */
  lemma BothPortsInOne(configs: map<nat, RegisterDevice>, ps: PortState, bdf: nat, reg: nat, v: nat)
    requires Kept(configs, ps.devs) && bdf <= 0xFFFF && reg < 256 && v < 0x1_0000_0000
    ensures var sel := ps.(cf8 := Select(bdf, reg));
      PortsAfter(configs, ps, 0, 0, 8, Select(bdf, reg) + 0x1_0000_0000 * v, false)
        == PortsAfter(configs, sel, 4, 0, 4, v, false)
  {
    hide MergedAddress;
    hide DataWritten;
    hide Shr;
    hide Kept;
    var sel, w := ps.(cf8 := Select(bdf, reg)), Select(bdf, reg) + 0x1_0000_0000 * v;
    LowHalf(ps.cf8, Select(bdf, reg), v);
    PortsTurn(configs, ps, 0, 0, 8, w, false);
    assert Fitting(8, 4) == 4 && Fitting(4, 4) == 4;
    PortsTurn(configs, sel, 4, 4, 8, v, true);
    var r := DataWritten(configs, sel, 0, v, 4);
    PortsTurn(configs, sel, 4, 0, 4, v, false);
    if !r.1 {
      PortsTurn(configs, r.0, 8, 8, 8, Shr(v, 32), true);
      PortsTurn(configs, r.0, 8, 4, 4, Shr(v, 32), true);
    }
  }

  lemma LowHalf(cf8: nat, low: nat, high: nat)
    requires low < 0x1_0000_0000
    ensures var w := low + 0x1_0000_0000 * high;
      MergedAddress(cf8, 0, w, 4) == low && Shr(w, 32) == high
  {
    hide MergedAddress;
    hide Shr;
    hide ByteOf;
    var w := low + 0x1_0000_0000 * high;
    AddressBytes(cf8, 0, w, 4);
    HalfOf(low, high);
    forall i | 0 <= i < 4 ensures ByteOf(MergedAddress(cf8, 0, w, 4), i) == ByteOf(low, i) { LowByteOf(low, high, i); }
    SameNumber(MergedAddress(cf8, 0, w, 4), low);
  }

  /** A part that is a multiple of a power of 256 does not reach the bytes below. */
  lemma LowByteOf(low: nat, high: nat, i: nat)
    requires i < 4
    ensures ByteOf(low + 0x1_0000_0000 * high, i) == ByteOf(low, i)
  {
    hide ByteOf;
    NextByte(low, 0x100_0000 * high, i);
    if i > 0 { NextByte(low / 256, 0x1_0000 * high, i - 1); }
    if i > 1 { NextByte(low / 256 / 256, 0x100 * high, i - 2); }
    if i > 2 { NextByte(low / 256 / 256 / 256, high, i - 3); }
  }

  lemma NextByte(low: nat, high: nat, i: nat)
    ensures i == 0 ==> ByteOf(low + 256 * high, i) == ByteOf(low, i)
    ensures i > 0 ==>
      ByteOf(low + 256 * high, i) == ByteOf(low / 256 + high, i - 1) && ByteOf(low, i) == ByteOf(low / 256, i - 1)
  {
    assert (low + 256 * high) / 256 == low / 256 + high;
  }

  lemma HalfOf(low: nat, high: nat)
    requires low < 0x1_0000_0000
    ensures Shr(low + 0x1_0000_0000 * high, 32) == high
  {
    hide Shr;
    ShrOne(low, 0x100_0000 * high, 24);
    ShrOne(low / 256, 0x1_0000 * high, 16);
    ShrOne(low / 256 / 256, 0x100 * high, 8);
    ShrOne(low / 256 / 256 / 256, high, 0);
    assert low / 256 / 256 / 256 / 256 == 0;
    ShrNothing(high);
  }

  lemma ShrOne(low: nat, high: nat, m: nat)
    ensures Shr(low + 256 * high, 8 + m) == Shr(low / 256 + high, m)
  {
    ShrByte(low + 256 * high, m);
    assert (low + 256 * high) / 256 == low / 256 + high;
  }
}

/** The two ways to a configuration register agree, and base address registers
    keep their alignment. */
module PciProofs {
  import opened Common
  import opened Bits
  import opened Bytes
  import opened ByteLanes
  import opened Registers
  import opened RegisterProofs
  import opened Pci

  // ---- Bus, device, function ----------------------------------------------------

  lemma LowByWidth(v: nat)
    ensures Low(v, 3) == v % 8 && Low(v, 5) == v % 32 && Low(v, 8) == v % 256
    ensures Low(v, 12) == v % 4096 && Low(v, 16) == v % 65536
  {
    LowByte(v, 0);
    LowIsMod(v, 3);
    LowIsMod(v, 5);
    LowIsMod(v, 12);
    LowIsMod(v, 16);
    Powers();
  }

  lemma Powers()
    ensures Pow2(3) == 8 && Pow2(5) == 32 && Pow2(8) == 256 && Pow2(12) == 4096 && Pow2(16) == 65536
  {
    Pow2Byte(0);
    Pow2Byte(4);
    Pow2Byte(8);
  }

  lemma Masks(v: nat)
    ensures And(v, 0x07) == v % 8 && And(v, 0x1F) == v % 32 && And(v, 0xFF) == v % 256
    ensures And(v, 0xFFF) == v % 4096 && And(v, 0xFFFF) == v % 65536
  {
    hide And;
    hide Low;
    hide Pow2;
    Powers();
    AndMask(v, 3);
    AndMask(v, 5);
    AndMask(v, 8);
    AndMask(v, 12);
    AndMask(v, 16);
    LowByWidth(v);
  }

  lemma Shifts(v: nat)
    ensures Shr(v, 3) == v / 8 && Shr(v, 8) == v / 256 && Shr(v, 12) == v / 4096
    ensures Shl(v, 3) == 8 * v && Shl(v, 8) == 256 * v && Shl(v, 12) == 4096 * v
  {
    hide Shr;
    hide Shl;
    ShrStep(v / 256, 0);
    ShlStep(v, 0);
    ShrByte(v, 0);
    ShrByte(v, 4);
    ShlByte(v, 0);
    ShlByte(v, 4);
    ShiftsByBits(v / 256);
    ShiftsByBits(v);
    assert v / 256 / 16 == v / 4096;
  }

  lemma ShiftsByBits(v: nat)
    ensures Shr(v, 3) == v / 8 && Shr(v, 4) == v / 16 && Shl(v, 3) == 8 * v && Shl(v, 4) == 16 * v
  {
    hide Shr;
    hide Shl;
    ShrStep(v, 2);
    ShrStep(v / 2, 1);
    ShrStep(v / 4, 0);
    assert v / 2 / 2 == v / 4 && v / 4 / 2 == v / 8 && v / 8 / 2 == v / 16;
    ShrStep(v, 3);
    ShrStep(v / 2, 2);
    ShrStep(v / 4, 1);
    ShrStep(v / 8, 0);
    ShlStep(v, 3);
    ShlStep(v, 2);
    ShlStep(v, 1);
    ShlStep(v, 0);
  }

  lemma ShrStep(v: nat, n: nat)
    ensures Shr(v, n + 1) == Shr(v / 2, n) && Shr(v, 0) == v
  {
  }

  lemma ShlStep(v: nat, n: nat)
    ensures Shl(v, n + 1) == 2 * Shl(v, n) && Shl(v, 0) == v
  {
  }

  lemma PackedBdf(bus: nat, dev: nat, fn: nat)
    requires bus <= 0xFF && dev <= 0x1F && fn <= 0x7
    ensures PackBdf(bus, dev, fn) == Returns(bus * 256 + dev * 8 + fn)
  {
    hide Or;
    hide Shl;
    hide Pow2;
    Shifts(bus);
    Shifts(dev);
    OrOfParts(bus, 8 * dev, 8, 256);
    OrOfParts(bus * 32 + dev, fn, 3, 8);
  }

  /** Numbers with no bit in common. */
  lemma OrOfParts(high: nat, low: nat, n: nat, p: nat)
    requires (n == 8 && p == 256) || (n == 3 && p == 8)
    requires low < p
    ensures Or(p * high, low) == p * high + low
  {
    hide Or;
    hide Shl;
    hide Pow2;
    Powers();
    Shifts(high);
    OrSymmetric(p * high, low);
    OrDisjoint(low, high, n);
  }

  /** Packing and unpacking are each other's inverses: on every triple in range,
      and on every 16-bit number. */
  lemma BdfRoundTrip(bus: nat, dev: nat, fn: nat, bdf: nat)
    ensures PackBdf(bus, dev, fn).Returns? <==> bus <= 0xFF && dev <= 0x1F && fn <= 0x7
    ensures bus <= 0xFF && dev <= 0x1F && fn <= 0x7 ==>
      PackBdf(bus, dev, fn).Returns? && UnpackBdf(PackBdf(bus, dev, fn).result) == (bus, dev, fn)
    ensures bdf <= 0xFFFF ==> var (b, d, f) := UnpackBdf(bdf); PackBdf(b, d, f) == Returns(bdf)
  {
    hide PackBdf;
    hide UnpackBdf;
    PackedIff(bus, dev, fn);
    if bus <= 0xFF && dev <= 0x1F && fn <= 0x7 {
      PackedBdf(bus, dev, fn);
      Unpacked(bus * 256 + dev * 8 + fn);
      FieldsOfSum(bus, dev, fn);
    }
    Unpacked(bdf);
    if bdf <= 0xFFFF {
      PackedBdf(bdf / 256 % 256, bdf / 8 % 32, bdf % 8);
      SumOfFields(bdf);
    }
  }

  lemma PackedIff(bus: nat, dev: nat, fn: nat)
    ensures PackBdf(bus, dev, fn).Returns? <==> bus <= 0xFF && dev <= 0x1F && fn <= 0x7
  {
    hide Or;
    hide Shl;
  }

  lemma FieldsOfSum(bus: nat, dev: nat, fn: nat)
    requires bus <= 0xFF && dev <= 0x1F && fn <= 0x7
    ensures var s := bus * 256 + dev * 8 + fn; s / 256 % 256 == bus && s / 8 % 32 == dev && s % 8 == fn
  {
    assert (bus * 256 + dev * 8 + fn) / 8 == bus * 32 + dev;
  }

  lemma SumOfFields(bdf: nat)
    requires bdf <= 0xFFFF
    ensures bdf / 256 % 256 * 256 + bdf / 8 % 32 * 8 + bdf % 8 == bdf
  {
    assert bdf / 8 / 32 == bdf / 256;
  }

  lemma Unpacked(bdf: nat)
    ensures UnpackBdf(bdf) == (bdf / 256 % 256, bdf / 8 % 32, bdf % 8)
  {
    hide And;
    hide Shr;
    Shifts(bdf);
    Masks(bdf / 256);
    Masks(bdf / 8);
    Masks(bdf);
  }

  // ---- Ports and window -----------------------------------------------------------

  lemma WindowAddress(bdf: nat, reg: nat)
    requires bdf <= 0xFFFF && reg < 4096
    ensures SplitAddr(WINDOW_BASE + Shl(bdf, 12) + reg) == (bdf, reg)
  {
    hide And;
    hide Shr;
    hide Shl;
    Shifts(bdf);
    var addr := WINDOW_BASE + 4096 * bdf + reg;
    Shifts(addr);
    Masks(addr);
    Masks(addr / 4096);
    assert addr / 4096 == 0xB_0000 + bdf && addr % 4096 == reg by { WindowParts(bdf, reg); }
    assert (0xB_0000 + bdf) % 65536 == bdf;
  }

  lemma WindowParts(bdf: nat, reg: nat)
    requires reg < 4096
    ensures (WINDOW_BASE + 4096 * bdf + reg) / 4096 == 0xB_0000 + bdf && (WINDOW_BASE + 4096 * bdf + reg) % 4096 == reg
  {
    DivModUnique(WINDOW_BASE + 4096 * bdf + reg, 4096, 0xB_0000 + bdf, reg);
  }

  /** The address port takes the function's number and the register behind the
      enable bit. */
  lemma SelectedByAddress(bdf: nat, reg: nat)
    requires bdf <= 0xFFFF && reg < 256
    ensures SelectedBdf(0x8000_0000 + 256 * bdf + reg) == bdf && SelectedReg(0x8000_0000 + 256 * bdf + reg) == reg
  {
    hide And;
    hide Shr;
    hide Low;
    hide Pow2;
    var cf8 := 0x8000_0000 + 256 * bdf + reg;
    Pow2Byte(23);
    Pow2Byte(15);
    Pow2Byte(7);
    Pow2Of7();
    AndMask(cf8, 31);
    LowIsMod(cf8, 31);
    assert cf8 % 0x8000_0000 == 256 * bdf + reg;
    Masks(256 * bdf + reg);
    Shifts(256 * bdf + reg);
  }

  /** Of any number in the address port, bits 8 to 30 select the function and bits
      0 to 7 the register. */
  lemma SelectedByNumber(cf8: nat)
    ensures SelectedBdf(cf8) == cf8 / 256 % 0x80_0000 && SelectedReg(cf8) == cf8 % 256
  {
    hide And;
    hide Shr;
    hide Low;
    hide Pow2;
    Pow2Byte(23);
    Pow2Byte(15);
    Pow2Byte(7);
    Pow2Of7();
    AndMask(cf8, 31);
    LowIsMod(cf8, 31);
    var low := cf8 % 0x8000_0000;
    Masks(low);
    Shifts(low);
    assert cf8 == 0x8000_0000 * (cf8 / 0x8000_0000) + low;
    LowParts(cf8 / 0x8000_0000, low);
  }

  lemma LowParts(high: nat, low: nat)
    requires low < 0x8000_0000
    ensures (0x8000_0000 * high + low) / 256 % 0x80_0000 == low / 256
    ensures (0x8000_0000 * high + low) % 256 == low % 256
  {
    assert 0x8000_0000 * high + low == 256 * (0x80_0000 * high + low / 256) + low % 256;
    DivModUnique(0x8000_0000 * high + low, 256, 0x80_0000 * high + low / 256, low % 256);
    DivModUnique(0x80_0000 * high + low / 256, 0x80_0000, high, low / 256);
  }

  lemma Pow2Of7()
    ensures Pow2(7) == 128
  {
  }

  /** The data port's registers carry aligned accesses of up to four bytes. */
  lemma PortAccess(data: nat, off: nat, n: nat)
    requires (n == 1 || n == 2 || n == 4) && Aligned(off, n) && off + n <= 4
    ensures Access(Ports(data), 4 + off, n)
    ensures forall o :: 4 <= o < 8 ==> o in OffsetMap(Ports(data)) && OffsetMap(Ports(data))[o] == 1
  {
    var ps := Ports(data);
    forall o | 4 <= o < 8 ensures o in OffsetMap(ps) && OffsetMap(ps)[o] == 1 {
      CoveredIsMapped(ps, o, 1);
      OnlyCover(ps, o, 1);
    }
  }

  /** A part of the data port is that part of what is behind it. */
  lemma PortReadLanes(data: nat, cf8: nat, off: nat, n: nat)
    requires (n == 1 || n == 2 || n == 4) && Aligned(off, n) && off + n <= 4
    ensures PortRead(data, cf8, PORT_BASE + 4 + off, 8 * n) == Returns(FromLe(Lanes(data, off, n)))
  {
    hide OffsetMap;
    hide ReadLoop;
    hide FromLe;
    hide ByteOf;
    hide Access;
    PortAccess(data, off, n);
    ReadIsBytes(Ports(data), [cf8, 0], 4 + off, n);
    var f := FlatBytes(Ports(data), [cf8, 0], 4 + off, n);
    forall i | 0 <= i < n ensures f[i] == ByteOf(data, off + i) {
      assert f[i] == RegByte(Ports(data), [cf8, 0], 4 + off + i);
    }
    assert f == Lanes(data, off, n);
  }

  lemma SubAccess(regs: seq<Register>, reg: int, off: nat, n: nat)
    requires Access(regs, reg, 4) && (n == 1 || n == 2 || n == 4) && Aligned(off, n) && off + n <= 4
    ensures Access(regs, reg + off, n)
    ensures forall o :: reg <= o < reg + 4 ==> o in OffsetMap(regs)
  {
    hide Layout;
    hide OffsetMap;
    AlignedSum(reg, off, n);
  }

  lemma AlignedSum(reg: int, off: nat, n: nat)
    requires Aligned(reg, 4) && (n == 1 || n == 2 || n == 4) && Aligned(off, n)
    ensures Aligned(reg + off, n)
  {
    if n == 2 { EvenSum(reg, off); }
    if n == 4 { assert (reg + off) % 4 == 0; }
  }

  lemma EvenSum(reg: int, off: int)
    requires reg % 4 == 0 && off % 2 == 0
    ensures (reg + off) % 2 == 0
  {
    assert reg == 2 * (2 * (reg / 4)) && off == 2 * (off / 2);
  }

  /** Reading a quarter, a half or all of a populated register through the ports
      is reading it directly. */
  lemma PortIsDirect(regs: seq<Register>, values: seq<nat>, cf8: nat, reg: int, off: nat, n: nat)
    requires |values| == |regs| && Access(regs, reg, 4)
    requires (n == 1 || n == 2 || n == 4) && Aligned(off, n) && off + n <= 4
    ensures MapOk(regs, OffsetMap(regs))
    ensures var data := ReadLoop(regs, OffsetMap(regs), values, reg, 0, 32, 0);
      && data.Returns?
      && PortRead(data.result, cf8, PORT_BASE + 4 + off, 8 * n)
             == ReadLoop(regs, OffsetMap(regs), values, reg + off, 0, 8 * n, 0)
  {
    hide OffsetMap;
    hide ReadLoop;
    hide FromLe;
    hide PortRead;
    hide Access;
    SubAccess(regs, reg, off, n);
    ReadIsBytes(regs, values, reg, 4);
    ReadIsBytes(regs, values, reg + off, n);
    var all, part := FlatBytes(regs, values, reg, 4), FlatBytes(regs, values, reg + off, n);
    PortReadLanes(FromLe(all), cf8, off, n);
    forall i | 0 <= i < n ensures ByteOf(FromLe(all), off + i) == part[i] {
      LanesOfFromLe(all, off + i);
      assert reg + (off + i) == (reg + off) + i;
    }
    assert Lanes(FromLe(all), off, n) == part;
  }

  lemma OnesLanes(off: nat, n: nat)
    requires (n == 1 || n == 2 || n == 4) && off + n <= 4
    ensures FromLe(Lanes(ALL_ONES_32, off, n)) == Ones(8 * n)
  {
    hide ByteOf;
    hide Pow2;
    hide FromLe;
    Pow2Of32();
    var s := Lanes(ALL_ONES_32, off, n);
    forall i | 0 <= i < n ensures s[i] == 255 { AllOnesByte(4, off + i); }
    FullBytes(s);
  }

  lemma {:induction false} FullBytes(s: seq<byte>)
    requires forall i :: 0 <= i < |s| ==> s[i] == 255
    ensures FromLe(s) == Ones(8 * |s|)
  {
    if s != [] {
      FullBytes(s[1..]);
      Pow2Byte(8 * (|s| - 1));
    }
  }

  /** For a function below 65536 and a populated, aligned configuration register,
      8, 16 and 32-bit reads through the ports and through the window agree; both
      give all ones for a function that is not there. */
  lemma PortsAgreeWithWindow(pci: PciSubsystem, cf8: nat, off: nat, n: nat)
    requires pci.Valid()
    requires (n == 1 || n == 2 || n == 4) && Aligned(off, n) && off + n <= 4
    requires var bdf, reg := SelectedBdf(cf8), SelectedReg(cf8);
      bdf <= 0xFFFF && (bdf in pci.configs ==> Access(pci.configs[bdf].regs, reg, 4))
    ensures DataPortResult(pci, cf8, PORT_BASE + 4 + off, 8 * n)
         == WindowResult(pci, WINDOW_BASE + Shl(SelectedBdf(cf8), 12) + SelectedReg(cf8) + off, 8 * n)
  {
    hide And;
    hide Shr;
    hide Shl;
    hide OffsetMap;
    hide ReadLoop;
    hide FromLe;
    hide PortRead;
    hide SplitAddr;
    hide Access;
    var bdf, reg := SelectedBdf(cf8), SelectedReg(cf8);
    Masks(And(cf8, 0x7FFF_FFFF));
    WindowAddress(bdf, reg + off);
    if bdf in pci.configs {
      PortIsDirect(pci.configs[bdf].regs, pci.configs[bdf].values, cf8, reg, off, n);
    } else {
      PortReadLanes(ALL_ONES_32, cf8, off, n);
      OnesLanes(off, n);
    }
  }

  // ---- Writes through ports and window ----------------------------------------------

  /** The bytes that go to the selected register: the new ones at their place,
      the ones read before around them. */
  lemma MergedAtPortLanes(data: nat, off: nat, v: nat, n: nat, i: nat)
    requires IsSize(n) && off + n <= 4 && i < 4
    ensures ByteOf(MergedAtPort(data, off, v, n), i)
         == if off <= i < off + n then ByteOf(v, i - off) else ByteOf(data, i)
  {
    hide Merge;
    hide And;
    hide Bits0;
    hide ByteOf;
    MergedLanes(Ports(data)[1], 0, off, And(v, Bits0(8 * n - 1)), n, i);
    if off <= i < off + n {
      ShrNothing(v);
      TakenLanes(v, 0, n, i - off);
    }
  }

  /** The two devices show the same bytes. */
  ghost predicate SameBytes(regs: seq<Register>, a: DevState, b: DevState) {
    && |a.values| == |b.values| == |regs| && a.bases == b.bases
    && forall o :: o in OffsetMap(regs) ==> RegByte(regs, a.values, o) == RegByte(regs, b.values, o)
  }

  /** Writing part of a populated plain register through the port, which writes
      the rest of it back, leaves the device as writing that part alone. They
      differ only in when they raise: through the port when no byte of the whole
      register can be written, directly when none of the part can. */
  lemma PortWriteIsDirect(regs: seq<Register>, bars: seq<Bar>, st: DevState, data: nat, reg: int, off: nat, v: nat,
                          n: nat)
    requires |st.values| == |regs| && |st.bases| == |bars| && Access(regs, reg, 4) && PlainAccess(regs, reg, 4)
    requires (n == 1 || n == 2 || n == 4) && Aligned(off, n) && off + n <= 4
    requires n < 4 ==> data == FromLe(FlatBytes(regs, st.values, reg, 4))
    ensures MapOk(regs, OffsetMap(regs))
    ensures var m := MergedAtPort(data, off, v, n);
      var port, direct := WriteLoop(regs, bars, OffsetMap(regs), st, reg, 0, 32, m, false),
                          WriteLoop(regs, bars, OffsetMap(regs), st, reg + off, 0, 8 * n, v, false);
      && SameBytes(regs, port.0, direct.0)
      && port.1 == !SomeWritable(regs, reg, reg + 4)
      && direct.1 == !SomeWritable(regs, reg + off, reg + off + n)
  {
    hide OffsetMap;
    hide WriteLoop;
    hide MergedAtPort;
    hide SomeWritable;
    hide Access;
    hide RegByte;
    hide FromLe;
    hide ByteOf;
    SubAccess(regs, reg, off, n);
    var m := MergedAtPort(data, off, v, n);
    WriteIsBytes(regs, bars, st, reg, 4, m);
    WriteIsBytes(regs, bars, st, reg + off, n, v);
    var port, direct := WriteLoop(regs, bars, OffsetMap(regs), st, reg, 0, 32, m, false),
                        WriteLoop(regs, bars, OffsetMap(regs), st, reg + off, 0, 8 * n, v, false);
    forall o | o in OffsetMap(regs) ensures RegByte(regs, port.0.values, o) == RegByte(regs, direct.0.values, o) {
      if reg <= o < reg + 4 {
        MergedAtPortLanes(data, off, v, n, o - reg);
        if n < 4 { LanesOfFromLe(FlatBytes(regs, st.values, reg, 4), o - reg); }
      }
    }
  }

  // ---- Base address registers --------------------------------------------------------

  lemma {:induction false} LowOfShifted(y: nat, n: nat)
    requires n >= 4
    ensures Low(16 * y, n) == 16 * Low(y, n - 4)
  {
    hide Low;
    LowFour(16 * y, n - 4);
  }

  /** The address part of a 32-bit value. */
  lemma AddressPart(v: nat)
    requires v < 0x1_0000_0000
    ensures And(v, 0xFFFF_FFF0) == v - v % 16
  {
    var m := 0x0FFF_FFFF;
    AndSixteen(v, m);
    assert m == Pow2(28) - 1 by { Pow2Byte(20); Pow2Byte(12); Pow2Byte(4); }
    AndMask(v / 16, 28);
    LowIsMod(v / 16, 28);
    ModSmall(v / 16, Pow2(28));
  }

  lemma AndSixteen(v: nat, m: nat)
    ensures And(v, 16 * m) == 16 * And(v / 16, m)
  {
    hide And;
    assert 4 * (4 * m) == 16 * m && v / 4 / 4 == v / 16;
    AndFour(v, 4 * m);
    AndFour(v / 4, m);
  }

  lemma AndFour(v: nat, m: nat)
    ensures And(v, 4 * m) == 4 * And(v / 4, m)
  {
    hide And;
    assert 2 * (2 * m) == 4 * m && v / 2 / 2 == v / 4;
    AndTwo(v, 2 * m);
    AndTwo(v / 2, m);
  }

  lemma AndTwo(v: nat, m: nat)
    ensures And(v, 2 * m) == 2 * And(v / 2, m)
  {
    if v == 0 {
      assert And(v / 2, m) == 0;
    } else if m > 0 {
      assert (2 * m) / 2 == m && (2 * m) % 2 == 0;
    }
  }

  lemma AddressRounded(v: nat, k: nat)
    requires v < 0x1_0000_0000 && k >= 4
    ensures AndNot(And(v, 0xFFFF_FFF0), Pow2(k) - 1) == v - Low(v, k)
  {
    hide And;
    hide AndNot;
    hide Low;
    hide Pow2;
    hide Shl;
    hide Shr;
    AddressPart(v);
    var y := v / 16;
    AndNotMask(16 * y, k);
    LowOfShifted(y, k);
    LowFour(v, k - 4);
  }

  /** The largest multiple of `len` up to `v`. */
  function RoundDown(v: nat, len: nat): nat
    requires len > 0
  {
    v - v % len
  }

  /** The value a memory BAR of length 2^k takes is the written value rounded
      down to a multiple of its length, and its handler moves there. */
  lemma BarIsRounded(v: nat, k: nat)
    requires v < 0x1_0000_0000 && k >= 4
    ensures BarValue(M32Bar(Pow2(k)), v) == (RoundDown(v, Pow2(k)), RoundDown(v, Pow2(k)))
  {
    hide And;
    hide AndNot;
    hide Low;
    hide Pow2;
    AddressRounded(v, k);
    LowIsMod(v, k);
  }

  lemma IoAddress(v: nat)
    requires v < 0x1_0000_0000
    ensures And(v, 0xFFFF_FFFC) == v - v % 4
  {
    hide And;
    hide Pow2;
    AndFour(v, 0x3FFF_FFFF);
    assert 0x3FFF_FFFF == Pow2(30) - 1 by { PowerOf30(); }
    AndMask(v / 4, 30);
    LowIsMod(v / 4, 30);
    PowerOf30();
    ModSmall(v / 4, Pow2(30));
  }

  lemma PowerOf30()
    ensures Pow2(30) == 0x4000_0000
  {
    Pow2Byte(22);
    Pow2Byte(14);
    Pow2Byte(6);
    assert Pow2(6) == 64;
  }

  /** An I/O BAR takes a multiple of 4 as base, and shows it with bit 0 set; a
      memory BAR of no length is always 0. */
  lemma OtherBars(v: nat)
    requires v < 0x1_0000_0000
    ensures BarValue(IoBar, v) == (v - v % 4 + 1, v - v % 4)
    ensures BarValue(M32Bar(0), v) == (0, 0)
  {
    hide And;
    hide Or;
    IoAddress(v);
    var q := v / 4;
    assert v - v % 4 == 4 * q;
    assert Shl(q, 2) == 4 * q by { ShlStep(q, 1); ShlStep(q, 0); }
    OrSymmetric(4 * q, 1);
    assert Pow2(2) == 4;
    OrDisjoint(1, q, 2);
  }

  /** Register `j` is the BAR `barNo`, at an address that is a multiple of 4. */
  ghost predicate BarRegister(regs: seq<Register>, j: nat, barNo: nat) {
    && Layout(regs) && j < |regs| && regs[j].width == 32 && !regs[j].ro && regs[j].getter.None?
    && regs[j].setter == SetBar(barNo)
  }

  /** The four bytes of `was` with `n` bytes of `v` put in at `off`. */
  function Patched(was: nat, off: nat, v: nat, n: nat): (s: seq<byte>)
    requires off + n <= 4
    ensures |s| == 4
  {
    Lanes(was, 0, off) + Lanes(v, 0, n) + Lanes(was, off + n, 4 - off - n)
  }

  lemma {:induction false} ShrBound(v: nat, w: nat, t: nat)
    requires v < Pow2(w + t)
    ensures Shr(v, w) < Pow2(t)
  {
    if w > 0 { ShrBound(v / 2, w - 1, t); }
  }

  lemma {:induction false} StackBound(x: nat, f: nat, w: nat, t: nat)
    requires x < Pow2(t) && f < Pow2(w)
    ensures Shl(x, w) + f < Pow2(w + t)
  {
    if w > 0 { StackBound(x, f / 2, w - 1, t); }
  }

  lemma {:induction false} ReplacedBound(v: nat, f: nat, w: nat, s: nat, t: nat)
    requires v < Pow2(s + w + t) && f < Pow2(w)
    ensures Replaced(v, f, w, s) < Pow2(s + w + t)
  {
    if s == 0 {
      ShrBound(v, w, t);
      StackBound(Shr(v, w), f, w, t);
    } else {
      ReplacedBound(v / 2, f, w, s - 1, t);
    }
  }

  /** The merged value of a 32-bit register is the number with those bytes. */
  lemma MergedNumber(r: Register, value: nat, off: nat, v: nat, n: nat)
    requires Natural(r) && r.width == 32 && r.getter.None? && IsSize(n) && off + n <= 4
    ensures Merge(r, value, off, v, 8 * n) == FromLe(Patched(value, off, v, n))
    ensures Merge(r, value, off, v, 8 * n) < Pow2(32)
  {
    hide Merge;
    hide Replaced;
    hide Low;
    hide ByteOf;
    hide Pow2;
    hide FromLe;
    MergeIsReplaced(r, value, off, v, n);
    if n < 4 { ReplacedBound(Low(value, 32), Low(v, 8 * n), 8 * n, 8 * off, 32 - 8 * n - 8 * off); }
    var m := Merge(r, value, off, v, 8 * n);
    forall i | 0 <= i < 4 ensures ByteOf(m, i) == Patched(value, off, v, n)[i] {
      MergedLanes(r, value, off, v, n, i);
    }
    assert Lanes(m, 0, 4) == Patched(value, off, v, n);
    LowLanes(m, 4);
    LowOfSmall(m, 32);
  }

  lemma LowOfSmall(v: nat, n: nat)
    requires v < Pow2(n)
    ensures Low(v, n) == v
  {
    LowIsMod(v, n);
    ModSmall(v, Pow2(n));
  }

  lemma PatchedFromMask(value: nat, off: nat, v: nat, n: nat)
    requires 0 < n && off + n <= 4
    ensures Patched(value, off, And(v, Bits0(8 * n - 1)), n) == Patched(value, off, v, n)
  {
    hide And;
    hide Bits0;
    hide ByteOf;
    var f := And(v, Bits0(8 * n - 1));
    forall i | 0 <= i < n ensures ByteOf(f, i) == ByteOf(v, i) {
      ShrNothing(v);
      TakenLanes(v, 0, n, i);
    }
    assert Lanes(f, 0, n) == Lanes(v, 0, n);
  }

  /** An aligned access inside one 32-bit register is one turn. */
  lemma OneTurn(regs: seq<Register>, bars: seq<Bar>, st: DevState, j: nat, barNo: nat, off: nat, n: nat, v: nat)
    requires BarRegister(regs, j, barNo) && |st.values| == |regs| && |st.bases| == |bars|
    requires IsSize(n) && off + n <= 4
    ensures MapOk(regs, OffsetMap(regs))
    ensures WriteLoop(regs, bars, OffsetMap(regs), st, regs[j].offset + off, 0, 8 * n, v, false)
         == (SetRegister(regs, bars, st, j, Merge(regs[j], st.values[j], off, And(v, Bits0(8 * n - 1)), 8 * n)), false)
  {
    hide Merge;
    hide And;
    hide Shr;
    hide Bits0;
    hide SetRegister;
    hide OffsetMap;
    forall o | o in OffsetMap(regs) ensures OffsetMap(regs)[o] < |regs| && regs[OffsetMap(regs)[o]].Covers(o) {
      OffsetMapCovers(regs, o);
    }
    CoveredIsMapped(regs, regs[j].offset + off, j);
    OnlyCover(regs, regs[j].offset + off, j);
    assert Chunk(8 * n, 32 - off * 8) == 8 * n;
  }

  /** Any aligned write to a present memory BAR, whole or partial: the bytes are
      merged, the result rounded down to a multiple of the BAR's length 2^k, the
      handler moves there, and nothing else changes. */
  lemma BarWrite(regs: seq<Register>, bars: seq<Bar>, st: DevState, j: nat, barNo: nat, k: nat, off: nat, n: nat,
                 v: nat)
    requires BarRegister(regs, j, barNo) && |st.values| == |regs| && |st.bases| == |bars|
    requires barNo < |bars| && k >= 4 && bars[barNo] == M32Bar(Pow2(k))
    requires IsSize(n) && off + n <= 4
    ensures MapOk(regs, OffsetMap(regs))
    ensures var m := FromLe(Patched(st.values[j], off, v, n));
      WriteLoop(regs, bars, OffsetMap(regs), st, regs[j].offset + off, 0, 8 * n, v, false)
        == (DevState(st.values[j := RoundDown(m, Pow2(k))], st.bases[barNo := RoundDown(m, Pow2(k))]), false)
  {
    hide Merge;
    hide And;
    hide Bits0;
    hide BarValue;
    hide WriteLoop;
    hide Patched;
    hide FromLe;
    hide OffsetMap;
    hide Pow2;
    var f := And(v, Bits0(8 * n - 1));
    OneTurn(regs, bars, st, j, barNo, off, n, v);
    MergedNumber(regs[j], st.values[j], off, f, n);
    PatchedFromMask(st.values[j], off, v, n);
    Pow2Of32();
    BarIsRounded(FromLe(Patched(st.values[j], off, v, n)), k);
  }

  lemma LowNothing(v: nat)
    ensures Low(v, 0) == 0
  {
  }

  lemma LowStep(v: nat, k: nat)
    requires k > 0
    ensures Low(v, k) == 2 * Low(v / 2, k - 1) + v % 2
  {
  }

  lemma {:induction false} LowOnes(n: nat, k: nat)
    requires k <= n
    ensures Low(Pow2(n) - 1, k) == Pow2(k) - 1
  {
    hide Low;
    if k > 0 {
      LowOnes(n - 1, k - 1);
      LowStep(Pow2(n) - 1, k);
      assert Pow2(n) == 2 * Pow2(n - 1) && Pow2(k) == 2 * Pow2(k - 1);
    } else {
      assert Low(Pow2(n) - 1, 0) == 0 by { LowNothing(Pow2(n) - 1); }
    }
  }

  lemma AllOnesPatch(value: nat)
    ensures FromLe(Patched(value, 0, ALL_ONES_32, 4)) == ALL_ONES_32
  {
    hide FromLe;
    assert Patched(value, 0, ALL_ONES_32, 4) == Lanes(ALL_ONES_32, 0, 4);
    OnesLanes(0, 4);
    OnesByWidth();
  }

  /** Sizing a BAR: after all ones were written, a 32-bit read returns 2^32
      minus the BAR's length. */
  lemma BarSizing(regs: seq<Register>, bars: seq<Bar>, st: DevState, j: nat, barNo: nat, k: nat)
    requires BarRegister(regs, j, barNo) && |st.values| == |regs| && |st.bases| == |bars|
    requires barNo < |bars| && 4 <= k <= 32 && bars[barNo] == M32Bar(Pow2(k))
    ensures MapOk(regs, OffsetMap(regs))
    ensures var st' := WriteLoop(regs, bars, OffsetMap(regs), st, regs[j].offset, 0, 32, ALL_ONES_32, false).0;
      var r := ReadLoop(regs, OffsetMap(regs), st'.values, regs[j].offset, 0, 32, 0);
      r.Returns? && r.result + Pow2(k) == 0x1_0000_0000
  {
    hide WriteLoop;
    hide ReadLoop;
    hide Patched;
    hide FromLe;
    hide Pow2;
    hide Low;
    BarWrite(regs, bars, st, j, barNo, k, 0, 4, ALL_ONES_32);
    AllOnesPatch(st.values[j]);
    Pow2Of32();
    LowIsMod(ALL_ONES_32, k);
    LowOnes(32, k);
    var size := Pow2(32) - Pow2(k);
    ReadRegister(regs, st.values[j := size], j, barNo);
  }

  lemma ReadRegister(regs: seq<Register>, values: seq<nat>, j: nat, barNo: nat)
    requires BarRegister(regs, j, barNo) && |values| == |regs| && values[j] < Pow2(32)
    ensures MapOk(regs, OffsetMap(regs))
    ensures ReadLoop(regs, OffsetMap(regs), values, regs[j].offset, 0, 32, 0) == Returns(values[j])
  {
    hide ReadLoop;
    hide FromLe;
    hide Pow2;
    hide Low;
    hide ByteOf;
    hide OffsetMap;
    var s := regs[j].offset;
    forall o | s <= o < s + 4 ensures o in OffsetMap(regs) && OffsetMap(regs)[o] == j {
      CoveredIsMapped(regs, o, j);
      OnlyCover(regs, o, j);
    }
    ReadIsBytes(regs, values, s, 4);
    assert FlatBytes(regs, values, s, 4) == Lanes(values[j], 0, 4);
    LowLanes(values[j], 4);
    LowOfSmall(values[j], 32);
  }

  /** No access of any size or alignment changes an absent BAR, so it goes on
      reading as it started: zero. */
  lemma {:induction false} AbsentBarStays(regs: seq<Register>, bars: seq<Bar>, m: map<int, nat>, st: DevState, cur: int,
                                          bitCount: nat, width: nat, vv: nat, ok: bool, j: nat)
    requires MapOk(regs, m) && |st.values| == |regs| && |st.bases| == |bars|
    requires j < |regs| && regs[j].setter.SetBar?
    requires regs[j].setter.barNo >= |bars| || bars[regs[j].setter.barNo].NoBar?
    ensures var r := WriteLoop(regs, bars, m, st, cur, bitCount, width, vv, ok).0;
      |r.values| == |regs| && r.values[j] == st.values[j]
    decreases width - bitCount
  {
    hide Merge;
    hide And;
    hide Shr;
    hide Bits0;
    hide BarValue;
    if bitCount < width && cur in m {
      var r := regs[m[cur]];
      var rel := cur - r.offset;
      var rw := if r.width - rel * 8 > 0 then Chunk(width, r.width - rel * 8) else 0;
      if rw >= 8 {
        var st' := if r.ro then st
          else SetRegister(regs, bars, st, m[cur], Merge(r, st.values[m[cur]], rel, And(vv, Bits0(rw - 1)), rw));
        AbsentBarStays(regs, bars, m, st', cur + rw / 8, bitCount + rw, width, Shr(vv, rw), ok || !r.ro, j);
      }
    }
  }

  /** A memory BAR's value is a multiple of its length, and its handler is there
      once the BAR has been written. */
  ghost predicate BarInPlace(st: DevState, j: nat, barNo: nat, k: nat)
    requires j < |st.values| && barNo < |st.bases|
  {
    && st.values[j] % Pow2(k) == 0
    && (st.bases[barNo] == st.values[j] || (st.bases[barNo] == 0xFFFF_FFFF && st.values[j] == 0))
  }

  lemma RoundedIsMultiple(x: nat, k: nat)
    ensures AndNot(x, Pow2(k) - 1) % Pow2(k) == 0
  {
    hide AndNot;
    hide Low;
    hide Pow2;
    AndNotMask(x, k);
    LowIsMod(x, k);
    var L := Pow2(k);
    var q := x / L;
    assert x - x % L == q * L;
    DivModUnique(q * L, L, q, 0);
  }

  /** Every access of any size and alignment keeps a memory BAR in place. */
  lemma {:induction false} BarStaysInPlace(regs: seq<Register>, bars: seq<Bar>, m: map<int, nat>, st: DevState,
                                           cur: int,
                                           bitCount: nat, width: nat, vv: nat, ok: bool,
                                           j: nat, barNo: nat, k: nat)
    requires MapOk(regs, m) && |st.values| == |regs| && |st.bases| == |bars|
    requires j < |regs| && barNo < |bars| && regs[j].setter == SetBar(barNo) && bars[barNo] == M32Bar(Pow2(k))
    requires forall i :: 0 <= i < |regs| && i != j ==> regs[i].setter != SetBar(barNo)
    requires BarInPlace(st, j, barNo, k)
    ensures var r := WriteLoop(regs, bars, m, st, cur, bitCount, width, vv, ok).0;
      |r.values| == |regs| && |r.bases| == |bars| && BarInPlace(r, j, barNo, k)
    decreases width - bitCount
  {
    hide Merge;
    hide And;
    hide AndNot;
    hide Shr;
    hide Bits0;
    hide Pow2;
    if bitCount < width && cur in m {
      var r := regs[m[cur]];
      var rel := cur - r.offset;
      var rw := if r.width - rel * 8 > 0 then Chunk(width, r.width - rel * 8) else 0;
      if rw >= 8 {
        var merged := if r.ro then 0 else Merge(r, st.values[m[cur]], rel, And(vv, Bits0(rw - 1)), rw);
        var st' := if r.ro then st else SetRegister(regs, bars, st, m[cur], merged);
        RoundedIsMultiple(And(merged, 0xFFFF_FFF0), k);
        BarStaysInPlace(regs, bars, m, st', cur + rw / 8, bitCount + rw, width, Shr(vv, rw), ok || !r.ro, j, barNo, k);
      }
    }
  }

  // ---- Writes through ports and window, base address registers included ------------------

  lemma SomethingWritable(regs: seq<Register>, j: nat, barNo: nat, off: nat, n: nat)
    requires BarRegister(regs, j, barNo) && 0 < n && off + n <= 4
    ensures SomeWritable(regs, regs[j].offset + off, regs[j].offset + off + n)
  {
    var o := regs[j].offset + off;
    CoveredIsMapped(regs, o, j);
    OnlyCover(regs, o, j);
    hide OffsetMap;
    assert regs[j].offset + off <= o < regs[j].offset + off + n && !regs[At(regs, o)].ro;
  }

  /** The four bytes the port writes back are those of a write of the part alone. */
  lemma PatchedTwice(value: nat, data: nat, off: nat, v: nat, n: nat)
    requires IsSize(n) && off + n <= 4
    requires n < 4 ==> forall i :: 0 <= i < 4 ==> ByteOf(data, i) == ByteOf(value, i)
    ensures Patched(value, 0, MergedAtPort(data, off, v, n), 4) == Patched(value, off, v, n)
  {
    hide ByteOf;
    hide MergedAtPort;
    var m := MergedAtPort(data, off, v, n);
    forall i | 0 <= i < 4 ensures Patched(value, 0, m, 4)[i] == Patched(value, off, v, n)[i] {
      MergedAtPortLanes(data, off, v, n, i);
    }
  }

  /** Writing a base address register of any kind, present or not, whole or in
      part, through the port is writing it directly. */
  lemma PortBarWrite(regs: seq<Register>, bars: seq<Bar>, st: DevState, j: nat, barNo: nat, data: nat, off: nat,
                     v: nat, n: nat)
    requires BarRegister(regs, j, barNo) && |st.values| == |regs| && |st.bases| == |bars|
    requires IsSize(n) && off + n <= 4
    requires n < 4 ==> forall i :: 0 <= i < 4 ==> ByteOf(data, i) == ByteOf(st.values[j], i)
    ensures MapOk(regs, OffsetMap(regs))
    ensures WriteLoop(regs, bars, OffsetMap(regs), st, regs[j].offset, 0, 32, MergedAtPort(data, off, v, n), false)
         == WriteLoop(regs, bars, OffsetMap(regs), st, regs[j].offset + off, 0, 8 * n, v, false)
  {
    hide WriteLoop;
    hide SetRegister;
    hide OffsetMap;
    hide Merge;
    hide And;
    hide Bits0;
    hide Patched;
    hide MergedAtPort;
    hide FromLe;
    hide ByteOf;
    var r, m, f := regs[j], MergedAtPort(data, off, v, n), And(v, Bits0(8 * n - 1));
    var g := And(m, Bits0(8 * 4 - 1));
    OneTurn(regs, bars, st, j, barNo, 0, 4, m);
    OneTurn(regs, bars, st, j, barNo, off, n, v);
    MergedNumber(r, st.values[j], 0, g, 4);
    MergedNumber(r, st.values[j], off, f, n);
    PatchedFromMask(st.values[j], 0, m, 4);
    PatchedFromMask(st.values[j], off, v, n);
    PatchedTwice(st.values[j], data, off, v, n);
  }

  /** Reading a base address register gives the bytes of its value. */
  lemma BarBytes(regs: seq<Register>, values: seq<nat>, j: nat, barNo: nat, i: nat)
    requires BarRegister(regs, j, barNo) && |values| == |regs| && i < 4
    ensures forall o :: regs[j].offset <= o < regs[j].offset + 4 ==> o in OffsetMap(regs)
    ensures ByteOf(FromLe(FlatBytes(regs, values, regs[j].offset, 4)), i) == ByteOf(values[j], i)
  {
    hide FromLe;
    hide ByteOf;
    hide OffsetMap;
    var s := regs[j].offset;
    forall o | s <= o < s + 4 ensures o in OffsetMap(regs) && OffsetMap(regs)[o] == j {
      CoveredIsMapped(regs, o, j);
      OnlyCover(regs, o, j);
    }
    LanesOfFromLe(FlatBytes(regs, values, s, 4), i);
  }

  /** The register at `reg` is a base address register. */
  ghost predicate BarAt(regs: seq<Register>, reg: int) {
    exists j: nat, barNo: nat :: BarRegister(regs, j, barNo) && regs[j].offset == reg
  }

  /** Both kinds together: part of a populated register that stores what is
      written, or is a base address register, written through the port or directly
      leaves the same bytes. */
  lemma PortWriteSame(regs: seq<Register>, bars: seq<Bar>, st: DevState, data: nat, reg: int, off: nat, v: nat, n: nat)
    requires |st.values| == |regs| && |st.bases| == |bars| && Access(regs, reg, 4)
    requires PlainAccess(regs, reg, 4) || BarAt(regs, reg)
    requires (n == 1 || n == 2 || n == 4) && Aligned(off, n) && off + n <= 4
    requires n < 4 ==> data == FromLe(FlatBytes(regs, st.values, reg, 4))
    ensures MapOk(regs, OffsetMap(regs))
    ensures var m := MergedAtPort(data, off, v, n);
      var port, direct := WriteLoop(regs, bars, OffsetMap(regs), st, reg, 0, 32, m, false),
                          WriteLoop(regs, bars, OffsetMap(regs), st, reg + off, 0, 8 * n, v, false);
      && SameBytes(regs, port.0, direct.0)
      && port.1 == !SomeWritable(regs, reg, reg + 4)
      && direct.1 == !SomeWritable(regs, reg + off, reg + off + n)
  {
    hide OffsetMap;
    hide WriteLoop;
    hide MergedAtPort;
    hide SomeWritable;
    hide FlatBytes;
    hide FromLe;
    hide ByteOf;
    hide Layout;
    if PlainAccess(regs, reg, 4) {
      PortWriteIsDirect(regs, bars, st, data, reg, off, v, n);
    } else {
      var j: nat, barNo: nat :| BarRegister(regs, j, barNo) && regs[j].offset == reg;
      forall i | 0 <= i < 4 && n < 4 ensures ByteOf(data, i) == ByteOf(st.values[j], i) {
        BarBytes(regs, st.values, j, barNo, i);
      }
      PortBarWrite(regs, bars, st, j, barNo, data, off, v, n);
      SomethingWritable(regs, j, barNo, 0, 4);
      SomethingWritable(regs, j, barNo, off, n);
      BarTurn(regs, bars, st, j, barNo, off, v, n);
    }
  }

  lemma BarTurn(regs: seq<Register>, bars: seq<Bar>, st: DevState, j: nat, barNo: nat, off: nat, v: nat, n: nat)
    requires BarRegister(regs, j, barNo) && |st.values| == |regs| && |st.bases| == |bars|
    requires IsSize(n) && off + n <= 4
    ensures MapOk(regs, OffsetMap(regs))
    ensures var r := WriteLoop(regs, bars, OffsetMap(regs), st, regs[j].offset + off, 0, 8 * n, v, false);
      |r.0.values| == |regs| && !r.1
  {
    hide WriteLoop;
    hide Merge;
    hide OffsetMap;
    hide BarValue;
    OneTurn(regs, bars, st, j, barNo, off, n, v);
  }

  /** 8, 16 and 32-bit writes through the ports and through the window leave the
      function's registers with the same bytes. */
  lemma PortWritesAsWindow(pci: PciSubsystem, cf8: nat, off: nat, v: nat, n: nat)
    requires pci.Valid() && SelectedBdf(cf8) in pci.configs && SelectedBdf(cf8) <= 0xFFFF
    requires (n == 1 || n == 2 || n == 4) && Aligned(off, n) && off + n <= 4
    requires var dev, reg := pci.configs[SelectedBdf(cf8)], SelectedReg(cf8);
      Access(dev.regs, reg, 4) && (PlainAccess(dev.regs, reg, 4) || BarAt(dev.regs, reg))
    ensures SplitAddr(WINDOW_BASE + Shl(SelectedBdf(cf8), 12) + SelectedReg(cf8) + off)
           == (SelectedBdf(cf8), SelectedReg(cf8) + off)
    ensures var dev, reg := pci.configs[SelectedBdf(cf8)], SelectedReg(cf8);
      var port, window := PortWritten(pci, cf8, off, v, n), pci.ConfigWritten(SelectedBdf(cf8), reg + off, v, 8 * n);
      && SameBytes(dev.regs, port.0, window.0)
      && port.1 == !SomeWritable(dev.regs, reg, reg + 4)
      && window.1 == !SomeWritable(dev.regs, reg + off, reg + off + n)
  {
    hide And;
    hide Shr;
    hide Shl;
    hide OffsetMap;
    hide ReadLoop;
    hide WriteLoop;
    hide FromLe;
    hide MergedAtPort;
    hide SomeWritable;
    hide SameBytes;
    hide Access;
    hide PlainAccess;
    hide BarAt;
    hide SplitAddr;
    var bdf, reg := SelectedBdf(cf8), SelectedReg(cf8);
    var dev := pci.configs[bdf];
    Masks(And(cf8, 0x7FFF_FFFF));
    WindowAddress(bdf, reg + off);
    SubAccess(dev.regs, reg, off, n);
    ReadIsBytes(dev.regs, dev.values, reg, 4);
    var data := if n < 4 then FromLe(FlatBytes(dev.regs, dev.values, reg, 4)) else 0;
    PortWriteSame(dev.regs, dev.bars, dev.State(), data, reg, off, v, n);
  }

}

/** The registers of two real devices, the configuration header of a PCI function
    (iodev_pci.py, `PciConfig`) and the virtio-scsi BAR (iodev_virtio.py,
    `VirtioScsiBar0`), as the results about register accesses need them. */
module DeviceLayouts {
  import opened Common
  import opened Bits
  import opened Bytes
  import opened ByteLanes
  import opened Registers
  import opened RegisterProofs
  import opened Pci
  import opened PciProofs

  /** What the registers with getters show at the moment, by offset. */
  type Shown = map<nat, nat>

  function Reg(shown: Shown, offset: nat, width: nat, ro: bool): Register {
    Register(offset, width, ro, if offset in shown then Some(shown[offset]) else None, Store)
  }

  function BarReg(barNo: nat): Register { Register(0x10 + 4 * barNo, 32, false, None, SetBar(barNo)) }

  // ---- PciConfig ------------------------------------------------------------------

  function Ids(shown: Shown): seq<Register> {
    [Reg(shown, 0x00, 16, true), Reg(shown, 0x02, 16, true), Reg(shown, 0x04, 16, false), Reg(shown, 0x06, 16, true)]
  }

  function ClassCodes(shown: Shown): seq<Register> {
    [Reg(shown, 0x08, 8, true), Reg(shown, 0x09, 8, true), Reg(shown, 0x0A, 8, true), Reg(shown, 0x0B, 8, true)]
  }

  function Timers(shown: Shown): seq<Register> {
    [Reg(shown, 0x0C, 8, false), Reg(shown, 0x0D, 8, true), Reg(shown, 0x0E, 8, true), Reg(shown, 0x0F, 8, true)]
  }

  function ConfigBars(): seq<Register> {
    [BarReg(0), BarReg(1), BarReg(2), BarReg(3)] + [BarReg(4), BarReg(5)]
  }

  function Subsystem(shown: Shown): seq<Register> {
    [Reg(shown, 0x28, 32, true), Reg(shown, 0x2C, 16, true), Reg(shown, 0x2E, 16, true), Reg(shown, 0x30, 32, false)]
  }

  function Capabilities(shown: Shown): seq<Register> {
    [Reg(shown, 0x34, 8, true), Reg(shown, 0x35, 8, true), Reg(shown, 0x36, 16, true), Reg(shown, 0x38, 32, true)]
  }

  function Interrupts(shown: Shown): seq<Register> {
    [Reg(shown, 0x3C, 8, false), Reg(shown, 0x3D, 8, true), Reg(shown, 0x3E, 8, true), Reg(shown, 0x3F, 8, true)]
  }

  function ConfigRegisters(shown: Shown): (regs: seq<Register>)
    ensures |regs| == 30
  {
    Ids(shown) + ClassCodes(shown) + Timers(shown) + ConfigBars() + Subsystem(shown) + Capabilities(shown)
        + Interrupts(shown)
  }

  // ---- VirtioScsiBar0 -----------------------------------------------------------------

  function Features(shown: Shown): seq<Register> {
    [Reg(shown, 0x00, 32, false), Reg(shown, 0x04, 32, true), Reg(shown, 0x08, 32, false), Reg(shown, 0x0C, 32, false)]
  }

  function DeviceStatus(shown: Shown): seq<Register> {
    [Reg(shown, 0x10, 16, false), Reg(shown, 0x12, 16, true), Reg(shown, 0x14, 8, false), Reg(shown, 0x15, 8, true)]
  }

  function QueueSetup(shown: Shown): seq<Register> {
    [Reg(shown, 0x16, 16, false), Reg(shown, 0x18, 16, false), Reg(shown, 0x1A, 16, false), Reg(shown, 0x1C, 16, false)]
  }

  function QueueAreas(shown: Shown): seq<Register> {
    [Reg(shown, 0x1E, 16, true), Reg(shown, 0x20, 64, false), Reg(shown, 0x28, 64, false), Reg(shown, 0x30, 64, false)]
  }

  function IsrAndLimits(shown: Shown): seq<Register> {
    [Reg(shown, 0x40, 8, true), Reg(shown, 0x44, 32, true), Reg(shown, 0x48, 32, true), Reg(shown, 0x4C, 32, true)]
  }

  function ScsiSizes(shown: Shown): seq<Register> {
    [Reg(shown, 0x50, 32, true), Reg(shown, 0x54, 32, true), Reg(shown, 0x58, 32, false), Reg(shown, 0x5C, 32, false)]
  }

  function ScsiTargets(shown: Shown): seq<Register> {
    [Reg(shown, 0x60, 16, true), Reg(shown, 0x62, 16, true), Reg(shown, 0x64, 32, true), Reg(shown, 0x70, 16, false)]
  }

  function Bar0Registers(shown: Shown): (regs: seq<Register>)
    ensures |regs| == 28
  {
    Features(shown) + DeviceStatus(shown) + QueueSetup(shown) + QueueAreas(shown) + IsrAndLimits(shown)
        + ScsiSizes(shown)
      + ScsiTargets(shown)
  }

  // ---- Registers in ascending order ---------------------------------------------------

  ghost predicate Ordered(regs: seq<Register>) {
    && regs != [] && (forall i :: 0 <= i < |regs| ==> Natural(regs[i]))
    && forall i :: 0 <= i < |regs| - 1 ==> regs[i].End() <= regs[i + 1].offset
  }

  /** ... and without gaps. */
  ghost predicate Gapless(regs: seq<Register>) {
    forall i :: 0 <= i < |regs| - 1 ==> regs[i].End() == regs[i + 1].offset
  }

  /** An ordered row of registers from offset `from` up to `to`. */
  ghost predicate Row(regs: seq<Register>, from: int, to: int, gapless: bool) {
    && Ordered(regs) && regs[0].offset == from && regs[|regs| - 1].End() == to
    && (gapless ==> Gapless(regs))
  }

  lemma RowConcat(a: seq<Register>, b: seq<Register>, from: int, mid: int, next: int, to: int, gapless: bool)
    requires Row(a, from, mid, gapless) && Row(b, next, to, gapless) && mid <= next && (gapless ==> mid == next)
    ensures Row(a + b, from, to, gapless)
  {
  }

  lemma RowOfFour(a: Register, b: Register, c: Register, d: Register, gapless: bool)
    requires Natural(a) && Natural(b) && Natural(c) && Natural(d)
    requires a.End() <= b.offset && b.End() <= c.offset && c.End() <= d.offset
    requires gapless ==> a.End() == b.offset && b.End() == c.offset && c.End() == d.offset
    ensures Row([a, b, c, d], a.offset, d.End(), gapless)
  {
    hide Natural;
  }

  lemma {:induction false} OrderedFar(regs: seq<Register>, i: nat, j: nat)
    requires Ordered(regs) && i < j < |regs|
    ensures regs[i].End() <= regs[j].offset
    decreases j
  {
    if i < j - 1 {
      OrderedFar(regs, i, j - 1);
      assert Natural(regs[j - 1]);
    }
  }

  lemma OrderedIsLayout(regs: seq<Register>)
    requires Ordered(regs)
    ensures Layout(regs)
  {
    forall i, j | 0 <= i < j < |regs| ensures regs[i].End() <= regs[j].offset { OrderedFar(regs, i, j); }
  }

  lemma {:induction false} GaplessCovers(regs: seq<Register>, k: nat, o: int)
    requires Ordered(regs) && Gapless(regs) && k < |regs| && regs[0].offset <= o < regs[k].End()
    ensures o in OffsetMap(regs)
    decreases k
  {
    hide OffsetMap;
    if o >= regs[k].offset {
      CoveredIsMapped(regs, o, k);
    } else {
      assert k > 0;
      GaplessCovers(regs, k - 1, o);
    }
  }

  lemma ConfigParts(shown: Shown)
    ensures Row(Ids(shown), 0, 8, true) && Row(ClassCodes(shown), 8, 12, true) && Row(Timers(shown), 12, 16, true)
    ensures Row(Subsystem(shown), 0x28, 0x34, true) && Row(Capabilities(shown), 0x34, 0x3C, true)
    ensures Row(Interrupts(shown), 0x3C, 0x40, true)
  {
    hide Row;
    RowOfFour(Ids(shown)[0], Ids(shown)[1], Ids(shown)[2], Ids(shown)[3], true);
    RowOfFour(ClassCodes(shown)[0], ClassCodes(shown)[1], ClassCodes(shown)[2], ClassCodes(shown)[3], true);
    RowOfFour(Timers(shown)[0], Timers(shown)[1], Timers(shown)[2], Timers(shown)[3], true);
    RowOfFour(Subsystem(shown)[0], Subsystem(shown)[1], Subsystem(shown)[2], Subsystem(shown)[3], true);
    RowOfFour(Capabilities(shown)[0], Capabilities(shown)[1], Capabilities(shown)[2], Capabilities(shown)[3], true);
    RowOfFour(Interrupts(shown)[0], Interrupts(shown)[1], Interrupts(shown)[2], Interrupts(shown)[3], true);
  }

  lemma ConfigBarRow()
    ensures Row(ConfigBars(), 0x10, 0x28, true)
  {
    RowOfFour(BarReg(0), BarReg(1), BarReg(2), BarReg(3), true);
    assert Row([BarReg(4), BarReg(5)], 0x20, 0x28, true);
    hide Row;
    RowConcat([BarReg(0), BarReg(1), BarReg(2), BarReg(3)], [BarReg(4), BarReg(5)], 0x10, 0x20, 0x20, 0x28, true);
  }

  lemma ConfigRow(shown: Shown)
    ensures Row(ConfigRegisters(shown), 0, 0x40, true)
  {
    hide Row;
    ConfigParts(shown);
    ConfigBarRow();
    RowConcat(Ids(shown), ClassCodes(shown), 0, 8, 8, 12, true);
    var a := Ids(shown) + ClassCodes(shown);
    RowConcat(a, Timers(shown), 0, 12, 12, 16, true);
    RowConcat(a + Timers(shown), ConfigBars(), 0, 16, 16, 0x28, true);
    var b := a + Timers(shown) + ConfigBars();
    RowConcat(b, Subsystem(shown), 0, 0x28, 0x28, 0x34, true);
    RowConcat(b + Subsystem(shown), Capabilities(shown), 0, 0x34, 0x34, 0x3C, true);
    RowConcat(b + Subsystem(shown) + Capabilities(shown), Interrupts(shown), 0, 0x3C, 0x3C, 0x40, true);
  }

  /** The configuration header is naturally aligned, without overlap, and every
      offset up to 0x40 belongs to a register. */
  lemma ConfigLayout(shown: Shown)
    ensures Layout(ConfigRegisters(shown))
    ensures forall o :: 0 <= o < 0x40 ==> o in OffsetMap(ConfigRegisters(shown))
  {
    hide OffsetMap;
    ConfigRow(shown);
    var regs := ConfigRegisters(shown);
    hide ConfigRegisters;
    OrderedIsLayout(regs);
    forall o | 0 <= o < 0x40 ensures o in OffsetMap(regs) { GaplessCovers(regs, |regs| - 1, o); }
  }

  /** The header's registers that a guest can write: command, cache line size, the
      six BARs, the expansion ROM and the interrupt line. */
  lemma ConfigWritable(shown: Shown)
    ensures var regs := ConfigRegisters(shown);
      forall i :: 0 <= i < 30 ==>
        (!regs[i].ro <==>
           regs[i].offset in {0x04, 0x0C, 0x10, 0x14, 0x18, 0x1C, 0x20, 0x24, 0x30, 0x3C})
  {
  }

  lemma Bar0Parts(shown: Shown)
    ensures Row(Features(shown), 0, 0x10, false) && Row(DeviceStatus(shown), 0x10, 0x16, false)
    ensures Row(QueueSetup(shown), 0x16, 0x1E, false) && Row(QueueAreas(shown), 0x1E, 0x38, false)
  {
    hide Row;
    RowOfFour(Features(shown)[0], Features(shown)[1], Features(shown)[2], Features(shown)[3], false);
    RowOfFour(DeviceStatus(shown)[0], DeviceStatus(shown)[1], DeviceStatus(shown)[2], DeviceStatus(shown)[3], false);
    RowOfFour(QueueSetup(shown)[0], QueueSetup(shown)[1], QueueSetup(shown)[2], QueueSetup(shown)[3], false);
    RowOfFour(QueueAreas(shown)[0], QueueAreas(shown)[1], QueueAreas(shown)[2], QueueAreas(shown)[3], false);
  }

  lemma ScsiParts(shown: Shown)
    ensures Row(IsrAndLimits(shown), 0x40, 0x50, false) && Row(ScsiSizes(shown), 0x50, 0x60, false)
    ensures Row(ScsiTargets(shown), 0x60, 0x72, false)
  {
    hide Row;
    RowOfFour(IsrAndLimits(shown)[0], IsrAndLimits(shown)[1], IsrAndLimits(shown)[2], IsrAndLimits(shown)[3], false);
    RowOfFour(ScsiSizes(shown)[0], ScsiSizes(shown)[1], ScsiSizes(shown)[2], ScsiSizes(shown)[3], false);
    RowOfFour(ScsiTargets(shown)[0], ScsiTargets(shown)[1], ScsiTargets(shown)[2], ScsiTargets(shown)[3], false);
  }

  lemma Bar0Layout(shown: Shown)
    ensures Layout(Bar0Registers(shown))
  {
    hide Row;
    Bar0Parts(shown);
    ScsiParts(shown);
    RowConcat(Features(shown), DeviceStatus(shown), 0, 0x10, 0x10, 0x16, false);
    var a := Features(shown) + DeviceStatus(shown);
    RowConcat(a, QueueSetup(shown), 0, 0x16, 0x16, 0x1E, false);
    RowConcat(a + QueueSetup(shown), QueueAreas(shown), 0, 0x1E, 0x1E, 0x38, false);
    var b := a + QueueSetup(shown) + QueueAreas(shown);
    RowConcat(b, IsrAndLimits(shown), 0, 0x38, 0x40, 0x50, false);
    RowConcat(b + IsrAndLimits(shown), ScsiSizes(shown), 0, 0x50, 0x50, 0x60, false);
    RowConcat(b + IsrAndLimits(shown) + ScsiSizes(shown), ScsiTargets(shown), 0, 0x60, 0x60, 0x72, false);
    RowIsLayout(Bar0Registers(shown), 0, 0x72, false);
  }

  /** The registers of the BAR that a guest can write. */
  lemma Bar0Writable(shown: Shown)
    ensures var regs := Bar0Registers(shown);
      forall i :: 0 <= i < 28 ==>
        (!regs[i].ro <==>
           regs[i].offset in {0x00, 0x08, 0x0C, 0x10, 0x14, 0x16, 0x18, 0x1A, 0x1C, 0x20, 0x28, 0x30, 0x58, 0x5C, 0x70})
  {
  }

  lemma RowIsLayout(regs: seq<Register>, from: int, to: int, gapless: bool)
    requires Row(regs, from, to, gapless)
    ensures Layout(regs)
  {
    OrderedIsLayout(regs);
  }

  // ---- What follows for the devices -------------------------------------------------------

  /** Every aligned access of 1, 2, 4 or 8 bytes inside the header is one that the
      results about aligned accesses speak of. */
  lemma ConfigAccess(shown: Shown, s: nat, n: nat)
    requires IsSize(n) && Aligned(s, n) && s + n <= 0x40
    ensures Access(ConfigRegisters(shown), s, n)
  {
    hide Layout;
    hide OffsetMap;
    hide ConfigRegisters;
    ConfigLayout(shown);
  }

  /** The registers with getters in the header are read-only identification. */
  predicate OnlyIdsShown(shown: Shown) {
    forall o :: o in shown ==> o == 0 || o == 2 || 8 <= o < 12 || o == 0x2C || o == 0x2E
  }

  predicate Plain(r: Register) { r.setter.Store? && (r.ro || r.getter.None?) }

  lemma PlainParts(shown: Shown, r: Register)
    requires OnlyIdsShown(shown)
    requires r in Ids(shown) || r in ClassCodes(shown) || r in Timers(shown)
      || r in Subsystem(shown) || r in Capabilities(shown) || r in Interrupts(shown)
    ensures Plain(r)
  {
  }

  lemma ConfigKinds(shown: Shown, j: nat)
    requires OnlyIdsShown(shown) && j < 30
    ensures if 12 <= j < 18 then ConfigRegisters(shown)[j] == BarReg(j - 12) else Plain(ConfigRegisters(shown)[j])
  {
    var r := ConfigRegisters(shown)[j];
    if j < 12 || j >= 18 {
      assert if j < 4 then r == Ids(shown)[j]
        else if j < 8 then r == ClassCodes(shown)[j - 4]
        else if j < 12 then r == Timers(shown)[j - 8]
        else if j < 22 then r == Subsystem(shown)[j - 18]
        else if j < 26 then r == Capabilities(shown)[j - 22]
        else r == Interrupts(shown)[j - 26];
      hide ConfigRegisters;
      PlainParts(shown, r);
    }
  }

  /** Every dword of the header is plain or a base address register, so what is
      said about writes through the ports and the window holds of all of it. */
  lemma ConfigDwords(shown: Shown, reg: nat)
    requires OnlyIdsShown(shown) && reg % 4 == 0 && reg < 0x40
    ensures Access(ConfigRegisters(shown), reg, 4)
    ensures PlainAccess(ConfigRegisters(shown), reg, 4) || BarAt(ConfigRegisters(shown), reg)
  {
    hide Layout;
    hide OffsetMap;
    hide ConfigRegisters;
    hide Plain;
    hide OnlyIdsShown;
    var regs := ConfigRegisters(shown);
    ConfigLayout(shown);
    ConfigAccess(shown, reg, 4);
    if 0x10 <= reg < 0x28 {
      var k := (reg - 0x10) / 4;
      ConfigKinds(shown, 12 + k);
      assert BarRegister(regs, 12 + k, k) && regs[12 + k].offset == reg;
    } else {
      forall o | reg <= o < reg + 4 ensures Plain(regs[At(regs, o)]) {
        ConfigKinds(shown, At(regs, o));
      }
      PlainIsPlain(regs, reg);
    }
  }

  lemma PlainIsPlain(regs: seq<Register>, reg: int)
    requires forall o :: reg <= o < reg + 4 ==> o in OffsetMap(regs) && Plain(regs[At(regs, o)])
    ensures PlainAccess(regs, reg, 4)
  {
  }

  lemma QueueAreaRegisters(shown: Shown)
    ensures Bar0Registers(shown)[12] == Reg(shown, 0x1E, 16, true)
    ensures Bar0Registers(shown)[13] == Reg(shown, 0x20, 64, false)
  {
  }

  lemma RunsOverHere(regs: seq<Register>, j: nat)
    requires Layout(regs) && j + 1 < |regs|
    requires regs[j].offset == 0x1E && regs[j].width == 16 && regs[j + 1].offset == 0x20 && regs[j + 1].width == 64
    ensures forall o :: 0x1E <= o < 0x24 ==> o in OffsetMap(regs)
    ensures forall o :: 0x1E <= o < 0x24 ==> At(regs, o) == if o < 0x20 then j else j + 1
    ensures SplitEnd(regs, 0x1E, 4, 0x1E) == 0x24
  {
    forall o | 0x1E <= o < 0x24 ensures o in OffsetMap(regs) && OffsetMap(regs)[o] == if o < 0x20 then j else j + 1 {
      CoveredIsMapped(regs, o, if o < 0x20 then j else j + 1);
      OnlyCover(regs, o, if o < 0x20 then j else j + 1);
    }
    hide OffsetMap;
    hide Layout;
    assert TurnSize(regs, 4, 0x1E) == Fitting(4, 2) == Fitting(2, 2) == 2;
    assert TurnSize(regs, 4, 0x20) == Fitting(4, 8) == 4;
  }

  /** A 32-bit read at 0x1E of the virtio-scsi BAR returns the notification offset
      and above it four more bytes, of the selected queue's descriptor area: more
      than 32 bits as soon as that lies at 0x10000 or above. */
  lemma QueueAreaRunsOver(shown: Shown, values: seq<nat>)
    requires |values| == 28 && 0x1E !in shown && 0x20 in shown && values[12] < 0x1_0000
    ensures MapOk(Bar0Registers(shown), OffsetMap(Bar0Registers(shown)))
    ensures ReadLoop(Bar0Registers(shown), OffsetMap(Bar0Registers(shown)), values, 0x1E, 0, 32, 0)
         == Returns(values[12] + 0x1_0000 * (shown[0x20] % 0x1_0000_0000))
  {
    hide ReadLoop;
    hide OffsetMap;
    hide FromLe;
    hide ByteOf;
    hide Pow2;
    hide Low;
    var regs := Bar0Registers(shown);
    Bar0Layout(shown);
    QueueAreaRegisters(shown);
    hide Bar0Registers;
    hide Layout;
    RunsOverHere(regs, 12);
    ReadIsSplitBytes(regs, values, 0x1E, 4);
    var f := FlatBytes(regs, values, 0x1E, 6);
    var a, b := Lanes(values[12], 0, 2), Lanes(shown[0x20], 0, 4);
    forall i | 0 <= i < 6 ensures f[i] == (a + b)[i] {
      var j := if i < 2 then 12 else 13;
      assert At(regs, 0x1E + i) == j;
      assert f[i] == RegByte(regs, values, 0x1E + i) == ByteOf(regs[j].Observed(values[j]), 0x1E + i - regs[j].offset);
      if i < 2 { assert a[i] == ByteOf(values[12], i); } else { assert b[i - 2] == ByteOf(shown[0x20], i - 2); }
    }
    assert f == a + b;
    SixBytes(values[12], shown[0x20]);
  }

  lemma SixBytes(x: nat, y: nat)
    requires x < 0x1_0000
    ensures FromLe(Lanes(x, 0, 2) + Lanes(y, 0, 4)) == x + 0x1_0000 * (y % 0x1_0000_0000)
  {
    hide FromLe;
    hide Low;
    hide Lanes;
    hide Pow2;
    Powers();
    Pow2Of32();
    LowLanes(x, 2);
    LowLanes(y, 4);
    LowIsMod(x, 16);
    LowIsMod(y, 32);
    ModSmall(x, 0x1_0000);
    FromLeConcat(Lanes(x, 0, 2), Lanes(y, 0, 4));
    ShlByte(FromLe(Lanes(y, 0, 4)), 8);
    ShlByte(FromLe(Lanes(y, 0, 4)), 0);
  }
}

/** Inputs on which the code does not do what its callers expect, one for each
    condition that the other modules show to be exact. */
module Witnesses {
  import Bits
  import opened Common
  import opened Bytes
  import opened ByteLanes
  import opened Extents
  import opened Buffers
  import opened GuestMap
  import opened Scsi
  import opened DiskArray
  import opened VirtQueue
  import opened ChainProofs
  import opened QueueProofs
  import opened DriverView
  import Registers
  import RegisterProofs
  import PciProofs
  import DeviceLayouts
  import ScanCodes
  import Ps2
  import Ps2Proofs

  // ---- A page of guest memory with one published head ----------------------------------

  /** One page, all zero but for an available index of 1 and the flags of descriptor
      0: head 0 is published, and its descriptor has an empty buffer and descriptor
      0 behind it, if any. */
  function Page(flags: byte): (mem: seq<byte>)
    ensures |mem| == 4096
    ensures forall i :: 0 <= i < 4096 ==> mem[i] == if i == 12 then flags else if i == 1026 then 1 else 0
  {
    Zeros(4096)[12 := flags][1026 := 1]
  }

  function PageEnv(): Env {
    Env([SlotRange(0, 0, 4096)], 16, 0, 1024, 2048, 32, 96, map[])
  }

  function PageState(flags: byte, heads: seq<nat>): St {
    St(Page(flags), map[], 0, 0, 0, false, heads, [], [], [])
  }

  lemma PageRead(flags: byte, gpa: nat, n: nat)
    requires 0 < n && gpa + n <= 4096
    ensures SlotsInRam(PageEnv().slots, 4096)
    ensures ReadBack(PageEnv().slots, Page(flags), gpa, n) == Bytes(Page(flags)[gpa..gpa + n])
  {
    var s := SlotRange(0, 0, 4096);
    assert PageEnv().slots == [s] && FindSlot([s], gpa) == Some(s);
    assert ExtentAt(s, gpa, n) == MemoryExtent(gpa, n);
    assert Resolve([s], gpa + n, 0) == Some([]);
    assert Resolve([s], gpa, n) == Some([MemoryExtent(gpa, n)] + []);
    var b := Page(flags)[gpa..gpa + n];
    assert Repeat(b, n) == b[..n] == b;
  }

  lemma PageVisit(flags: byte)
    requires flags <= 1
    ensures SlotsInRam(PageEnv().slots, 4096)
    ensures VisitAt(PageEnv(), Page(flags), 0) == Piece(Descriptor(0, 0, flags, 0), [])
  {
    hide ReadBack;
    PageRead(flags, 0, 16);
    var b := Page(flags)[0..16];
    assert b[12] == flags && b[13] == 0;
    hide Page;
    ZerosValue(b[0..8]);
    ZerosValue(b[8..12]);
    ZerosValue(b[14..16]);
    ZerosValue([0]);
    assert b[12..14][0] == flags && b[12..14][1..] == [0];
    assert FromLe(b[12..14]) == flags + 256 * FromLe([0]);
  }

  lemma PageRing(flags: byte, ring: seq<byte>)
    requires ring == Page(flags)[1024..1024 + RingLen(16)]
    ensures RingIndex(ring, 16) == 1 && RingEntry(ring, 16, 0) == 0
  {
    assert ring[2] == Page(flags)[1026] == 1 && ring[3] == Page(flags)[1027] == 0;
    assert ring[4] == Page(flags)[1028] == 0 && ring[5] == Page(flags)[1029] == 0;
    hide Page;
    var index, entry := ring[2..4], ring[4..6];
    assert index[0] == 1 && index[1..] == [0];
    ZerosValue([0]);
    assert FromLe(index) == 1 + 256 * FromLe([0]);
    assert entry[0] == 0 && entry[1] == 0;
    ZerosValue(entry);
  }

  lemma PageAllowed(flags: byte)
    ensures WellFormed(PageEnv(), PageState(flags, [])) && UsedRingPlaced(PageEnv())
    ensures Allowed(PageEnv(), PageState(flags, []), NotifyQueue([0]))
  {
    hide ReadBack;
    hide RingIndex;
    hide RingEntry;
    PageRead(flags, 1024, RingLen(16));
    PageRing(flags, Page(flags)[1024..1024 + RingLen(16)]);
    hide Page;
  }

  /** What a notification does with the published head. */
  lemma PageNotify(flags: byte, heads: seq<nat>)
    ensures WellFormed(PageEnv(), PageState(flags, heads))
    ensures var r := ProcessHead(PageEnv(), PageState(flags, heads), 0);
      !r.Ok? ==> Notify(PageEnv(), PageState(flags, heads)) == r
  {
    hide ProcessHead;
    hide ReadBack;
    hide RingIndex;
    hide RingEntry;
    hide Page;
    var env, st := PageEnv(), PageState(flags, heads);
    PageRead(flags, 1024, RingLen(16));
    var ring := Page(flags)[1024..1024 + RingLen(16)];
    PageRing(flags, ring);
  }

  // ---- A head that is handed over again and again ------------------------------------------

  lemma ShortHead(heads: seq<nat>)
    ensures WellFormed(PageEnv(), PageState(0, heads))
    ensures ProcessHead(PageEnv(), PageState(0, heads), 0) == Fails(PageState(0, heads + [0]))
  {
    hide VisitAt;
    hide Page;
    hide Serve;
    hide PostedMem;
    PageVisit(0);
    assert Walk(PageEnv(), Page(0), 0, {}, [], []) == Chain([] + [], [] + []);
    hide Walk;
    assert RequestOf(PageEnv(), Page(0), []) == None;
  }

  /** The device after `n` notifications, for a caller that catches exceptions. */
  ghost function AfterNotifications(n: nat): (r: Ended)
    ensures WellFormed(PageEnv(), r.st)
    decreases n
  {
    if n == 0 then
      PageAllowed(0);
      Ok(PageState(0, []))
    else Notify(PageEnv(), AfterNotifications(n - 1).st)
  }

  /** Head 0, `n` times. */
  function HeadZero(n: nat): (heads: seq<nat>)
    ensures |heads| == n && forall i :: 0 <= i < n ==> heads[i] == 0
  {
    if n == 0 then [] else HeadZero(n - 1) + [0]
  }

  /** A driver that follows the ring protocol but publishes a request without
      bytes: each of any number of notifications hands its head over again. */
  lemma {:induction false} SameHeadAgain(n: nat)
    ensures WellFormed(PageEnv(), PageState(0, [])) && UsedRingPlaced(PageEnv())
    ensures Allowed(PageEnv(), PageState(0, []), NotifyQueue([0]))
    ensures AfterNotifications(n).st == PageState(0, HeadZero(n))
    ensures n > 0 ==> AfterNotifications(n).Fails?
  {
    hide Notify;
    hide PageState;
    hide Allowed;
    hide UsedRingPlaced;
    hide ProcessHead;
    hide WellFormed;
    PageAllowed(0);
    if n > 0 {
      SameHeadAgain(n - 1);
      ShortHead(HeadZero(n - 1));
      PageNotify(0, HeadZero(n - 1));
    }
  }

  // ---- An endless chain ----------------------------------------------------------------------

  lemma LoopTurns()
    ensures SlotsInRam(PageEnv().slots, 4096)
    ensures forall n :: Turns(PageEnv(), Page(1), Running(0, [], []), n).Running?
    ensures Walk(PageEnv(), Page(1), 0, {}, [], []) == Endless
  {
    PageVisit(1);
    hide VisitAt;
    hide Page;
    hide Walk;
    hide Turns;
    var path := [0, 0];
    assert Links(PageEnv(), Page(1), path[0], path[1]);
    assert path[0] == path[1] && Repeats(path);
    LoopEndlessIffRepeats(PageEnv(), Page(1), 0);
    LoopEndsIffNoRevisit(PageEnv(), Page(1), 0);
  }

  lemma LoopHead()
    ensures WellFormed(PageEnv(), PageState(1, [])) && ProcessHead(PageEnv(), PageState(1, []), 0).Hangs?
  {
    hide Page;
    hide Walk;
    hide ServeChain;
    LoopTurns();
  }

  /** A driver that follows the ring protocol and publishes a descriptor that names
      itself as the next one: the loop never ends, and neither does the
      notification. */
  lemma EndlessChain()
    ensures WellFormed(PageEnv(), PageState(1, [])) && UsedRingPlaced(PageEnv())
    ensures Allowed(PageEnv(), PageState(1, []), NotifyQueue([0]))
    ensures forall n :: Turns(PageEnv(), Page(1), Running(0, [], []), n).Running?
    ensures Notify(PageEnv(), PageState(1, [])).Hangs?
  {
    hide Notify;
    hide PageState;
    hide Allowed;
    hide UsedRingPlaced;
    hide ProcessHead;
    hide WellFormed;
    hide Turns;
    hide Page;
    PageAllowed(1);
    LoopTurns();
    LoopHead();
    PageNotify(1, []);
  }

  // ---- Reads, requests and blocks over two extents ----------------------------------------------

  /** Two pages of guest memory that lie behind each other, four bytes across the
      border. */
  lemma ReadAcrossSlots() returns (mem: seq<byte>)
    ensures var rs := [SlotRange(0, 0, 4096), SlotRange(4096, 4096, 4096)];
      && |mem| == 8192 && SlotsInRam(rs, |mem|) && Mapped(rs, 4094, 4)
      && ReadBack(rs, mem, 4094, 4) != Bytes(FlatBytes(rs, mem, 4094, 4))
  {
    var rs := [SlotRange(0, 0, 4096), SlotRange(4096, 4096, 4096)];
    assert FindSlot(rs, 4094) == Some(rs[0]);
    forall a | 4094 <= a < 4098 ensures FindSlot(rs, a).Some? {
      FindSlotFinds(rs, if a < 4096 then rs[0] else rs[1], a);
    }
    assert Apart(rs[0], rs[1]);
    mem := ReadsFirstExtentAgain(rs, 8192, 4094, 4);
  }

  lemma TwoExtents(a: MemoryExtent, b: MemoryExtent)
    ensures Addrs([a, b]) == a.Addrs() + b.Addrs()
  {
    assert [a, b][0] == a && [a, b][1..] == [b] && [b][0] == b && [b][1..] == [];
    assert Addrs([b]) == b.Addrs() + [] == b.Addrs();
    assert Addrs([a, b]) == a.Addrs() + Addrs([b]);
  }

  /** A complete request whose first 20 bytes lie in one extent and the other 31 in
      another is refused. */
  lemma SplitRequest(env: Env) returns (mem: seq<byte>, rd: seq<MemoryExtent>)
    requires env.cdbLen == 32
    ensures InRam(rd, |mem|) && Within(Addrs(rd), |mem|)
    ensures ReadAll(mem, Addrs(rd)) == PackRequest(0, 0, 0, 0, 0, Zeros(32))
    ensures RequestOf(env, mem, rd).None?
  {
    hide WriteAll;
    var req := PackRequest(0, 0, 0, 0, 0, Zeros(32));
    rd := [MemoryExtent(0, 20), MemoryExtent(100, 31)];
    TwoExtents(rd[0], rd[1]);
    var at := Addrs(rd);
    mem := WriteAll(Zeros(131), at, req);
    forall i | 0 <= i < 51 ensures ReadAll(mem, at)[i] == req[i] { WriteAllAt(Zeros(131), at, req, i); }
    assert ReadAll(mem, at) == req;
  }

  /** A WRITE(10) of one block whose 512 bytes come from two extents of 256 raises
      and writes nothing. */
  lemma SplitBlock(u: UnitState, mem: seq<byte>, pages: (seq<byte>, Option<nat>) -> Outcome<Reply>, inLen: Option<nat>)
    requires |mem| >= 1024
    ensures var out, cdb := [MemoryExtent(0, 256), MemoryExtent(512, 256)], PackCdb10(0x2A, 0, 0, 0, 1, 0);
      && |Addrs(out)| == BlockBytes(1, 512) && InRam(out, |mem|)
      && Execute(UnitConfig(512, Disk, pages), u, cdb, mem, Some(out), inLen) == (u, Raises)
  {
    var out, cdb := [MemoryExtent(0, 256), MemoryExtent(512, 256)], PackCdb10(0x2A, 0, 0, 0, 1, 0);
    TwoExtents(out[0], out[1]);
    assert 0 < Limit(4) && 1 < Limit(2) == 256 * Limit(1);
    CdbReads(0x2A, 0, 0, 0, 1, 0, []);
    assert cdb + [] == cdb;
    hide PackCdb10;
    hide Count;
    hide Lba;
    assert WriteBlocks(u.image, BlockBytes(Lba(cdb), 512), 1, 512, mem, out) == (u.image, false);
  }

  // ---- Ring slots ----------------------------------------------------------------------------------

  /** With a length of 3, which the register accepts, indices 65535 and 65536 share
      a slot. */
  lemma SlotsCollide()
    ensures INDEX_SPAN % 3 != 0 && (65535 % INDEX_SPAN) % 3 == (65536 % INDEX_SPAN) % 3
  {
  }

  // ---- Accesses that run over ------------------------------------------------------------------------

  lemma NoHighByte(v: nat, i: nat)
    requires v < 0x1_0000_0000 && i >= 4
    ensures ByteOf(v, i) == 0
  {
    RegisterProofs.ZeroLanes(i - 4);
    assert ByteOf(v, i) == ByteOf(v / 256, i - 1) == ByteOf(v / 256 / 256, i - 2);
    assert ByteOf(v / 256 / 256, i - 2) == ByteOf(v / 256 / 256 / 256, i - 3)
           == ByteOf(v / 256 / 256 / 256 / 256, i - 4);
  }

  lemma RomRegisters(shown: DeviceLayouts.Shown)
    ensures DeviceLayouts.ConfigRegisters(shown)[20] == DeviceLayouts.Reg(shown, 0x2E, 16, true)
    ensures DeviceLayouts.ConfigRegisters(shown)[21] == DeviceLayouts.Reg(shown, 0x30, 32, false)
  {
  }

  lemma RomSplit(regs: seq<Registers.Register>)
    requires Registers.Layout(regs) && |regs| > 21
    requires regs[20].offset == 0x2E && regs[20].width == 16 && regs[21].offset == 0x30 && regs[21].width == 32
    ensures RegisterProofs.SplitEnd(regs, 0x2E, 4, 0x2E) == 0x34
    ensures forall o :: 0x30 <= o < 0x34 ==> o in Registers.OffsetMap(regs) && RegisterProofs.At(regs, o) == 21
  {
    forall o | 0x2E <= o < 0x34
      ensures o in Registers.OffsetMap(regs) && Registers.OffsetMap(regs)[o] == if o < 0x30 then 20 else 21
    {
      Registers.CoveredIsMapped(regs, o, if o < 0x30 then 20 else 21);
      Registers.OnlyCover(regs, o, if o < 0x30 then 20 else 21);
    }
    hide Registers.OffsetMap;
    hide Registers.Layout;
    assert RegisterProofs.TurnSize(regs, 4, 0x2E) == RegisterProofs.Fitting(4, 2) == RegisterProofs.Fitting(2, 2) == 2;
    assert RegisterProofs.TurnSize(regs, 4, 0x30) == RegisterProofs.Fitting(4, 4) == 4;
  }

  /** A 32-bit write at 0x2E of a configuration header, meant for the subsystem ID
      and half of the expansion ROM register, clears the other half as well. */
  lemma RomOverwritten(shown: DeviceLayouts.Shown, bars: seq<Registers.Bar>, st: Registers.DevState, v: nat)
    requires |st.values| == 30 && |st.bases| == |bars| && v < 0x1_0000_0000 && 0x30 !in shown
    ensures var regs := DeviceLayouts.ConfigRegisters(shown);
      && Registers.Layout(regs) && 0x32 in Registers.OffsetMap(regs) && 0x33 in Registers.OffsetMap(regs)
      && var now := RegisterProofs.ValuesAfter(regs, bars, st, 0x2E, 4, v);
         RegisterProofs.RegByte(regs, now, 0x32) == RegisterProofs.RegByte(regs, now, 0x33) == 0
  {
    hide Registers.OffsetMap;
    hide Registers.WriteLoop;
    hide Registers.Layout;
    hide RegisterProofs.RegByte;
    hide ByteOf;
    var regs := DeviceLayouts.ConfigRegisters(shown);
    DeviceLayouts.ConfigLayout(shown);
    RomRegisters(shown);
    hide DeviceLayouts.ConfigRegisters;
    RomSplit(regs);
    RegisterProofs.WriteIsSplitBytes(regs, bars, st, 0x2E, 4, v);
    forall o | o == 0x32 || o == 0x33
      ensures RegisterProofs.ByteAfter(regs, bars, st.values, 0x2E, 0x34, v, o) == 0
      ensures RegisterProofs.Tracked(regs, bars, 0x2E, 0x34, o)
    {
      assert RegisterProofs.At(regs, o) == 21;
      NoHighByte(v, o - 0x2E);
    }
  }

  lemma BarRegisters(shown: DeviceLayouts.Shown)
    ensures var regs := DeviceLayouts.ConfigRegisters(shown);
      && regs[10] == DeviceLayouts.Reg(shown, 0x0E, 8, true) && regs[11] == DeviceLayouts.Reg(shown, 0x0F, 8, true)
      && regs[12] == DeviceLayouts.BarReg(0)
  {
  }

  lemma BarCovers(regs: seq<Registers.Register>)
    requires Registers.Layout(regs) && |regs| > 12
    requires regs[10].offset == 0x0E && regs[10].width == 8 && regs[11].offset == 0x0F && regs[11].width == 8
    requires regs[12].offset == 0x10 && regs[12].width == 32
    ensures forall o :: 0x0E <= o < 0x14 ==>
      o in Registers.OffsetMap(regs)
      && Registers.OffsetMap(regs)[o] == if o == 0x0E then 10 else if o == 0x0F then 11 else 12
  {
    hide Registers.OffsetMap;
    forall o | 0x0E <= o < 0x14
      ensures o in Registers.OffsetMap(regs)
      ensures Registers.OffsetMap(regs)[o] == if o == 0x0E then 10 else if o == 0x0F then 11 else 12
    {
      Registers.CoveredIsMapped(regs, o, if o == 0x0E then 10 else if o == 0x0F then 11 else 12);
      Registers.OnlyCover(regs, o, if o == 0x0E then 10 else if o == 0x0F then 11 else 12);
    }
  }

  lemma BarSplit(regs: seq<Registers.Register>)
    requires Registers.Layout(regs) && |regs| > 12
    requires regs[10].offset == 0x0E && regs[10].width == 8 && regs[11].offset == 0x0F && regs[11].width == 8
    requires regs[12].offset == 0x10 && regs[12].width == 32
    ensures RegisterProofs.SplitEnd(regs, 0x0E, 4, 0x0E) == 0x14
    ensures 0x0E in Registers.OffsetMap(regs) && RegisterProofs.TurnSize(regs, 4, 0x0E) == 1
    ensures 0x0F in Registers.OffsetMap(regs) && RegisterProofs.TurnSize(regs, 4, 0x0F) == 1
    ensures 0x10 in Registers.OffsetMap(regs) && RegisterProofs.TurnSize(regs, 4, 0x10) == 4
    ensures forall o :: 0x0E <= o < 0x14 ==>
      o in Registers.OffsetMap(regs)
      && RegisterProofs.At(regs, o) == if o == 0x0E then 10 else if o == 0x0F then 11 else 12
  {
    hide Registers.OffsetMap;
    hide Registers.Layout;
    BarCovers(regs);
    assert RegisterProofs.Fitting(2, 1) == RegisterProofs.Fitting(1, 1) == 1;
    assert RegisterProofs.TurnSize(regs, 4, 0x0E) == RegisterProofs.Fitting(4, 1) == 1;
    assert RegisterProofs.TurnSize(regs, 4, 0x0F) == RegisterProofs.Fitting(4, 1) == 1;
    assert RegisterProofs.TurnSize(regs, 4, 0x10) == RegisterProofs.Fitting(4, 4) == 4;
  }

  /** A 32-bit write at 0x0E of a configuration header covers two bytes of BAR 0 and
      runs over the other two: the BAR takes the upper half of the value, rounded as
      ever, and its handler moves. */
  lemma BarOverwritten(shown: DeviceLayouts.Shown, bars: seq<Registers.Bar>, st: Registers.DevState, v: nat, k: nat)
    requires |st.values| == 30 && |st.bases| == |bars| > 0 && v < 0x1_0000_0000
    requires k >= 4 && bars[0] == Registers.M32Bar(Bits.Pow2(k))
    ensures var regs := DeviceLayouts.ConfigRegisters(shown);
      var at := PciProofs.RoundDown(v / 0x1_0000, Bits.Pow2(k));
      && Registers.MapOk(regs, Registers.OffsetMap(regs))
      && Registers.WriteLoop(regs, bars, Registers.OffsetMap(regs), st, 0x0E, 0, 32, v, false)
         == (Registers.DevState(st.values[12 := at], st.bases[0 := at]), false)
  {
    hide Registers.OffsetMap;
    hide Registers.Layout;
    hide Registers.Merge;
    hide Registers.SetRegister;
    hide Registers.WriteLoop;
    hide RegisterProofs.TurnSize;
    hide RegisterProofs.SplitEnd;
    hide PciProofs.RoundDown;
    hide Bits.Pow2;
    hide Bits.And;
    hide Bits.Shr;
    hide Bits.Bits0;
    var regs := DeviceLayouts.ConfigRegisters(shown);
    DeviceLayouts.ConfigLayout(shown);
    BarRegisters(shown);
    hide DeviceLayouts.ConfigRegisters;
    BarSplit(regs);
    RegisterProofs.MapIsOk(regs);
    RegisterProofs.ShrNothing(v);
    RegisterProofs.WriteTurn(regs, bars, st, 0x0E, 4, 0x0E, v, false);
    RegisterProofs.WriteTurn(regs, bars, st, 0x0E, 4, 0x0F, v, false);
    RegisterProofs.WriteTurn(regs, bars, st, 0x0E, 4, 0x10, v, false);
    BarTakes(regs, bars, st, v, k);
    RegisterProofs.WriteEnd(regs, bars, RegisterProofs.TurnState(regs, bars, st, 0x0E, 0x10, 4, v), 0x14, 48, 32,
                            Bits.Shr(v, 48), true);
  }

  /** The turn at the BAR. */
  lemma BarTakes(regs: seq<Registers.Register>, bars: seq<Registers.Bar>, st: Registers.DevState, v: nat, k: nat)
    requires |st.values| == |regs| > 12 && |st.bases| == |bars| > 0 && v < 0x1_0000_0000
    requires regs[12] == DeviceLayouts.BarReg(0) && k >= 4 && bars[0] == Registers.M32Bar(Bits.Pow2(k))
    ensures var f, at := Bits.And(Bits.Shr(v, 16), Bits.Bits0(31)), PciProofs.RoundDown(v / 0x1_0000, Bits.Pow2(k));
      Registers.SetRegister(regs, bars, st, 12, Registers.Merge(regs[12], st.values[12], 0, f, 32))
        == Registers.DevState(st.values[12 := at], st.bases[0 := at])
  {
    hide Bits.And;
    hide Bits.Shr;
    hide Bits.Bits0;
    hide Bits.Low;
    hide Bits.Pow2;
    hide Registers.BarValue;
    var x := v / 0x1_0000;
    UpperHalf(v);
    RegisterProofs.Pow2Of32();
    RegisterProofs.MaskIsLow(x, 4);
    PciProofs.LowOfSmall(x, 32);
    PciProofs.BarIsRounded(x, k);
  }

  lemma UpperHalf(v: nat)
    ensures Bits.Shr(v, 16) == v / 0x1_0000
  {
    hide Bits.Shr;
    ShrByte(v, 8);
    ShrByte(v / 256, 0);
    RegisterProofs.ShrNothing(v / 256 / 256);
  }

  // ---- The PS/2 interrupt line -------------------------------------------------------------------------

  /** From power-on: the keyboard's greeting is read, interrupts are enabled, and
      the answer to a self test does not raise the line. */
  lemma LineStaysDown()
    ensures var p := Ps2.Run(Ps2.PowerOn(), [Ps2.ReadData, Ps2.Command(0x60), Ps2.WriteData(0x01), Ps2.Command(0xAA)]);
      Ps2Proofs.Due(p) && !p.line
  {
    hide ScanCodes.Set2ToSet1;
    var es := [Ps2.ReadData, Ps2.Command(0x60), Ps2.WriteData(0x01), Ps2.Command(0xAA)];
    var p := Ps2.PowerOn();
    var a := Ps2.Step(p, es[0]).0;
    assert a.kbd.out == [] && a.inputBuf == [] && !a.writing;
    var b := Ps2.Step(a, es[1]).0;
    Ps2Proofs.OffsetOf(0);
    assert b == a.(writing := true, offset := 0);
    var c := Ps2.Step(b, es[2]).0;
    assert c.ram[0] == 0x01 && !c.line && !Ps2.Pending(c) && !c.writing;
    var d := Ps2.Step(c, es[3]).0;
    assert d == c.(inputBuf := c.inputBuf + [0x55]);
    assert es[1..][1..][1..][1..] == [];
    assert Ps2.Run(p, es) == Ps2.Run(a, es[1..]) == Ps2.Run(b, es[1..][1..]) == Ps2.Run(c, es[1..][1..][1..]) == d;
  }
}

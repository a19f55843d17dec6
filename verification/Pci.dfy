/** PCI configuration space (iodev_pci.py): functions by bus, device and function
    number, the two ways to reach their registers, and base address registers. */
module Pci {
  import opened Common
  import opened Bits
  import opened Bytes
  import opened ByteLanes
  import opened Registers
  import opened RegisterProofs

  // ---- Bus, device, function ----------------------------------------------------

  function PackBdf(bus: nat, dev: nat, fn: nat): Outcome<nat> {
    if bus > 0xFF || dev > 0x1F || fn > 0x7 then Raises
    else Returns(Or(Or(Shl(bus, 8), Shl(dev, 3)), fn))
  }

  function UnpackBdf(bdf: nat): (nat, nat, nat) {
    (And(Shr(bdf, 8), 0xFF), And(Shr(bdf, 3), 0x1F), And(bdf, 0x07))
  }

  // ---- The subsystem --------------------------------------------------------------

  const ALL_ONES_32: nat := 0xFFFF_FFFF

  class PciSubsystem {
    var configs: map<nat, RegisterDevice>

    constructor ()
      ensures configs == map[]
    {
      configs := map[];
    }

    /** Every function's configuration space is in order. */
    ghost predicate Valid()
      reads this, configs.Values
    {
      forall b :: b in configs ==> configs[b].Valid() && configs[b].base == 0
    }

    method Insert(bdf: nat, dev: RegisterDevice)
      requires Valid() && dev.Valid() && dev.base == 0 && bdf <= 0xFFFF
      modifies this
      ensures Valid() && configs == old(configs)[bdf := dev]
    {
      configs := configs[bdf := dev];
      assert forall b :: b in configs && b != bdf ==> b in old(configs) && configs[b] in old(configs.Values);
    }

    ghost function ConfigRead(bdf: nat, reg: nat, width: nat): Outcome<nat>
      requires Valid() && bdf in configs
      reads this, configs.Values
    {
      ReadLoop(configs[bdf].regs, configs[bdf].byOffset, configs[bdf].values, reg, 0, width, 0)
    }

    /** A function that is not there reads as all ones; a number that is no BDF
        at all raises while the warning is put together. */
    ghost function RegisterRead(bdf: nat, reg: nat): Outcome<nat>
      requires Valid()
      reads this, configs.Values
    {
      if bdf in configs then ConfigRead(bdf, reg, 32)
      else if bdf > 0xFFFF then Raises
      else Returns(ALL_ONES_32)
    }

    method CfgRead(bdf: nat, reg: nat) returns (r: Outcome<nat>)
      requires Valid()
      ensures r == RegisterRead(bdf, reg)
    {
      if bdf !in configs { return if bdf > 0xFFFF then Raises else Returns(ALL_ONES_32); }
      r := configs[bdf].Read(reg, 32);
    }

    /** The function's registers after a configuration write, and whether it
        raised. */
    ghost function ConfigWritten(bdf: nat, reg: nat, v: nat, width: nat): (DevState, bool)
      requires Valid() && bdf in configs
      reads this, configs.Values
    {
      var dev := configs[bdf];
      WriteLoop(dev.regs, dev.bars, dev.byOffset, dev.State(), reg, 0, width, v, false)
    }

    /** Writing to a function that is not there does nothing. */
    method CfgWrite(bdf: nat, reg: nat, v: nat) returns (raised: bool)
      requires Valid()
      modifies if bdf in configs then {configs[bdf]} else {}
      ensures Valid()
      ensures if bdf in configs then (configs[bdf].State(), raised) == old(ConfigWritten(bdf, reg, v, 32)) else !raised
    {
      hide WriteLoop;
      hide OffsetMap;
      hide MapOk;
      if bdf !in configs { return false; }
      raised := configs[bdf].Write(reg, v, 32);
    }
  }

  // ---- The port pair 0xCF8, 0xCFC -----------------------------------------------------

  const PORT_BASE: nat := 0xCF8

  function SelectedBdf(cf8: nat): nat { Shr(And(cf8, 0x7FFF_FFFF), 8) }

  function SelectedReg(cf8: nat): nat { And(And(cf8, 0x7FFF_FFFF), 0xFF) }

  /** The two ports as registers, with `data` behind the data port. */
  function Ports(data: nat): seq<Register> {
    [Register(0, 32, false, None, Store), Register(4, 32, false, Some(data), Store)]
  }

  class PciIoCfgDev {
    const pci: PciSubsystem
    var cf8: nat

    constructor (pci: PciSubsystem)
      ensures this.pci == pci && cf8 == 0
    {
      this.pci, cf8 := pci, 0;
    }

    /** A read at the data port runs the selected configuration read, then takes
        its part of the result. */
    method ReadData(addr: nat, width: nat) returns (r: Outcome<nat>)
      requires pci.Valid() && PORT_BASE + 4 <= addr < PORT_BASE + 8 && width > 0
      ensures r == DataPortResult(pci, cf8, addr, width)
    {
      hide ReadLoop;
      hide OffsetMap;
      var selected := And(cf8, 0x7FFF_FFFF);
      var data := pci.CfgRead(Shr(selected, 8), And(selected, 0xFF));
      if data.Raises? { return Raises; }
      var ports := new RegisterDevice(PORT_BASE, Ports(data.result), [cf8, 0], []);
      r := ports.Read(addr, width);
    }

    /** A write inside the data port. One that does not cover it all first reads
        the selected register, and its bytes are written over what was read. */
    method WriteData(off: nat, v: nat, n: nat) returns (raised: bool)
      requires pci.Valid() && IsSize(n) && off + n <= 4
      modifies if SelectedBdf(cf8) in pci.configs then {pci.configs[SelectedBdf(cf8)]} else {}
      ensures pci.Valid()
      ensures if SelectedBdf(cf8) in pci.configs then
                (pci.configs[SelectedBdf(cf8)].State(), raised) == old(PortWritten(pci, cf8, off, v, n))
              else raised == (n < 4 && SelectedBdf(cf8) > 0xFFFF)
    {
      hide WriteLoop;
      hide ReadLoop;
      hide Merge;
      var selected := And(cf8, 0x7FFF_FFFF);
      var bdf, reg := Shr(selected, 8), And(selected, 0xFF);
      var data := Returns(0);
      if n < 4 { data := pci.CfgRead(bdf, reg); }
      if data.Raises? { return true; }
      raised := pci.CfgWrite(bdf, reg, MergedAtPort(data.result, off, v, n));
    }

    /** The address port, and all functions' registers. */
    ghost function View(): (ps: PortState)
      requires pci.Valid()
      reads this, pci, pci.configs.Values
      ensures Kept(pci.configs, ps.devs) && ps.cf8 == cf8
    {
      PortState(cf8, map d | d in pci.configs.Values :: d.State())
    }

    /** A write of any size and alignment, at either port or across both: an
        address part takes effect before the data part behind it. */
    method Write(addr: nat, v: nat, width: nat) returns (raised: bool)
      requires pci.Valid() && width == 8 * (width / 8) && IsSize(width / 8)
      modifies this, pci.configs.Values
      ensures pci.Valid()
      ensures (View(), raised) == PortsAfter(pci.configs, old(View()), addr - 0xCF8, 0, width / 8, v, false)
    {
      hide Merge;
      hide Shr;
      hide Fitting;
      hide Chunk;
      hide Bits0;
      hide PciIoCfgDev.View;
      hide PortsAfter;
      hide DataWritten;
      hide Kept;
      hide PciSubsystem.Valid;
      var curOffset := addr - PORT_BASE;
      var bitCount, vv, oneSuccess := 0, v, false;
      ghost var n, bytes: nat := width / 8, 0;
      ghost var goal := PortsAfter(pci.configs, View(), curOffset, 0, n, v, false);
      while bitCount < width
        invariant pci.Valid() && bitCount == 8 * bytes
        invariant goal == PortsAfter(pci.configs, View(), curOffset, bytes, n, vv, oneSuccess)
        decreases width - bitCount
      {
        PortsTurn(pci.configs, View(), curOffset, bytes, n, vv, oneSuccess);
        if !(0 <= curOffset < 8) { return true; }
        var relOffset := curOffset % 4;
        ChunkIsFitting(n, 4 - relOffset);
        var rw := SplitWidth(width, 32 - relOffset * 8);
        assert rw == 8 * Fitting(n, 4 - relOffset);
        if curOffset < 4 {
          WriteAddress(relOffset, vv, rw / 8);
        } else {
          var failed := StepData(relOffset, vv, rw / 8);
          if failed { return true; }
        }
        oneSuccess := true;
        vv := Shr(vv, rw);
        curOffset := curOffset + rw / 8;
        bitCount := bitCount + rw;
        bytes := bytes + rw / 8;
      }
      PortsTurn(pci.configs, View(), curOffset, bytes, n, vv, oneSuccess);
      raised := !oneSuccess;
    }

    method WriteAddress(off: nat, v: nat, n: nat)
      requires pci.Valid() && IsSize(n) && off + n <= 4
      modifies this
      ensures pci.Valid() && View() == old(View()).(cf8 := MergedAddress(old(cf8), off, v, n))
    {
      hide Merge;
      cf8 := MergedAddress(cf8, off, v, n);
    }

    /** A write at the data port, seen from all functions. */
    method StepData(off: nat, v: nat, n: nat) returns (raised: bool)
      requires pci.Valid() && IsSize(n) && off + n <= 4
      modifies pci.configs.Values
      ensures pci.Valid() && (View(), raised) == DataWritten(pci.configs, old(View()), off, v, n)
    {
      hide WriteLoop;
      hide ReadLoop;
      hide MergedAtPort;
      hide SelectedBdf;
      hide SelectedReg;
      hide DataWritten;
      hide PortWritten;
      hide Kept;
      hide MapOk;
      ghost var before, bdf := View(), SelectedBdf(cf8);
      PortIsDataWritten(off, v, n);
      raised := WriteData(off, v, n);
      if bdf in pci.configs {
        assert View().devs == before.devs[pci.configs[bdf] := pci.configs[bdf].State()];
      } else {
        assert View().devs == before.devs;
      }
    }

    lemma PortIsDataWritten(off: nat, v: nat, n: nat)
      requires pci.Valid() && IsSize(n)
      ensures SelectedBdf(cf8) in pci.configs ==>
        var w := PortWritten(pci, cf8, off, v, n);
        DataWritten(pci.configs, View(), off, v, n)
          == (View().(devs := View().devs[pci.configs[SelectedBdf(cf8)] := w.0]), w.1)
      ensures SelectedBdf(cf8) !in pci.configs ==>
        DataWritten(pci.configs, View(), off, v, n) == (View(), n < 4 && SelectedBdf(cf8) > 0xFFFF)
    {
      hide WriteLoop;
      hide ReadLoop;
      hide MergedAtPort;
      hide SelectedBdf;
      hide SelectedReg;
      if SelectedBdf(cf8) in pci.configs {
        var dev := pci.configs[SelectedBdf(cf8)];
        assert View().devs[dev := dev.State()] == View().devs;
      }
    }
  }

  // ---- Both ports as one device ---------------------------------------------------------

  datatype PortState = PortState(cf8: nat, devs: map<RegisterDevice, DevState>)

  ghost predicate Kept(configs: map<nat, RegisterDevice>, devs: map<RegisterDevice, DevState>) {
    forall b :: b in configs ==>
      && configs[b] in devs && MapOk(configs[b].regs, configs[b].byOffset)
      && |devs[configs[b]].values| == |configs[b].regs| && |devs[configs[b]].bases| == |configs[b].bars|
  }

  function MergedAddress(cf8: nat, off: nat, v: nat, n: nat): nat
    requires IsSize(n)
  {
    Merge(Ports(0)[0], cf8, off, And(v, Bits0(8 * n - 1)), 8 * n)
  }

  /** The functions' registers after a write of `n` bytes at the data port. */
  ghost function DataWritten(configs: map<nat, RegisterDevice>, ps: PortState, off: nat, v: nat, n: nat)
    : (r: (PortState, bool))
    requires Kept(configs, ps.devs) && IsSize(n)
    ensures Kept(configs, r.0.devs)
  {
    var bdf, reg := SelectedBdf(ps.cf8), SelectedReg(ps.cf8);
    if bdf !in configs then (ps, n < 4 && bdf > 0xFFFF)
    else
      var dev, st := configs[bdf], ps.devs[configs[bdf]];
      var data := if n < 4 then ReadLoop(dev.regs, dev.byOffset, st.values, reg, 0, 32, 0) else Returns(0);
      if data.Raises? then (ps, true)
      else
        var w := WriteLoop(dev.regs, dev.bars, dev.byOffset, st, reg, 0, 32, MergedAtPort(data.result, off, v, n),
                           false);
        (ps.(devs := ps.devs[dev := w.0]), w.1)
  }

  /** A write of `n` bytes that has come to offset `cur`, behind `done` bytes. */
  ghost function PortsAfter(configs: map<nat, RegisterDevice>, ps: PortState, cur: int, done: nat, n: nat, vv: nat,
                            ok: bool)
    : (PortState, bool)
    requires Kept(configs, ps.devs) && IsSize(n)
    decreases n - done
  {
    if done >= n then (ps, !ok)
    else if !(0 <= cur < 8) then (ps, true)
    else
      var c := Fitting(n, 4 - cur % 4);
      if cur < 4 then
        var ps' := ps.(cf8 := MergedAddress(ps.cf8, cur % 4, vv, c));
        PortsAfter(configs, ps', cur + c, done + c, n, Shr(vv, 8 * c), true)
      else
        var r := DataWritten(configs, ps, cur % 4, vv, c);
        if r.1 then r else PortsAfter(configs, r.0, cur + c, done + c, n, Shr(vv, 8 * c), true)
  }

  lemma PortsTurn(configs: map<nat, RegisterDevice>, ps: PortState, cur: int, done: nat, n: nat, vv: nat, ok: bool)
    requires Kept(configs, ps.devs) && IsSize(n)
    ensures PortsAfter(configs, ps, cur, done, n, vv, ok) ==
      if done >= n then (ps, !ok)
      else if !(0 <= cur < 8) then (ps, true)
      else
        var c := Fitting(n, 4 - cur % 4);
        if cur < 4 then
          var ps' := ps.(cf8 := MergedAddress(ps.cf8, cur % 4, vv, c));
          PortsAfter(configs, ps', cur + c, done + c, n, Shr(vv, 8 * c), true)
        else
          var r := DataWritten(configs, ps, cur % 4, vv, c);
          if r.1 then r else PortsAfter(configs, r.0, cur + c, done + c, n, Shr(vv, 8 * c), true)
  {
    hide DataWritten;
    hide MergedAddress;
    hide Kept;
    hide Fitting;
    hide Shr;
  }

  /** Inside the data port it is one write there. */
  lemma DataPortIsOneTurn(configs: map<nat, RegisterDevice>, ps: PortState, off: nat, v: nat, n: nat)
    requires Kept(configs, ps.devs) && IsSize(n) && off + n <= 4
    ensures PortsAfter(configs, ps, 4 + off, 0, n, v, false) == DataWritten(configs, ps, off, v, n)
  {
    hide DataWritten;
    hide Shr;
    assert (4 + off) % 4 == off;
    assert Fitting(n, 4 - off) == n;
    var r := DataWritten(configs, ps, off, v, n);
    if !r.1 { assert PortsAfter(configs, r.0, 4 + off + n, n, n, Shr(v, 8 * n), true) == (r.0, false); }
  }

  /** `v` merged into the data port when `data` is behind it. */
  function MergedAtPort(data: nat, off: nat, v: nat, n: nat): nat
    requires IsSize(n)
  {
    Merge(Ports(data)[1], 0, off, And(v, Bits0(8 * n - 1)), 8 * n)
  }

  /** The selected function's registers after a write inside the data port. */
  ghost function PortWritten(pci: PciSubsystem, cf8: nat, off: nat, v: nat, n: nat): (DevState, bool)
    requires pci.Valid() && SelectedBdf(cf8) in pci.configs && IsSize(n)
    reads pci, pci.configs.Values
  {
    var bdf, reg := SelectedBdf(cf8), SelectedReg(cf8);
    var data := if n < 4 then pci.ConfigRead(bdf, reg, 32) else Returns(0);
    if data.Raises? then (pci.configs[bdf].State(), true)
    else pci.ConfigWritten(bdf, reg, MergedAtPort(data.result, off, v, n), 32)
  }

  ghost function DataPortResult(pci: PciSubsystem, cf8: nat, addr: nat, width: nat): Outcome<nat>
    requires pci.Valid()
    reads pci, pci.configs.Values
  {
    var data := pci.RegisterRead(SelectedBdf(cf8), SelectedReg(cf8));
    if data.Raises? then Raises else PortRead(data.result, cf8, addr, width)
  }

  /** An access to the ports when `data` is behind the data port. */
  function PortRead(data: nat, cf8: nat, addr: nat, width: nat): Outcome<nat> {
    PortsMapOk(data);
    ReadLoop(Ports(data), OffsetMap(Ports(data)), [cf8, 0], addr - PORT_BASE, 0, width, 0)
  }

  lemma PortsMapOk(data: nat)
    ensures MapOk(Ports(data), OffsetMap(Ports(data)))
  {
    forall o | o in OffsetMap(Ports(data))
      ensures OffsetMap(Ports(data))[o] < 2 && Ports(data)[OffsetMap(Ports(data))[o]].Covers(o)
    {
      OffsetMapCovers(Ports(data), o);
    }
  }

  // ---- The memory-mapped window ---------------------------------------------------------

  const WINDOW_BASE: nat := 0xB000_0000

  function SplitAddr(addr: nat): (nat, nat) {
    (And(Shr(addr, 12), 0xFFFF), And(addr, 0xFFF))
  }

  /** All ones of a width. */
  function Ones(width: nat): nat { Pow2(width) - 1 }

  lemma OnesByWidth()
    ensures Ones(8) == 0xFF && Ones(16) == 0xFFFF && Ones(32) == 0xFFFF_FFFF
  {
    Pow2Byte(0);
    Pow2Byte(8);
    Pow2Byte(16);
    Pow2Byte(24);
  }

  ghost function WindowResult(pci: PciSubsystem, addr: nat, width: nat): Outcome<nat>
    requires pci.Valid()
    reads pci, pci.configs.Values
  {
    var t := SplitAddr(addr);
    if t.0 in pci.configs then pci.ConfigRead(t.0, t.1, width) else Returns(Ones(width))
  }

  class PciMmioCfgDev {
    const pci: PciSubsystem

    constructor (pci: PciSubsystem)
      ensures this.pci == pci
    {
      this.pci := pci;
    }

    /** `read8`, `read16` and `read32`. */
    method Read(addr: nat, width: nat) returns (r: Outcome<nat>)
      requires pci.Valid() && (width == 8 || width == 16 || width == 32)
      ensures r == WindowResult(pci, addr, width)
    {
      hide Ones;
      hide And;
      hide Shr;
      hide ReadLoop;
      OnesByWidth();
      var bdf, reg := And(Shr(addr, 12), 0xFFFF), And(addr, 0xFFF);
      if bdf !in pci.configs {
        return Returns(if width == 8 then 0xFF else if width == 16 then 0xFFFF else 0xFFFF_FFFF);
      }
      r := pci.configs[bdf].Read(reg, width);
    }

    /** `write8`, `write16` and `write32`. */
    method Write(addr: nat, v: nat, width: nat) returns (raised: bool)
      requires pci.Valid()
      modifies if SplitAddr(addr).0 in pci.configs then {pci.configs[SplitAddr(addr).0]} else {}
      ensures var (bdf, reg) := SplitAddr(addr);
        if bdf in pci.configs then (pci.configs[bdf].State(), raised) == old(pci.ConfigWritten(bdf, reg, v, width))
            else !raised
    {
      var bdf, reg := And(Shr(addr, 12), 0xFFFF), And(addr, 0xFFF);
      if bdf !in pci.configs { return false; }
      raised := pci.configs[bdf].Write(reg, v, width);
    }
  }
}

/** The block commands of a SCSI logical unit over a disk image (scsi.py). */
module Scsi {
  import Bits
  import opened Common
  import opened Bytes
  import opened Extents
  import opened Buffers

  const STATUS_GOOD: byte := 0x00
  const STATUS_CHECK_CONDITION: byte := 0x02
  const KEY_NO_SENSE: byte := 0x0
  const KEY_ILLEGAL_REQUEST: byte := 0x5

  /** `ScsiSenseTemplate.make`: fixed-format sense data. */
  function MakeSense(key: byte, asc: byte, ascq: byte): (s: seq<byte>)
    ensures |s| == 18
  {
    [0x70, 0, key % 16, 0, 0, 0, 0, 0, 0, 0, 0, 0, asc, ascq, 0, 0, 0, 0]
  }

  /** What a command that completes reports; `dataIn` is what it put into the
      data-in buffer. */
  datatype Reply = Reply(status: byte, sense: Option<seq<byte>>, dataIn: seq<byte>)

  function Good(dataIn: seq<byte>): Reply { Reply(STATUS_GOOD, None, dataIn) }

  function CheckCondition(asc: byte): Reply {
    Reply(STATUS_CHECK_CONDITION, Some(MakeSense(KEY_ILLEGAL_REQUEST, asc, 0)), [])
  }

  const INVALID_OPCODE: byte := 0x20
  const INVALID_FIELD: byte := 0x24
  const UNSUPPORTED_UNIT: byte := 0x25

  /** `_lastSenseData`: not assigned before the first command completes. */
  datatype LastSense = Unassigned | Assigned(data: Option<seq<byte>>)

  /** What stays fixed about a unit. The commands that only encode constant
      pages are a parameter: from the CDB and the room for data-in, if there is
      a data-in buffer at all, to a result. */
  datatype UnitConfig = UnitConfig(blockSize: nat, kind: UnitKind, pages: (seq<byte>, Option<nat>) -> Outcome<Reply>) {
    predicate Valid() { 0 < blockSize < COPY_LIMIT }
  }
  datatype UnitKind = Disk | Optical

  /** What commands change about a unit. */
  datatype UnitState = UnitState(image: seq<byte>, lastSense: LastSense)

  // ---- The image as a seekable file -----------------------------------------

  function FileRead(data: seq<byte>, pos: nat, n: nat): seq<byte> {
    if pos >= |data| then [] else data[pos..Min(pos + n, |data|)]
  }

  /** Writing beyond the end fills the gap with zeros. */
  function FileWrite(data: seq<byte>, pos: nat, d: seq<byte>): (r: seq<byte>)
    ensures pos + |d| <= |data| ==> |r| == |data|
  {
    if d == [] then data
    else if pos + |d| <= |data| then data[..pos] + d + data[pos + |d|..]
    else if pos <= |data| then data[..pos] + d
    else data + Zeros(pos - |data|) + d
  }

  class ImageFile {
    var data: seq<byte>
    var pos: nat

    constructor (data: seq<byte>)
      ensures this.data == data && pos == 0
    {
      this.data, pos := data, 0;
    }

    method Seek(to: nat)
      modifies this
      ensures data == old(data) && pos == to
    {
      pos := to;
    }

    method Read(n: nat) returns (r: seq<byte>)
      modifies this
      ensures data == old(data) && r == FileRead(data, old(pos), n) && pos == old(pos) + |r|
    {
      r := if pos >= |data| then [] else data[pos..Min(pos + n, |data|)];
      pos := pos + |r|;
    }

    method Write(d: seq<byte>)
      modifies this
      ensures data == FileWrite(old(data), old(pos), d) && pos == old(pos) + |d|
    {
      data := FileWrite(data, pos, d);
      pos := pos + |d|;
    }
  }

  // ---- What each command does ------------------------------------------------

  function Lba(cdb: seq<byte>): nat
    requires |cdb| >= 10
  {
    FromBe(cdb[2..6])
  }

  function Count(cdb: seq<byte>): nat
    requires |cdb| >= 10
  {
    FromBe(cdb[7..9])
  }

  /** The length of `n` blocks in bytes. */
  function BlockBytes(n: nat, bs: nat): nat { n * bs }

  /** Copy `count` blocks from the data-out extents to the image. Each block is
      one read, so it has to come out of one extent; the flag says whether all
      of them did. */
  function WriteBlocks(image: seq<byte>, pos: nat, count: nat, bs: nat, mem: seq<byte>, es: seq<MemoryExtent>)
    : (seq<byte>, bool)
    requires InRam(es, |mem|)
    decreases count
  {
    if count == 0 then (image, true)
    else if Taken(es, bs) != bs then (image, false)
    else
      AddrsWithin(es, |mem|);
      AfterReadAddrs(es, bs);
      WriteBlocks(FileWrite(image, pos, ReadAll(mem, Addrs(es)[..bs])), pos + bs, count - 1, bs, mem, AfterRead(es, bs))
  }

  /** Write the same block `count` times. */
  function FillBlocks(image: seq<byte>, pos: nat, count: nat, d: seq<byte>): seq<byte>
    decreases count
  {
    if count == 0 then image else FillBlocks(FileWrite(image, pos, d), pos + |d|, count - 1, d)
  }

  function ExecRead10(cfg: UnitConfig, image: seq<byte>, cdb: seq<byte>, inLen: Option<nat>): Outcome<Reply> {
    if |cdb| < 10 then Returns(CheckCondition(INVALID_FIELD))
    else if inLen.None? && Count(cdb) > 0 then Raises
    else Returns(Good(FileRead(image, BlockBytes(Lba(cdb), cfg.blockSize), BlockBytes(Count(cdb), cfg.blockSize))))
  }

  function ExecWrite10(cfg: UnitConfig, image: seq<byte>, cdb: seq<byte>, mem: seq<byte>,
                       out: Option<seq<MemoryExtent>>): (seq<byte>, Outcome<Reply>)
    requires out.Some? ==> InRam(out.value, |mem|)
  {
    if |cdb| < 10 then (image, Returns(CheckCondition(INVALID_FIELD)))
    else if out.None? then (image, if Count(cdb) > 0 then Raises else Returns(Good([])))
    else
      var w := WriteBlocks(image, BlockBytes(Lba(cdb), cfg.blockSize), Count(cdb), cfg.blockSize, mem, out.value);
      (w.0, if w.1 then Returns(Good([])) else Raises)
  }

  function ExecWriteSame10(cfg: UnitConfig, image: seq<byte>, cdb: seq<byte>, mem: seq<byte>,
                           out: Option<seq<MemoryExtent>>): (seq<byte>, Outcome<Reply>)
    requires out.Some? ==> InRam(out.value, |mem|)
  {
    if |cdb| < 10 then (image, Returns(CheckCondition(INVALID_FIELD)))
    else if Bits.And(cdb[1], 2) != 0 || Bits.And(cdb[1], 4) != 0 then (image, Returns(CheckCondition(INVALID_FIELD)))
    else if out.None? || Taken(out.value, cfg.blockSize) != cfg.blockSize then (image, Raises)
    else
      AddrsWithin(out.value, |mem|);
      AfterReadAddrs(out.value, cfg.blockSize);
      var d := ReadAll(mem, Addrs(out.value)[..cfg.blockSize]);
      (FillBlocks(image, BlockBytes(Lba(cdb), cfg.blockSize), Count(cdb), d), Returns(Good([])))
  }

  function ExecRequestSense(lastSense: LastSense, cdb: seq<byte>, inLen: Option<nat>): Outcome<Reply>
    requires |cdb| >= 6
  {
    if Bits.And(cdb[1], 1) != 0 then Returns(CheckCondition(INVALID_FIELD))
    else if lastSense.Unassigned? || inLen.None? then Raises
    else
      var data := if lastSense.data.None? then MakeSense(KEY_NO_SENSE, 0, 0) else lastSense.data.value;
      Returns(Good(data[..Min(cdb[4], |data|)]))
  }

  /** `_executeCommand` of a disk (0x2A and 0x41 write) or an optical unit (0x43
      and 0x46 are further constant pages). */
  function Dispatch(cfg: UnitConfig, u: UnitState, cdb: seq<byte>, mem: seq<byte>,
                    out: Option<seq<MemoryExtent>>, inLen: Option<nat>): (seq<byte>, Outcome<Reply>)
    requires |cdb| >= 6 && (out.Some? ==> InRam(out.value, |mem|))
  {
    var op := cdb[0];
    if op == 0x2A && cfg.kind.Disk? then ExecWrite10(cfg, u.image, cdb, mem, out)
    else if op == 0x41 && cfg.kind.Disk? then ExecWriteSame10(cfg, u.image, cdb, mem, out)
    else if (op == 0x43 || op == 0x46) && cfg.kind.Optical? then (u.image, cfg.pages(cdb, inLen))
    else if op == 0x25 || op == 0x12 then (u.image, cfg.pages(cdb, inLen))
    else if op == 0x28 then (u.image, ExecRead10(cfg, u.image, cdb, inLen))
    else if op == 0x00 then (u.image, Returns(Good([])))
    else if op == 0x03 then (u.image, ExecRequestSense(u.lastSense, cdb, inLen))
    else (u.image, Returns(CheckCondition(INVALID_OPCODE)))
  }

  /** `executeCommand`: sense data is remembered unless the command raised. */
  function Execute(cfg: UnitConfig, u: UnitState, cdb: seq<byte>, mem: seq<byte>,
                   out: Option<seq<MemoryExtent>>, inLen: Option<nat>): (UnitState, Outcome<Reply>)
    requires |cdb| >= 6 && (out.Some? ==> InRam(out.value, |mem|))
  {
    var r := Dispatch(cfg, u, cdb, mem, out, inLen);
    (UnitState(r.0, if r.1.Returns? then Assigned(r.1.result.sense) else u.lastSense), r.1)
  }

  /** The subsystem routes a command to the unit with its LUN. */
  function Route(cfgs: map<nat, UnitConfig>, us: map<nat, UnitState>, lun: nat, cdb: seq<byte>, mem: seq<byte>,
                 out: Option<seq<MemoryExtent>>, inLen: Option<nat>): (map<nat, UnitState>, Outcome<Reply>)
    requires cfgs.Keys == us.Keys && |cdb| >= 6 && (out.Some? ==> InRam(out.value, |mem|))
  {
    if lun in us then
      var r := Execute(cfgs[lun], us[lun], cdb, mem, out, inLen);
      (us[lun := r.0], r.1)
    else (us, Returns(CheckCondition(UNSUPPORTED_UNIT)))
  }

  // ---- The unit -----------------------------------------------------------

  ghost function DataOut(b: MultiReadBuffer?): Option<seq<MemoryExtent>>
    reads b, if b == null then {} else {b.list}
  {
    if b == null then None else Some(b.list.items)
  }

  class LogicalUnit {
    const cfg: UnitConfig
    const f: ImageFile
    var lastSense: LastSense

    constructor (cfg: UnitConfig, f: ImageFile)
      ensures this.cfg == cfg && this.f == f && lastSense == Unassigned
    {
      this.cfg, this.f, lastSense := cfg, f, Unassigned;
    }

    ghost function State(): UnitState
      reads this, f
    {
      UnitState(f.data, lastSense)
    }

    method ExecuteCommand(cdb: seq<byte>, dataOut: MultiReadBuffer?, inLen: Option<nat>) returns (r: Outcome<Reply>)
      requires cfg.Valid() && |cdb| >= 6 && (dataOut != null ==> dataOut.Valid())
      modifies this, f, dataOut, if dataOut == null then {} else {dataOut.list}
      ensures (State(), r) == Execute(cfg, old(State()), cdb,
                old(if dataOut == null then [] else dataOut.ram[..]), old(DataOut(dataOut)), inLen)
    {
      r := ExecuteInner(cdb, dataOut, inLen);
      if r.Returns? { lastSense := Assigned(r.result.sense); }
    }

    method ExecuteInner(cdb: seq<byte>, dataOut: MultiReadBuffer?, inLen: Option<nat>) returns (r: Outcome<Reply>)
      requires cfg.Valid() && |cdb| >= 6 && (dataOut != null ==> dataOut.Valid())
      modifies f, dataOut, if dataOut == null then {} else {dataOut.list}
      ensures (f.data, r) == Dispatch(cfg, old(State()), cdb,
                old(if dataOut == null then [] else dataOut.ram[..]), old(DataOut(dataOut)), inLen)
    {
      var op := cdb[0];
      if op == 0x2A && cfg.kind.Disk? { r := HandleWrite10(cdb, dataOut); }
      else if op == 0x41 && cfg.kind.Disk? { r := HandleWriteSame10(cdb, dataOut); }
      else if (op == 0x43 || op == 0x46) && cfg.kind.Optical? { r := cfg.pages(cdb, inLen); }
      else if op == 0x25 || op == 0x12 { r := cfg.pages(cdb, inLen); }
      else if op == 0x28 { r := HandleRead10(cdb, inLen); }
      else if op == 0x00 { r := Returns(Good([])); }
      else if op == 0x03 { r := HandleRequestSense(cdb, inLen); }
      else { r := Returns(CheckCondition(INVALID_OPCODE)); }
    }

    method HandleRequestSense(cdb: seq<byte>, inLen: Option<nat>) returns (r: Outcome<Reply>)
      requires |cdb| >= 6
      ensures r == ExecRequestSense(lastSense, cdb, inLen)
    {
      var maxLen := cdb[4];
      if Bits.And(cdb[1], 1) != 0 { return Returns(CheckCondition(INVALID_FIELD)); }
      if lastSense.Unassigned? || inLen.None? { return Raises; }
      var data := if lastSense.data.None? then MakeSense(KEY_NO_SENSE, 0, 0) else lastSense.data.value;
      r := Returns(Good(data[..Min(maxLen, |data|)]));
    }

    method HandleRead10(cdb: seq<byte>, inLen: Option<nat>) returns (r: Outcome<Reply>)
      modifies f
      ensures f.data == old(f.data) && r == ExecRead10(cfg, f.data, cdb, inLen)
    {
      if |cdb| < 10 { return Returns(CheckCondition(INVALID_FIELD)); }
      var lba, xferLen := FromBe(cdb[2..6]), FromBe(cdb[7..9]);
      var bs, start := cfg.blockSize, lba * cfg.blockSize;
      f.Seek(start);
      var dataIn: seq<byte> := [];
      for i := 0 to xferLen
        invariant inLen.Some? || i == 0
        invariant f.data == old(f.data)
        invariant f.pos == start + |dataIn|
        invariant dataIn == FileRead(f.data, start, i * bs)
      {
        if inLen.None? { return Raises; }
        ReadStep(f.data, start, i, bs);
        var d := f.Read(bs);
        dataIn := dataIn + d;
      }
      r := Returns(Good(dataIn));
    }

    method HandleWrite10(cdb: seq<byte>, dataOut: MultiReadBuffer?) returns (r: Outcome<Reply>)
      requires cfg.Valid() && (dataOut != null ==> dataOut.Valid())
      modifies f, dataOut, if dataOut == null then {} else {dataOut.list}
      ensures (f.data, r) == ExecWrite10(cfg, old(f.data), cdb,
                old(if dataOut == null then [] else dataOut.ram[..]), old(DataOut(dataOut)))
    {
      if |cdb| < 10 { return Returns(CheckCondition(INVALID_FIELD)); }
      var lba, xferLen := FromBe(cdb[2..6]), FromBe(cdb[7..9]);
      f.Seek(lba * cfg.blockSize);
      if dataOut == null { return if xferLen > 0 then Raises else Returns(Good([])); }
      var ok := CopyBlocks(dataOut, xferLen);
      r := if ok then Returns(Good([])) else Raises;
    }

    method CopyBlocks(dataOut: MultiReadBuffer, count: nat) returns (ok: bool)
      requires cfg.Valid() && dataOut.Valid()
      modifies f, dataOut, dataOut.list
      ensures (f.data, ok) == WriteBlocks(old(f.data), old(f.pos), count, cfg.blockSize,
                old(dataOut.ram[..]), old(dataOut.list.items))
    {
      hide FileWrite;
      ghost var mem, bs := dataOut.ram[..], cfg.blockSize;
      ghost var goal := WriteBlocks(f.data, f.pos, count, bs, mem, dataOut.list.items);
      ghost var list := dataOut.list;
      for i := 0 to count
        invariant dataOut.Valid() && (dataOut.list == list || fresh(dataOut.list))
        invariant dataOut.ram[..] == mem
        invariant goal == WriteBlocks(f.data, f.pos, count - i, bs, mem, dataOut.list.items)
      {
        var d := dataOut.Read(cfg.blockSize);
        if d.Raises? || |d.result| != cfg.blockSize { return false; }
        f.Write(d.result);
      }
      ok := true;
    }

    method HandleWriteSame10(cdb: seq<byte>, dataOut: MultiReadBuffer?) returns (r: Outcome<Reply>)
      requires cfg.Valid() && (dataOut != null ==> dataOut.Valid())
      modifies f, dataOut, if dataOut == null then {} else {dataOut.list}
      ensures (f.data, r) == ExecWriteSame10(cfg, old(f.data), cdb,
                old(if dataOut == null then [] else dataOut.ram[..]), old(DataOut(dataOut)))
    {
      if |cdb| < 10 { return Returns(CheckCondition(INVALID_FIELD)); }
      var lba, xferLen := FromBe(cdb[2..6]), FromBe(cdb[7..9]);
      var lbdata, pbdata := Bits.And(cdb[1], 2), Bits.And(cdb[1], 4);
      if lbdata != 0 || pbdata != 0 { return Returns(CheckCondition(INVALID_FIELD)); }
      if dataOut == null { return Raises; }
      var d := dataOut.Read(cfg.blockSize);
      if d.Raises? || |d.result| != cfg.blockSize { return Raises; }
      f.Seek(lba * cfg.blockSize);
      RepeatBlock(d.result, xferLen);
      r := Returns(Good([]));
    }

    method RepeatBlock(d: seq<byte>, count: nat)
      modifies f
      ensures f.data == FillBlocks(old(f.data), old(f.pos), count, d)
    {
      ghost var goal := FillBlocks(f.data, f.pos, count, d);
      for i := 0 to count
        invariant goal == FillBlocks(f.data, f.pos, count - i, d)
      {
        f.Write(d);
      }
    }
  }

  lemma ReadStep(data: seq<byte>, start: nat, i: nat, bs: nat)
    ensures (i + 1) * bs == i * bs + bs
    ensures FileRead(data, start, (i + 1) * bs)
         == FileRead(data, start, i * bs) + FileRead(data, start + |FileRead(data, start, i * bs)|, bs)
  {
    var n := i * bs;
    assert (i + 1) * bs == n + bs;
    ReadMore(data, start, n, bs);
  }

  lemma ReadMore(data: seq<byte>, start: nat, n: nat, bs: nat)
    ensures FileRead(data, start, n + bs)
         == FileRead(data, start, n) + FileRead(data, start + |FileRead(data, start, n)|, bs)
  {
  }
}

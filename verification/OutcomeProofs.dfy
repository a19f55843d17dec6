/** How every SCSI command ends, in the numbers of SPC-3 and SBC-2: which commands a
    unit knows, which it refuses and with what sense data, and which raise. */
module OutcomeProofs {
  import Bits
  import opened Common
  import opened Bytes
  import opened Extents
  import opened Buffers
  import opened Scsi
  import opened DiskArray

  /** CHECK CONDITION with sense key ILLEGAL REQUEST: fixed-format sense data of
      18 bytes with the additional sense code in byte 12. */
  function Refusal(asc: byte): Reply {
    Reply(2, Some([0x70, 0, 5, 0, 0, 0, 0, 0, 0, 0, 0, 0, asc, 0, 0, 0, 0, 0]), [])
  }

  /** TEST UNIT READY, REQUEST SENSE, INQUIRY, READ CAPACITY(10) and READ(10);
      WRITE(10) and WRITE SAME(10) of a disk; READ TOC and GET CONFIGURATION of an
      optical unit. */
  predicate Supported(kind: UnitKind, op: byte) {
    || op == 0x00 || op == 0x03 || op == 0x12 || op == 0x25 || op == 0x28
    || (kind.Disk? && (op == 0x2A || op == 0x41))
    || (kind.Optical? && (op == 0x43 || op == 0x46))
  }

  /** Those of which the data is one of the constant pages. */
  predicate IsPage(kind: UnitKind, op: byte) {
    op == 0x12 || op == 0x25 || (kind.Optical? && (op == 0x43 || op == 0x46))
  }

  /** A refused command leaves the image and is remembered. */
  ghost predicate RefusedWith(u: UnitState, r: (UnitState, Outcome<Reply>), asc: byte) {
    r == (UnitState(u.image, Assigned(Refusal(asc).sense)), Returns(Refusal(asc)))
  }

  /** TEST UNIT READY reports GOOD, no sense data, no data. */
  lemma TestUnitReady(cfg: UnitConfig, u: UnitState, cdb: seq<byte>, mem: seq<byte>, out: Option<seq<MemoryExtent>>,
                      inLen: Option<nat>)
    requires |cdb| >= 6 && (out.Some? ==> InRam(out.value, |mem|)) && cdb[0] == 0x00
    ensures Execute(cfg, u, cdb, mem, out, inLen)
         == (UnitState(u.image, Assigned(None)), Returns(Reply(0, None, [])))
  {
  }

  /** An operation code the unit does not know is refused with 0x20, INVALID
      COMMAND OPERATION CODE. */
  lemma UnknownOpcode(cfg: UnitConfig, u: UnitState, cdb: seq<byte>, mem: seq<byte>, out: Option<seq<MemoryExtent>>,
                      inLen: Option<nat>)
    requires |cdb| >= 6 && (out.Some? ==> InRam(out.value, |mem|)) && !Supported(cfg.kind, cdb[0])
    ensures RefusedWith(u, Execute(cfg, u, cdb, mem, out, inLen), 0x20)
  {
  }

  /** A page is what the unit's encoder gives, with the image as it was. */
  lemma PageOutcome(cfg: UnitConfig, u: UnitState, cdb: seq<byte>, mem: seq<byte>, out: Option<seq<MemoryExtent>>,
                    inLen: Option<nat>)
    requires |cdb| >= 6 && (out.Some? ==> InRam(out.value, |mem|)) && IsPage(cfg.kind, cdb[0])
    ensures var r := Execute(cfg, u, cdb, mem, out, inLen);
      r.1 == cfg.pages(cdb, inLen) && r.0.image == u.image
  {
  }

  /** An unknown LUN is refused with 0x25, LOGICAL UNIT NOT SUPPORTED, and no unit
      changes. */
  lemma UnknownUnit(cfgs: map<nat, UnitConfig>, us: map<nat, UnitState>, lun: nat, cdb: seq<byte>, mem: seq<byte>,
                    out: Option<seq<MemoryExtent>>, inLen: Option<nat>)
    requires cfgs.Keys == us.Keys && |cdb| >= 6 && (out.Some? ==> InRam(out.value, |mem|)) && lun !in us
    ensures Route(cfgs, us, lun, cdb, mem, out, inLen) == (us, Returns(Refusal(0x25)))
  {
  }

  /** The CDB is too short, or has a bit set that asks for what the unit lacks:
      descriptor-format sense data, or LBDATA or PBDATA. */
  predicate BadField(cdb: seq<byte>)
    requires |cdb| >= 6
  {
    if cdb[0] == 0x03 then cdb[1] % 2 == 1
    else |cdb| < 10 || (cdb[0] == 0x41 && (cdb[1] / 2 % 2 == 1 || cdb[1] / 4 % 2 == 1))
  }

  /** The command raises: sense data is asked for before any command completed, or
      there is no room for data, or the data of a WRITE is missing or split. */
  ghost predicate CannotRun(cfg: UnitConfig, u: UnitState, cdb: seq<byte>, out: Option<seq<MemoryExtent>>,
                            inLen: Option<nat>)
    requires cfg.Valid() && |cdb| >= 6 && !BadField(cdb)
  {
    if cdb[0] == 0x03 then u.lastSense.Unassigned? || inLen.None?
    else
      var count := FromBe(cdb[7..9]);
      if cdb[0] == 0x28 then inLen.None? && count > 0
      else if cdb[0] == 0x2A then
        count > 0 && (out.None? || !BlocksFit(out.value, count * cfg.blockSize, cfg.blockSize))
      else out.None? || out.value == [] || out.value[0].len < cfg.blockSize
  }

  /** REQUEST SENSE, READ(10) and a disk's WRITE(10) and WRITE SAME(10) are refused
      with 0x24, INVALID FIELD IN CDB, exactly for a bad field, raise exactly when
      they cannot run, and report GOOD otherwise. What is refused or raises is not
      remembered as a success; and of these commands, only one that writes and is
      not refused touches the image. */
  lemma BlockOutcome(cfg: UnitConfig, u: UnitState, cdb: seq<byte>, mem: seq<byte>, out: Option<seq<MemoryExtent>>,
                     inLen: Option<nat>)
    requires cfg.Valid() && |cdb| >= 6 && (out.Some? ==> InRam(out.value, |mem|) && NonEmpty(out.value))
    requires cdb[0] == 0x03 || cdb[0] == 0x28 || (cfg.kind.Disk? && (cdb[0] == 0x2A || cdb[0] == 0x41))
    ensures var r := Execute(cfg, u, cdb, mem, out, inLen);
      && (if BadField(cdb) then RefusedWith(u, r, 0x24)
          else if CannotRun(cfg, u, cdb, out, inLen) then r.1 == Raises && r.0.lastSense == u.lastSense
          else
            && r.1.Returns? && r.1.result.status == 0 && r.1.result.sense == None && r.0.lastSense == Assigned(None)
            && (cdb[0] == 0x2A || cdb[0] == 0x41 ==> r.1.result.dataIn == []))
      && (cdb[0] == 0x03 || cdb[0] == 0x28 ==> r.0.image == u.image)
      && (cdb[0] == 0x41 && r.1.Raises? ==> r.0.image == u.image)
  {
    hide Bits.And;
    hide WriteBlocks;
    hide FillBlocks;
    hide BlocksFit;
    hide FileRead;
    hide Addrs;
    hide FromBe;
    Bits.LowBits(cdb[1]);
    if |cdb| >= 10 && cdb[0] == 0x2A && out.Some? {
      var bs, count := cfg.blockSize, Count(cdb);
      WriteSucceedsIff(u.image, BlockBytes(Lba(cdb), bs), count, bs, mem, out.value);
      NothingFits(out.value, bs);
    }
  }

  /** READ(10) of blocks in range reports them. */
  lemma ReadExecutes(cfg: UnitConfig, u: UnitState, cdb: seq<byte>, mem: seq<byte>, out: Option<seq<MemoryExtent>>,
                     room: nat, a: seq<Block>, tail: seq<byte>)
    requires cfg.Valid() && |cdb| >= 10 && (out.Some? ==> InRam(out.value, |mem|)) && cdb[0] == 0x28
    requires HoldsBlocks(u.image, a, cfg.blockSize, tail) && Lba(cdb) + Count(cdb) <= |a|
    ensures Execute(cfg, u, cdb, mem, out, Some(room))
         == (UnitState(u.image, Assigned(None)), Returns(Reply(0, None, Join(a[Lba(cdb)..Lba(cdb) + Count(cdb)]))))
  {
    hide HoldsBlocks;
    hide FileRead;
    hide Join;
    ReadGivesBlocks(u.image, a, cfg.blockSize, tail, Lba(cdb), Count(cdb));
  }

  /** A WRITE(10) in range whose data fits block by block stores its blocks; without
      any data it is one of no blocks. */
  lemma WriteExecutes(cfg: UnitConfig, u: UnitState, cdb: seq<byte>, mem: seq<byte>, es: seq<MemoryExtent>,
                      inLen: Option<nat>, a: seq<Block>, tail: seq<byte>)
    requires cfg.Valid() && cfg.kind.Disk? && |cdb| >= 10 && cdb[0] == 0x2A && InRam(es, |mem|) && NonEmpty(es)
    requires HoldsBlocks(u.image, a, cfg.blockSize, tail) && Lba(cdb) + Count(cdb) <= |a|
    requires BlocksFit(es, Count(cdb) * cfg.blockSize, cfg.blockSize)
    ensures Within(Addrs(es), |mem|)
    ensures var e := Execute(cfg, u, cdb, mem, if es == [] then None else Some(es), inLen);
      && e.1 == Returns(Reply(0, None, []))
      && HoldsBlocks(e.0.image, Overwrite(a, Lba(cdb), DataBlocks(mem, Addrs(es), Count(cdb), cfg.blockSize)),
                     cfg.blockSize, tail)
  {
    hide HoldsBlocks;
    hide BlocksFit;
    hide WriteBlocks;
    hide DataBlocks;
    hide Addrs;
    var bs, lba, count := cfg.blockSize, Lba(cdb), Count(cdb);
    AddrsWithin(es, |mem|);
    WriteSucceedsIff(u.image, BlockBytes(lba, bs), count, bs, mem, es);
    WriteStoresBlocks(u.image, a, tail, lba, count, bs, mem, es);
    if es == [] {
      NoDataFits(count, bs);
      NothingWritten(u.image, BlockBytes(lba, bs), count, bs, mem);
    }
  }

  lemma NoDataFits(count: nat, bs: nat)
    requires bs > 0
    ensures BlocksFit([], BlockBytes(count, bs), bs) ==> count == 0
  {
    if count > 0 { NextBlock(count - 1, bs); }
  }

  lemma NothingWritten(image: seq<byte>, pos: nat, count: nat, bs: nat, mem: seq<byte>)
    requires bs > 0
    ensures WriteBlocks(image, pos, count, bs, mem, []).0 == image
  {
  }

  /** A WRITE whose data does not fit leaves the disk as a WRITE of the `k` blocks
      that do would: it stops at the first block that is short or split. */
  lemma {:induction false} ShortWriteStops(image: seq<byte>, pos: nat, count: nat, bs: nat, mem: seq<byte>,
                                           es: seq<MemoryExtent>)
    returns (k: nat)
    requires bs > 0 && InRam(es, |mem|) && NonEmpty(es) && !BlocksFit(es, count * bs, bs)
    ensures k < count && BlocksFit(es, k * bs, bs) && !BlocksFit(es, (k + 1) * bs, bs)
    ensures WriteBlocks(image, pos, count, bs, mem, es) == (WriteBlocks(image, pos, k, bs, mem, es).0, false)
    decreases count
  {
    hide BlocksFit;
    hide FileWrite;
    hide Addrs;
    WriteSucceedsIff(image, pos, count, bs, mem, es);
    assert count > 0;
    if Taken(es, bs) != bs {
      k := 0;
      NothingFits(es, bs);
      ShortFirstExtent(es, bs, bs);
      assert 0 * bs == 0 && 1 * bs == bs;
    } else {
      AddrsWithin(es, |mem|);
      AfterReadAddrs(es, bs);
      AfterReadInRam(es, bs, |mem|);
      FitMore(es, count - 1, bs);
      k := ShortWriteStops(FileWrite(image, pos, ReadAll(mem, Addrs(es)[..bs])), pos + bs, count - 1, bs, mem,
                           AfterRead(es, bs));
      FitMore(es, k, bs);
      FitMore(es, k + 1, bs);
      k := k + 1;
    }
  }

  /** One block more behind a first one that fits. */
  lemma FitMore(es: seq<MemoryExtent>, n: nat, bs: nat)
    requires bs > 0 && NonEmpty(es) && Taken(es, bs) == bs
    ensures NonEmpty(AfterRead(es, bs))
    ensures BlocksFit(es, (n + 1) * bs, bs) <==> BlocksFit(AfterRead(es, bs), n * bs, bs)
  {
    hide BlocksFit;
    NextBlock(n, bs);
    FitStep(es, BlockBytes(n + 1, bs), bs);
  }
}

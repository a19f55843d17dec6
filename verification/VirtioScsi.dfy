/** The virtio-scsi device as its methods change it (iodev_virtio.py,
    `VirtioScsiBar0`), over guest memory and the SCSI subsystem. */
module VirtioScsi {
  import Bits
  import opened Common
  import opened Bytes
  import opened Extents
  import opened Buffers
  import opened GuestMap
  import opened MemMgr
  import opened Scsi
  import opened VirtQueue
  import opened ChainProofs

  class ScsiSubsystem {
    const luns: map<nat, LogicalUnit>

    constructor (luns: map<nat, LogicalUnit>)
      ensures this.luns == luns
    {
      this.luns := luns;
    }

    /** Every unit has its own image. */
    ghost predicate Valid() {
      && (forall k :: k in luns ==> luns[k].cfg.Valid())
      && (forall j, k :: j in luns && k in luns && j != k ==> luns[j] != luns[k] && luns[j].f != luns[k].f)
    }

    ghost function Units(): set<LogicalUnit> { set k | k in luns :: luns[k] }

    ghost function Images(): set<ImageFile> { set k | k in luns :: luns[k].f }

    ghost function Configs(): map<nat, UnitConfig> { map k | k in luns :: luns[k].cfg }

    ghost function States(): (us: map<nat, UnitState>)
      reads Units(), Images()
      ensures us.Keys == luns.Keys
    {
      map k | k in luns :: luns[k].State()
    }

    method ExecuteCommand(lun: nat, cdb: seq<byte>, dataOut: MultiReadBuffer?, inLen: Option<nat>)
      returns (r: Outcome<Reply>)
      requires Valid() && |cdb| >= 6 && (dataOut != null ==> dataOut.Valid())
      modifies Units(), Images(), dataOut, if dataOut == null then {} else {dataOut.list}
      ensures (States(), r) == Route(Configs(), old(States()), lun, cdb,
                old(if dataOut == null then [] else dataOut.ram[..]), old(DataOut(dataOut)), inLen)
    {
      hide Execute;
      if lun !in luns { return Returns(CheckCondition(UNSUPPORTED_UNIT)); }
      ghost var before := States();
      r := luns[lun].ExecuteCommand(cdb, dataOut, inLen);
      assert States() == before[lun := luns[lun].State()];
    }
  }

  /** How a method of the device ends. `Stuck` stands for never returning. */
  datatype Exit = Done | Raised | Stuck

  function Ending(e: Exit, st: St): Ended {
    match e
    case Done => Ok(st)
    case Raised => Fails(st)
    case Stuck => Hangs(st)
  }

  datatype History = History(heads: seq<nat>, done: seq<Completion>, dropped: seq<nat>, unposted: seq<Completion>)

  /** `[x] * n` */
  function Filled<T>(n: nat, x: T): (s: seq<T>)
    ensures |s| == n && forall i :: 0 <= i < n ==> s[i] == x
  {
    seq(n, _ => x)
  }

  class VirtioScsiBar0 {
    const mem: MemoryManager
    const scsi: ScsiSubsystem
    const maxQueueLens: seq<nat>
    var queueLens: seq<nat>
    var queueEnables: seq<bool>
    var queueDescriptorAreas: seq<nat>
    var queueDriverAreas: seq<nat>
    var queueDeviceAreas: seq<nat>
    var queueAvailIdx: seq<Index>
    var queueUsedIdx: seq<Index>
    var scsiSenseLen: nat
    var scsiCdbLen: nat
    var isrStatus: nat
    /** The level last given to `setIrqLine` for the device's line. */
    var irqLine: bool
    /** What happened to each queue since the last reset. */
    ghost var history: seq<History>

    ghost predicate Valid()
      reads this, mem, mem.made
    {
      && mem.Valid() && scsi.Valid()
      && |maxQueueLens| == |queueLens| == |queueEnables| == |queueDescriptorAreas| == |queueDriverAreas|
         == |queueDeviceAreas| == |queueAvailIdx| == |queueUsedIdx| == |history|
    }

    ghost function QueueEnv(q: nat): (env: Env)
      requires Valid() && q < |queueLens|
      reads this, mem, mem.made
      ensures SlotsInRam(env.slots, mem.ram.Length)
    {
      Env(mem.Ranges(), queueLens[q], queueDescriptorAreas[q], queueDriverAreas[q], queueDeviceAreas[q],
          scsiCdbLen, scsiSenseLen, scsi.Configs())
    }

    ghost function QueueState(q: nat): (st: St)
      requires Valid() && q < |queueLens|
      reads this, mem, mem.made, mem.ram, scsi.Units(), scsi.Images()
      ensures WellFormed(QueueEnv(q), st)
    {
      St(mem.ram[..], scsi.States(), queueAvailIdx[q], queueUsedIdx[q], isrStatus, irqLine,
         history[q].heads, history[q].done, history[q].dropped, history[q].unposted)
    }

    /** The other queues' counters and histories are as they were. */
    twostate predicate OthersKept(q: nat)
      reads this
    {
      && |queueAvailIdx| == old(|queueAvailIdx|) && |queueUsedIdx| == old(|queueUsedIdx|) && |history| == old(|history|)
      && (forall i :: 0 <= i < |queueAvailIdx| && i != q ==> queueAvailIdx[i] == old(queueAvailIdx[i]))
      && (forall i :: 0 <= i < |queueUsedIdx| && i != q ==> queueUsedIdx[i] == old(queueUsedIdx[i]))
      && (forall i :: 0 <= i < |history| && i != q ==> history[i] == old(history[i]))
    }

    constructor (mem: MemoryManager, scsi: ScsiSubsystem, maxQueueLens: seq<nat>)
      requires mem.Valid() && scsi.Valid()
      ensures Valid() && this.mem == mem && this.scsi == scsi && this.maxQueueLens == maxQueueLens
      ensures isrStatus == 0 && !irqLine && queueLens == maxQueueLens && scsiSenseLen == 96 && scsiCdbLen == 32
      ensures forall i :: 0 <= i < |queueLens| ==>
        history[i] == History([], [], [], []) && queueAvailIdx[i] == queueUsedIdx[i] == 0
    {
      this.mem, this.scsi, this.maxQueueLens := mem, scsi, maxQueueLens;
      scsiSenseLen, scsiCdbLen, isrStatus, irqLine := 96, 32, 0, false;
      var n := |maxQueueLens|;
      queueLens, queueEnables := maxQueueLens, Filled(n, false);
      queueDescriptorAreas, queueDriverAreas, queueDeviceAreas := Filled(n, 0), Filled(n, 0), Filled(n, 0);
      queueAvailIdx, queueUsedIdx := Filled(n, 0), Filled(n, 0);
      history := Filled(n, History([], [], [], []));
    }

    // ---- Registers ----------------------------------------------------------

    /** `_reset` forgets the queues but neither the ISR nor the interrupt. */
    method Reset()
      requires Valid()
      modifies this`queueLens, this`queueEnables, this`queueDescriptorAreas, this`queueDriverAreas
      modifies this`queueDeviceAreas, this`queueAvailIdx, this`queueUsedIdx, this`history
      ensures Valid() && queueLens == maxQueueLens && forall i :: 0 <= i < |queueLens| ==> !queueEnables[i]
      ensures forall q: nat :: q < |queueLens| ==>
        && QueueEnv(q) == old(QueueEnv(q)).(qlen := maxQueueLens[q], desc := 0, driver := 0, device := 0)
        && QueueState(q) == old(QueueState(q)).(avail := 0, used := 0, heads := [], done := [], dropped := [],
                                                unposted := [])
    {
      hide MemoryManager.Valid;
      hide MemoryManager.Ranges;
      hide ScsiSubsystem.Valid;
      hide VirtioScsiBar0.QueueEnv;
      hide VirtioScsiBar0.QueueState;
      ClearQueues();
      forall q: nat | q < |queueLens|
        ensures QueueEnv(q) == old(QueueEnv(q)).(qlen := maxQueueLens[q], desc := 0, driver := 0, device := 0)
        ensures QueueState(q) == old(QueueState(q)).(avail := 0, used := 0, heads := [], done := [], dropped := [],
                                                     unposted := [])
      {
        ResetQueue(q);
      }
    }

    method ClearQueues()
      requires Valid()
      modifies this`queueLens, this`queueEnables, this`queueDescriptorAreas, this`queueDriverAreas
      modifies this`queueDeviceAreas, this`queueAvailIdx, this`queueUsedIdx, this`history
      ensures Valid() && queueLens == maxQueueLens
      ensures forall i :: 0 <= i < |queueLens| ==> !queueEnables[i]
      ensures forall i :: 0 <= i < |queueLens| ==>
        queueDescriptorAreas[i] == queueDriverAreas[i] == queueDeviceAreas[i] == 0
      ensures forall i :: 0 <= i < |queueLens| ==>
        queueAvailIdx[i] == queueUsedIdx[i] == 0 && history[i] == History([], [], [], [])
    {
      hide MemoryManager.Valid;
      hide ScsiSubsystem.Valid;
      var n := |maxQueueLens|;
      queueLens, queueEnables := maxQueueLens, Filled(n, false);
      queueDescriptorAreas, queueDriverAreas, queueDeviceAreas := Filled(n, 0), Filled(n, 0), Filled(n, 0);
      queueAvailIdx, queueUsedIdx := Filled(n, 0), Filled(n, 0);
      history := Filled(n, History([], [], [], []));
    }

    twostate lemma ResetQueue(q: nat)
      requires old(Valid()) && Valid() && q < |queueLens|
      requires mem.Ranges() == old(mem.Ranges()) && mem.ram[..] == old(mem.ram[..])
      requires scsi.States() == old(scsi.States()) && isrStatus == old(isrStatus) && irqLine == old(irqLine)
      requires scsiCdbLen == old(scsiCdbLen) && scsiSenseLen == old(scsiSenseLen)
      requires queueLens[q] == maxQueueLens[q] && history[q] == History([], [], [], [])
      requires queueDescriptorAreas[q] == queueDriverAreas[q] == queueDeviceAreas[q] == 0
      requires queueAvailIdx[q] == queueUsedIdx[q] == 0
      ensures QueueEnv(q) == old(QueueEnv(q)).(qlen := maxQueueLens[q], desc := 0, driver := 0, device := 0)
      ensures QueueState(q) == old(QueueState(q)).(avail := 0, used := 0, heads := [], done := [], dropped := [],
                                                   unposted := [])
    {
      hide MemoryManager.Valid;
      hide MemoryManager.Ranges;
      hide ScsiSubsystem.Valid;
      hide ScsiSubsystem.States;
    }

    /** A queue's length never exceeds its maximum; other queues and a selector
        out of range are left alone. */
    method SetQueueLen(queueNo: nat, v: nat)
      requires Valid()
      modifies this`queueLens
      ensures Valid()
      ensures queueLens ==
        if queueNo < |old(queueLens)| then old(queueLens)[queueNo := Min(v, maxQueueLens[queueNo])] else old(queueLens)
    {
      if queueNo >= |queueLens| { return; }
      queueLens := queueLens[queueNo := Min(v, maxQueueLens[queueNo])];
    }

    method SetQueueEnable(queueNo: nat, v: nat)
      requires Valid()
      modifies this`queueEnables
      ensures Valid()
      ensures queueEnables == if queueNo < |queueLens| then old(queueEnables)[queueNo := v != 0] else old(queueEnables)
    {
      if queueNo >= |queueEnables| { return; }
      queueEnables := queueEnables[queueNo := v != 0];
    }

    method SetQueueDescriptorArea(queueNo: nat, v: nat)
      requires Valid()
      modifies this`queueDescriptorAreas
      ensures Valid()
      ensures queueDescriptorAreas ==
        if queueNo < |queueLens| then old(queueDescriptorAreas)[queueNo := v] else old(queueDescriptorAreas)
    {
      if queueNo >= |queueEnables| { return; }
      queueDescriptorAreas := queueDescriptorAreas[queueNo := v];
    }

    method SetQueueDriverArea(queueNo: nat, v: nat)
      requires Valid()
      modifies this`queueDriverAreas
      ensures Valid()
      ensures queueDriverAreas ==
        if queueNo < |queueLens| then old(queueDriverAreas)[queueNo := v] else old(queueDriverAreas)
    {
      if queueNo >= |queueEnables| { return; }
      queueDriverAreas := queueDriverAreas[queueNo := v];
    }

    method SetQueueDeviceArea(queueNo: nat, v: nat)
      requires Valid()
      modifies this`queueDeviceAreas
      ensures Valid()
      ensures queueDeviceAreas ==
        if queueNo < |queueLens| then old(queueDeviceAreas)[queueNo := v] else old(queueDeviceAreas)
    {
      if queueNo >= |queueEnables| { return; }
      queueDeviceAreas := queueDeviceAreas[queueNo := v];
    }

    method UpdateIntr()
      modifies this`irqLine
      ensures irqLine == (isrStatus != 0)
    {
      irqLine := isrStatus != 0;
    }

    method AssertQueueIntr()
      modifies this`isrStatus, this`irqLine
      ensures isrStatus == Bits.Or(old(isrStatus), 1) && irqLine
    {
      isrStatus := Bits.Or(isrStatus, 1);
      UpdateIntr();
    }

    /** Reading the ISR register clears it and lowers the line. */
    method ReadIsr() returns (v: nat)
      modifies this`isrStatus, this`irqLine
      ensures v == old(isrStatus) && isrStatus == 0 && !irqLine
    {
      v := isrStatus;
      isrStatus := 0;
      UpdateIntr();
    }

    // ---- The queue ------------------------------------------------------------

    method OnNotify(queueIdx: nat) returns (e: Exit)
      requires Valid()
      modifies this`queueAvailIdx, this`queueUsedIdx, this`isrStatus, this`irqLine, this`history
      modifies mem.ram, scsi.Units(), scsi.Images()
      ensures Valid()
      ensures if queueIdx < |queueLens| then
                && Notify(old(QueueEnv(queueIdx)), old(QueueState(queueIdx))) == Ending(e, QueueState(queueIdx))
                && OthersKept(queueIdx)
                // The other queues see shared state change, and nothing else.
                && forall i: nat :: i < |queueLens| && i != queueIdx ==>
                     && QueueEnv(i) == old(QueueEnv(i))
                     && QueueState(i) == old(QueueState(i)).(mem := mem.ram[..], units := scsi.States(),
                                                             isr := isrStatus, line := irqLine)
              else
                && e == Done && unchanged(this)
                && unchanged(mem.ram) && unchanged(scsi.Units()) && unchanged(scsi.Images())
    {
      if queueIdx >= |queueLens| { return Done; }
      e := SyncProcessAvail(queueIdx);
    }

    method SyncProcessAvail(queueNo: nat) returns (e: Exit)
      requires Valid() && queueNo < |queueLens|
      modifies this`queueAvailIdx, this`queueUsedIdx, this`isrStatus, this`irqLine, this`history
      modifies mem.ram, scsi.Units(), scsi.Images()
      ensures Valid() && QueueEnv(queueNo) == old(QueueEnv(queueNo))
      ensures Notify(old(QueueEnv(queueNo)), old(QueueState(queueNo))) == Ending(e, QueueState(queueNo))
      ensures OthersKept(queueNo)
    {
      hide Drain;
      hide ReadBack;
      hide WellFormed;
      hide RingIndex;
      hide VirtioScsiBar0.QueueEnv;
      hide VirtioScsiBar0.QueueState;
      hide MemoryManager.Valid;
      hide MemoryManager.Ranges;
      hide ScsiSubsystem.Valid;
      EnvAndState(queueNo);
      var queueLen := queueLens[queueNo];
      var avails := mem.Read(queueDriverAreas[queueNo], 2 + 2 + 2 * queueLen + 2);
      if avails.Unmapped? { return Done; }
      if avails.TooLong? { return Raised; }
      var availIdx := RingIndex(avails.bytes, queueLen);
      e := DrainRing(queueNo, avails.bytes, availIdx);
      if e.Done? { SaveAvail(queueNo, availIdx); }
    }

    /** What the queue's environment and state are made of. */
    lemma EnvAndState(queueNo: nat)
      requires Valid() && queueNo < |queueLens|
      ensures var env, st := QueueEnv(queueNo), QueueState(queueNo);
        && env.slots == mem.Ranges() && env.qlen == queueLens[queueNo] && env.driver == queueDriverAreas[queueNo]
        && env.desc == queueDescriptorAreas[queueNo] && env.device == queueDeviceAreas[queueNo]
        && st.mem == mem.ram[..] && st.avail == queueAvailIdx[queueNo] && st.used == queueUsedIdx[queueNo]
        && st.heads == history[queueNo].heads && st.done == history[queueNo].done
        && st.dropped == history[queueNo].dropped && st.unposted == history[queueNo].unposted
    {
    }

    method SaveAvail(queueNo: nat, availIdx: Index)
      requires Valid() && queueNo < |queueLens|
      modifies this`queueAvailIdx
      ensures Valid() && QueueEnv(queueNo) == old(QueueEnv(queueNo)) && OthersKept(queueNo)
      ensures QueueState(queueNo) == old(QueueState(queueNo)).(avail := availIdx)
    {
      hide MemoryManager.Valid;
      hide MemoryManager.Ranges;
      hide ScsiSubsystem.Valid;
      queueAvailIdx := queueAvailIdx[queueNo := availIdx];
    }

    ghost method Record(queueNo: nat, h: History)
      requires Valid() && queueNo < |queueLens|
      modifies this`history
      ensures Valid() && QueueEnv(queueNo) == old(QueueEnv(queueNo)) && OthersKept(queueNo)
      ensures history[queueNo] == h
      ensures QueueState(queueNo) == old(QueueState(queueNo)).(heads := h.heads, done := h.done, dropped := h.dropped,
                                                               unposted := h.unposted)
    {
      hide MemoryManager.Valid;
      hide MemoryManager.Ranges;
      hide ScsiSubsystem.Valid;
      history := history[queueNo := h];
    }

    /** The loop of `_syncProcessAvail` over the snapshot of the ring. */
    method DrainRing(queueNo: nat, ring: seq<byte>, availIdx: Index) returns (e: Exit)
      requires Valid() && queueNo < |queueLens| && |ring| == RingLen(queueLens[queueNo])
      modifies this`queueUsedIdx, this`isrStatus, this`irqLine, this`history, mem.ram, scsi.Units(), scsi.Images()
      ensures Valid() && QueueEnv(queueNo) == old(QueueEnv(queueNo))
      ensures Drain(old(QueueEnv(queueNo)), old(QueueState(queueNo)), ring, queueAvailIdx[queueNo], availIdx)
           == if e.Done? then Ok(QueueState(queueNo).(avail := availIdx)) else Ending(e, QueueState(queueNo))
      ensures OthersKept(queueNo)
    {
      ghost var env := QueueEnv(queueNo);
      var queueLen := queueLens[queueNo];
      var cur: Index := queueAvailIdx[queueNo];
      assert env.qlen == queueLen;
      hide Drain;
      hide RingEntry;
      hide Behind;
      hide ProcessHead;
      hide WellFormed;
      hide VirtioScsiBar0.QueueEnv;
      hide VirtioScsiBar0.QueueState;
      hide MemoryManager.Valid;
      hide ScsiSubsystem.Valid;
      ghost var goal := Drain(env, QueueState(queueNo), ring, cur, availIdx);
      while cur != availIdx
        invariant Valid() && QueueEnv(queueNo) == env
        invariant goal == Drain(env, QueueState(queueNo), ring, cur, availIdx)
        invariant OthersKept(queueNo)
        decreases Behind(cur, availIdx)
      {
        DrainUnfold(env, QueueState(queueNo), ring, cur, availIdx);
        if queueLen == 0 { return Raised; }
        var headDescIdx := RingEntry(ring, queueLen, cur);
        BehindNext(cur, availIdx);
        cur := (cur + 1) % INDEX_SPAN;
        e := SyncProcessDescriptor(queueNo, headDescIdx);
        if !e.Done? { return; }
      }
      DrainUnfold(env, QueueState(queueNo), ring, cur, availIdx);
      e := Done;
    }

    method SyncProcessDescriptor(queueNo: nat, headDescIdx: nat) returns (e: Exit)
      requires Valid() && queueNo < |queueLens|
      modifies this`queueUsedIdx, this`isrStatus, this`irqLine, this`history, mem.ram, scsi.Units(), scsi.Images()
      ensures Valid() && QueueEnv(queueNo) == old(QueueEnv(queueNo))
      ensures ProcessHead(old(QueueEnv(queueNo)), old(QueueState(queueNo)), headDescIdx)
             == Ending(e, QueueState(queueNo))
      ensures OthersKept(queueNo)
    {
      hide ServeChain;
      hide Walk;
      hide VirtioScsiBar0.QueueEnv;
      hide VirtioScsiBar0.QueueState;
      hide MemoryManager.Valid;
      hide MemoryManager.Ranges;
      hide ScsiSubsystem.Valid;
      hide ScsiSubsystem.States;
      ghost var env, st0 := QueueEnv(queueNo), QueueState(queueNo);
      EnvAndState(queueNo);
      Record(queueNo, history[queueNo].(heads := history[queueNo].heads + [headDescIdx]));
      WalkInRam(env, st0.mem, headDescIdx, {}, [], []);
      var walk := WalkChain(mem, queueLens[queueNo], queueDescriptorAreas[queueNo], headDescIdx, env);
      match walk {
        case Endless => return Stuck;
        case Dropped =>
          Record(queueNo, history[queueNo].(dropped := history[queueNo].dropped + [headDescIdx]));
          return Done;
        case Failed => return Raised;
        case Chain(rd, wr) =>
          var raised := RunChain(queueNo, headDescIdx, rd, wr);
          e := if raised then Raised else Done;
      }
    }

    /** The part of `_syncProcessDescriptor` behind the walk. */
    method RunChain(queueNo: nat, headDescIdx: nat, readBufs: seq<MemoryExtent>, writeBufs: seq<MemoryExtent>)
      returns (raised: bool)
      requires Valid() && queueNo < |queueLens| && InRam(readBufs, mem.ram.Length) && InRam(writeBufs, mem.ram.Length)
      modifies this`queueUsedIdx, this`isrStatus, this`irqLine, this`history, mem.ram, scsi.Units(), scsi.Images()
      ensures Valid() && QueueEnv(queueNo) == old(QueueEnv(queueNo))
      ensures ServeChain(old(QueueEnv(queueNo)), old(QueueState(queueNo)), headDescIdx, readBufs, writeBufs)
           == if raised then Fails(QueueState(queueNo)) else Ok(QueueState(queueNo))
      ensures OthersKept(queueNo)
    {
      hide Serve;
      hide Post;
      hide RequestOf;
      hide MemoryManager.Valid;
      hide MemoryManager.Ranges;
      hide ScsiSubsystem.Valid;
      hide ScsiSubsystem.States;
      ghost var env, st0 := QueueEnv(queueNo), QueueState(queueNo);
      var written;
      raised, written := ServeBuffers(scsi, mem.ram, readBufs, writeBufs, scsiCdbLen, scsiSenseLen, env);
      if raised { return; }
      assert ServeChain(env, st0, headDescIdx, readBufs, writeBufs)
          == Post(QueueEnv(queueNo), QueueState(queueNo), Completion(headDescIdx, written, Addrs(writeBufs)));
      hide ServeChain;
      raised := SyncProcessUsed(queueNo, headDescIdx, written, Addrs(writeBufs));
    }

    method SyncProcessUsed(queueNo: nat, headDescIdx: nat, totalWritten: nat, ghost addrs: seq<nat>)
      returns (raised: bool)
      requires Valid() && queueNo < |queueLens|
      modifies this`queueUsedIdx, this`isrStatus, this`irqLine, this`history, mem.ram
      ensures Valid() && QueueEnv(queueNo) == old(QueueEnv(queueNo))
      ensures Post(old(QueueEnv(queueNo)), old(QueueState(queueNo)), Completion(headDescIdx, totalWritten, addrs))
           == if raised then Fails(QueueState(queueNo)) else Ok(QueueState(queueNo))
      ensures OthersKept(queueNo)
    {
      hide PostedMem;
      hide EntryOf;
      hide SlotOffset;
      hide ToLe;
      hide Limit;
      hide Bits.Or;
      hide MemoryManager.Valid;
      hide MemoryManager.Ranges;
      hide ScsiSubsystem.Valid;
      hide VirtioScsiBar0.QueueEnv;
      EnvAndState(queueNo);
      ghost var env, c := QueueEnv(queueNo), Completion(headDescIdx, totalWritten, addrs);
      var queueLen, curUsedIdx := queueLens[queueNo], queueUsedIdx[queueNo];
      if queueLen == 0 || headDescIdx >= Limit(4) || totalWritten >= Limit(4) {
        Record(queueNo, history[queueNo].(unposted := history[queueNo].unposted + [c]));
        return true;
      }
      WriteUsed(mem, queueLen, queueDeviceAreas[queueNo], curUsedIdx, headDescIdx, totalWritten, env, c);
      SavePosted(queueNo, (curUsedIdx + 1) % INDEX_SPAN, c);
      raised := false;
    }

    method SavePosted(queueNo: nat, usedIdx: Index, ghost c: Completion)
      requires Valid() && queueNo < |queueLens|
      modifies this`queueUsedIdx, this`isrStatus, this`irqLine, this`history
      ensures Valid() && QueueEnv(queueNo) == old(QueueEnv(queueNo)) && OthersKept(queueNo)
      ensures var st := old(QueueState(queueNo));
        QueueState(queueNo) == st.(used := usedIdx, isr := Bits.Or(st.isr, 1), line := true, done := st.done + [c])
    {
      hide Bits.Or;
      hide MemoryManager.Valid;
      hide MemoryManager.Ranges;
      hide ScsiSubsystem.Valid;
      queueUsedIdx := queueUsedIdx[queueNo := usedIdx];
      history := history[queueNo := history[queueNo].(done := history[queueNo].done + [c])];
      AssertQueueIntr();
    }
  }

  // ---- The steps that need no queue -------------------------------------------

  /** The two writes to the used ring: entry first, then index. */
  method WriteUsed(mem: MemoryManager, queueLen: nat, pUsedRing: nat, curUsedIdx: Index, headDescIdx: nat,
                   totalWritten: nat, ghost env: Env, ghost c: Completion)
    requires mem.Valid() && env.slots == mem.Ranges() && env.device == pUsedRing && queueLen > 0
    requires c.head == headDescIdx && c.written == totalWritten
    modifies mem.ram
    ensures mem.ram[..] == PostedMem(env, old(mem.ram[..]), SlotOffset(queueLen, curUsedIdx), EntryOf(c),
                                     ToLe((curUsedIdx + 1) % INDEX_SPAN, 2))
  {
    hide Written;
    hide Resolve;
    hide MemoryManager.Valid;
    hide MemoryManager.Ranges;
    var w := mem.Write(pUsedRing + 2 + 2 + 8 * (curUsedIdx % queueLen), ToLe(headDescIdx, 4) + ToLe(totalWritten, 4));
    w := mem.Write(pUsedRing + 2, ToLe((curUsedIdx + 1) % INDEX_SPAN, 2));
  }

  /** Wraps the chain's buffers and serves the request. */
  method ServeBuffers(scsi: ScsiSubsystem, ram: array<byte>, readBufs: seq<MemoryExtent>, writeBufs: seq<MemoryExtent>,
                      cdbLen: nat, senseLen: nat, ghost env: Env) returns (raised: bool, written: nat)
    requires scsi.Valid() && env.units == scsi.Configs() && env.cdbLen == cdbLen && env.senseLen == senseLen
    requires InRam(readBufs, ram.Length) && InRam(writeBufs, ram.Length)
    modifies ram, scsi.Units(), scsi.Images()
    ensures var mem, req := old(ram[..]), RequestOf(env, old(ram[..]), readBufs);
      if raised then req.None? && ram[..] == mem && scsi.States() == old(scsi.States())
      else
        && req.Some?
        && Serve(env, mem, old(scsi.States()), req.value, readBufs, writeBufs) == (ram[..], scsi.States(), written)
  {
    hide Serve;
    hide RequestOf;
    hide Addrs;
    hide ScsiSubsystem.Valid;
    hide ScsiSubsystem.States;
    var rlist := new ExtentList(readBufs);
    var wlist := new ExtentList(writeBufs);
    var rbuf := new MultiReadBuffer(ram, rlist);
    var wbuf := new MultiWriteBuffer(ram, wlist);
    var wbufLen := wbuf.Remaining();
    raised := SyncProcessBuffers(scsi, rbuf, wbuf, cdbLen, senseLen, env);
    if raised { return true, 0; }
    var left := wbuf.Remaining();
    written := wbufLen - left;
  }

  /** Runs the request in `rbuf` and writes the reply through `wbuf`. */
  method SyncProcessBuffers(scsi: ScsiSubsystem, rbuf: MultiReadBuffer, wbuf: MultiWriteBuffer, cdbLen: nat,
                            senseLen: nat, ghost env: Env)
    returns (raised: bool)
    requires scsi.Valid() && env.units == scsi.Configs() && env.cdbLen == cdbLen && env.senseLen == senseLen
    requires rbuf.ram == wbuf.ram && rbuf.list != wbuf.list && rbuf.Valid() && wbuf.Valid()
    modifies rbuf, rbuf.list, wbuf, wbuf.list, wbuf.ram, scsi.Units(), scsi.Images()
    ensures var ram, req := old(wbuf.ram[..]), RequestOf(env, old(wbuf.ram[..]), old(rbuf.list.items));
      if raised then req.None? && wbuf.ram[..] == ram && scsi.States() == old(scsi.States())
      else
        && req.Some?
        && Serve(env, ram, old(scsi.States()), req.value, old(rbuf.list.items), old(wbuf.list.items))
           == (wbuf.ram[..], scsi.States(), |Addrs(old(wbuf.list.items))| - |Addrs(wbuf.list.items)|)
  {
    hide CommandOutcome;
    hide Response;
    hide Addrs;
    hide WriteAll;
    hide RequestOf;
    hide AfterRead;
    hide ScsiSubsystem.Valid;
    hide ScsiSubsystem.States;
    ghost var rd, wr := rbuf.list.items, wbuf.list.items;
    var req := ReadRequest(rbuf, cdbLen, env);
    if req.None? { return true; }
    var room := wbuf.Remaining();
    var res := RunCommand(scsi, rbuf, room, req.value, env, rd, wr);
    WriteReply(wbuf, res, senseLen);
    raised := false;
  }

  /** Picks the request apart and runs its command on what is left of `rbuf`. */
  method RunCommand(scsi: ScsiSubsystem, rbuf: MultiReadBuffer, room: nat, req: seq<byte>,
                    ghost env: Env, ghost rd: seq<MemoryExtent>, ghost wr: seq<MemoryExtent>)
    returns (res: Outcome<Reply>)
    requires scsi.Valid() && env.units == scsi.Configs() && rbuf.Valid() && InRam(rd, rbuf.ram.Length)
    requires |req| == HEADER_LEN + env.cdbLen && env.cdbLen >= 6 && room == |Addrs(wr)|
    requires rbuf.list.items == AfterRead(rd, |req|)
    modifies rbuf, rbuf.list, scsi.Units(), scsi.Images()
    ensures (scsi.States(), res) == CommandOutcome(env, old(rbuf.ram[..]), old(scsi.States()), req, rd, wr)
  {
    hide Route;
    hide Addrs;
    hide AfterRead;
    hide FromBe;
    hide FromLe;
    hide ScsiSubsystem.Valid;
    hide ScsiSubsystem.States;
    var lun, id := FromBe(req[0..8]), FromLe(req[8..16]);
    var cdb := req[19..];
    var outLeft := rbuf.Remaining();
    var dataOut: MultiReadBuffer? := if outLeft > 0 then rbuf else null;
    NoDataOut(env, rbuf.ram[..], scsi.States(), lun, cdb, NonZero(room));
    res := scsi.ExecuteCommand(lun, cdb, dataOut, NonZero(room));
  }

  /** Without data-out, memory does not matter to a command. */
  lemma NoDataOut(env: Env, mem: seq<byte>, units: map<nat, UnitState>, lun: nat, cdb: seq<byte>, inLen: Option<nat>)
    requires env.units.Keys == units.Keys && |cdb| >= 6
    ensures Route(env.units, units, lun, cdb, mem, None, inLen) == Route(env.units, units, lun, cdb, [], None, inLen)
  {
  }

  /** One read for the whole header and CDB; a short request, and one that the
      command's constructor refuses, raise. */
  method ReadRequest(rbuf: MultiReadBuffer, cdbLen: nat, ghost env: Env) returns (r: Option<seq<byte>>)
    requires rbuf.Valid() && env.cdbLen == cdbLen
    modifies rbuf, rbuf.list
    ensures rbuf.Valid() && (rbuf.list == old(rbuf.list) || fresh(rbuf.list))
    ensures r == RequestOf(env, rbuf.ram[..], old(rbuf.list.items))
    ensures r.Some? ==> rbuf.list.items == AfterRead(old(rbuf.list.items), |r.value|)
  {
    hide Addrs;
    var reqL := 8 + 8 + 1 + 1 + 1 + cdbLen;
    var got := rbuf.Read(reqL);
    if got.Raises? || |got.result| < reqL { return None; }
    var req := got.result;
    var taskAttr, priority := req[16], req[17];
    if cdbLen < 6 || taskAttr > 3 || priority > 15 { return None; }
    r := Some(req);
  }

  /** Reads one descriptor and resolves its buffer. */
  method VisitDescriptor(mem: MemoryManager, queueLen: nat, pDescriptors: nat, idx: nat, ghost env: Env)
    returns (v: Visit)
    requires mem.Valid() && env.slots == mem.Ranges() && env.qlen == queueLen && env.desc == pDescriptors
    ensures v == VisitAt(env, mem.ram[..], idx)
  {
    hide MemoryManager.Valid;
    hide MemoryManager.Ranges;
    hide ReadBack;
    hide Resolve;
    if idx >= queueLen { return Drop; }
    var descBuf := mem.Read(pDescriptors + 16 * (idx % queueLen), 16);
    if descBuf.Unmapped? { return Drop; }
    if descBuf.TooLong? { return Fail; }
    var d := Decode(descBuf.bytes);
    if Bits.And(d.flags, DESC_F_INDIRECT) != 0 { return Fail; }
    var extents := mem.ResolveExtents(d.addr, d.len);
    v := if extents.None? then Fail else Piece(d, extents.value);
  }

  /** The descriptor loop. The source's has no bound: a loop that has not ended
      after one turn for each descriptor, and one more, never will. */
  method WalkChain(mem: MemoryManager, queueLen: nat, pDescriptors: nat, headDescIdx: nat, ghost env: Env)
    returns (r: WalkResult)
    requires mem.Valid() && env.slots == mem.Ranges() && env.qlen == queueLen && env.desc == pDescriptors
    ensures r == Walk(env, mem.ram[..], headDescIdx, {}, [], [])
  {
    hide MemoryManager.Valid;
    hide MemoryManager.Ranges;
    hide VisitAt;
    hide Walk;
    ghost var ram := mem.ram[..];
    ghost var start := Running(headDescIdx, [], []);
    var curDescIdx := headDescIdx;
    var readBufs: seq<MemoryExtent>, writeBufs: seq<MemoryExtent> := [], [];
    LoopEndsIffNoRevisit(env, ram, headDescIdx);
    for turn := 0 to queueLen + 1
      invariant Turns(env, ram, start, turn) == Running(curDescIdx, readBufs, writeBufs)
    {
      OneMoreTurn(env, ram, start, turn);
      var v := VisitDescriptor(mem, queueLen, pDescriptors, curDescIdx, env);
      if v.Drop? { return Dropped; }
      if v.Fail? { return Failed; }
      var isWrite := Bits.And(v.d.flags, DESC_F_WRITE) != 0;
      assert readBufs + [] == readBufs && writeBufs + [] == writeBufs;
      if isWrite { writeBufs := writeBufs + v.es; } else { readBufs := readBufs + v.es; }
      if Bits.And(v.d.flags, DESC_F_NEXT) == 0 { return Chain(readBufs, writeBufs); }
      curDescIdx := v.d.next;
    }
    StillRunning(env, ram, headDescIdx);
    r := Endless;
  }

  lemma OneMoreTurn(env: Env, mem: seq<byte>, s: LoopState, n: nat)
    requires SlotsInRam(env.slots, |mem|)
    ensures Turns(env, mem, s, n + 1) == Turn(env, mem, Turns(env, mem, s, n))
  {
    TurnsAdd(env, mem, s, n, 1);
    assert Turns(env, mem, Turn(env, mem, Turns(env, mem, s, n)), 0) == Turn(env, mem, Turns(env, mem, s, n));
  }

  /** By the pigeonhole argument of WalkEnds. */
  lemma StillRunning(env: Env, mem: seq<byte>, head: nat)
    requires SlotsInRam(env.slots, |mem|) && Turns(env, mem, Running(head, [], []), env.qlen + 1).Running?
    ensures Walk(env, mem, head, {}, [], []) == Endless
  {
    var s := Running(head, [], []);
    if Walk(env, mem, head, {}, [], []) != Endless {
      var n := WalkEnds(env, mem, head, {}, [], []);
      TurnsAdd(env, mem, s, n, env.qlen + 1 - n);
      EndedStays(env, mem, Turns(env, mem, s, n), env.qlen + 1 - n);
    }
  }

  /** Header, padded sense and data, in as many writes as the source makes; the
      data is cut to the room there was and goes out 8192 bytes at a time. */
  method WriteReply(wbuf: MultiWriteBuffer, res: Outcome<Reply>, senseLen: nat)
    requires wbuf.Valid()
    modifies wbuf, wbuf.list, wbuf.ram
    ensures wbuf.Valid()
    ensures var at, resp := Addrs(old(wbuf.list.items)), Response(res, senseLen);
      && Within(at, wbuf.ram.Length)
      && wbuf.ram[..] == WriteAll(old(wbuf.ram[..]), at, resp)
      && |Addrs(wbuf.list.items)| == |at| - Min(|resp|, |at|)
  {
    hide WriteAll;
    hide Addrs;
    hide ResponseHeader;
    var room := wbuf.Remaining();
    if res.Raises? || |SenseOf(res.result)| >= Limit(4) {
      var n := wbuf.Write(ResponseHeader(0, 0, S_TARGET_FAILURE));
      return;
    }
    var header := ResponseHeader(|SenseOf(res.result)|, res.result.status, S_OK);
    var padded, data := PadRight(SenseOf(res.result), senseLen), res.result.dataIn;
    ghost var at, mem := Addrs(wbuf.list.items), wbuf.ram[..];
    var n := wbuf.Write(header);
    n := wbuf.Write(padded);
    WriteSplit(mem, at, header, padded);
    WriteData(wbuf, data, room, mem, at, header + padded);
  }

  /** The data-in part of a reply, behind what was `sent` already. */
  method WriteData(wbuf: MultiWriteBuffer, data: seq<byte>, room: nat, ghost mem: seq<byte>, ghost at: seq<nat>,
                   ghost front: seq<byte>)
    requires wbuf.Valid() && |mem| == wbuf.ram.Length && Within(at, |mem|) && room == |at|
    requires wbuf.ram[..] == WriteAll(mem, at, front) && Addrs(wbuf.list.items) == at[Min(|front|, |at|)..]
    modifies wbuf, wbuf.list, wbuf.ram
    ensures wbuf.Valid() && wbuf.ram[..] == WriteAll(mem, at, front + data)
    ensures |Addrs(wbuf.list.items)| == |at| - Min(|front + data|, |at|)
  {
    hide WriteAll;
    hide Addrs;
    ghost var sent, list := front, wbuf.list;
    var L := 0;
    assert front + data[..0] == front;
    if room > 0 {
      while L < room && L < |data|
        invariant wbuf.Valid() && (wbuf.list == list || fresh(wbuf.list))
        invariant L <= |data| && L <= room && sent == front + data[..L]
        invariant wbuf.ram[..] == WriteAll(mem, at, sent)
        invariant Addrs(wbuf.list.items) == at[Min(|sent|, |at|)..]
      {
        var d := data[L..L + Min(Min(8192, room - L), |data| - L)];
        NextData(front, data, L, |d|);
        WritePiece(wbuf, d, mem, at, sent);
        sent := sent + d;
        L := L + |d|;
      }
    }
    FinishReply(mem, at, front, data, L);
  }

  /** One piece, behind what was `sent` already. */
  method WritePiece(wbuf: MultiWriteBuffer, d: seq<byte>, ghost mem: seq<byte>, ghost at: seq<nat>,
                    ghost sent: seq<byte>)
    requires wbuf.Valid() && |mem| == wbuf.ram.Length && Within(at, |mem|)
    requires wbuf.ram[..] == WriteAll(mem, at, sent) && Addrs(wbuf.list.items) == at[Min(|sent|, |at|)..]
    modifies wbuf, wbuf.list, wbuf.ram
    ensures wbuf.Valid() && (wbuf.list == old(wbuf.list) || fresh(wbuf.list))
    ensures wbuf.ram[..] == WriteAll(mem, at, sent + d) && Addrs(wbuf.list.items) == at[Min(|sent + d|, |at|)..]
  {
    hide WriteAll;
    hide Addrs;
    WriteSplit(mem, at, sent, d);
    var n := wbuf.Write(d);
    DropDrop(at, Min(|sent|, |at|), n);
  }

  lemma NextData(front: seq<byte>, data: seq<byte>, n: nat, k: nat)
    requires n + k <= |data|
    ensures front + data[..n] + data[n..n + k] == front + data[..n + k]
  {
  }

  /** Leaving out data that has no room changes nothing. */
  lemma FinishReply(mem: seq<byte>, at: seq<nat>, front: seq<byte>, data: seq<byte>, n: nat)
    requires Within(at, |mem|) && n <= |data| && (n == |data| || |at| <= n)
    ensures WriteAll(mem, at, front + data[..n]) == WriteAll(mem, at, front + data)
    ensures Min(|front + data[..n]|, |at|) == Min(|front + data|, |at|)
  {
    if n == |data| {
      assert data[..n] == data;
    } else {
      assert (front + data)[..|front| + n] == front + data[..n];
      CutData(mem, at, front + data, |front| + n);
    }
  }

  /** One turn of the drain. */
  lemma DrainUnfold(env: Env, st: St, ring: seq<byte>, cur: Index, idx: Index)
    requires WellFormed(env, st) && |ring| == RingLen(env.qlen)
    ensures Drain(env, st, ring, cur, idx) ==
      if cur == idx then Ok(st.(avail := cur))
      else if env.qlen == 0 then Fails(st)
      else
        var r := ProcessHead(env, st, RingEntry(ring, env.qlen, cur));
        if r.Ok? then Drain(env, r.st, ring, (cur + 1) % INDEX_SPAN, idx) else r
  {
  }
}

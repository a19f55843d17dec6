/** What one virtqueue of the device does (iodev_virtio.py), as functions on
    guest memory, the disks and the queue's counters. The driver's part of the
    memory layout is that of Virtio 1.2, sections 2.7.5, 2.7.6 and 2.7.8; the
    request layout is that of section 5.6.6.1. */
module VirtQueue {
  import Bits
  import opened Common
  import opened Bytes
  import opened Extents
  import opened Buffers
  import opened GuestMap
  import opened Scsi

  const DESC_F_NEXT: nat := 1
  const DESC_F_WRITE: nat := 2
  const DESC_F_INDIRECT: nat := 4
  const S_OK: byte := 0
  const S_TARGET_FAILURE: byte := 7
  const INDEX_SPAN: nat := 65536

  /** A 16-bit ring index. */
  type Index = i: nat | i < INDEX_SPAN

  /** What stays fixed while the queue runs: the memory map, the queue's length
      and areas, the two request size registers and the units. */
  datatype Env = Env(slots: seq<SlotRange>, qlen: nat, desc: nat, driver: nat, device: nat,
                     cdbLen: nat, senseLen: nat, units: map<nat, UnitConfig>)

  /** A used entry that was posted, and the host addresses of the chain's
      writable buffers. */
  datatype Completion = Completion(head: nat, written: nat, addrs: seq<nat>)

  /** Guest memory, the disks, the queue's two counters, the interrupt, and what
      happened since the last reset: the heads handed to the descriptor
      processor, the completions posted, the heads dropped as invalid, and the
      completions of which the reply was written but not reported. */
  datatype St = St(mem: seq<byte>, units: map<nat, UnitState>, avail: Index, used: Index,
                   isr: nat, line: bool, heads: seq<nat>, done: seq<Completion>, dropped: seq<nat>,
                   unposted: seq<Completion>)

  ghost predicate WellFormed(env: Env, st: St) {
    && SlotsInRam(env.slots, |st.mem|)
    && env.units.Keys == st.units.Keys
  }

  // ---- Descriptor chains ------------------------------------------------------

  datatype Descriptor = Descriptor(addr: nat, len: nat, flags: nat, next: nat)

  function Decode(b: seq<byte>): Descriptor
    requires |b| == 16
  {
    Descriptor(FromLe(b[0..8]), FromLe(b[8..12]), FromLe(b[12..14]), FromLe(b[14..16]))
  }

  /** One descriptor as the walk sees it: its buffer, or why the walk ends. */
  datatype Visit = Piece(d: Descriptor, es: seq<MemoryExtent>) | Drop | Fail {
    predicate Writable() requires Piece? { Bits.And(d.flags, DESC_F_WRITE) != 0 }
    predicate Last() requires Piece? { Bits.And(d.flags, DESC_F_NEXT) == 0 }
    function Readable(): seq<MemoryExtent> requires Piece? { if Writable() then [] else es }
    function Writables(): seq<MemoryExtent> requires Piece? { if Writable() then es else [] }
  }

  function VisitAt(env: Env, mem: seq<byte>, idx: nat): Visit
    requires SlotsInRam(env.slots, |mem|)
  {
    if idx >= env.qlen then Drop
    else
      match ReadBack(env.slots, mem, env.desc + 16 * (idx % env.qlen), 16)
      case Unmapped => Drop
      case TooLong => Fail
      case Bytes(b) =>
        var d := Decode(b);
        if Bits.And(d.flags, DESC_F_INDIRECT) != 0 then Fail
        else
          match Resolve(env.slots, d.addr, d.len)
          case None => Fail
          case Some(es) => Piece(d, es)
  }

  datatype WalkResult = Chain(rd: seq<MemoryExtent>, wr: seq<MemoryExtent>) | Dropped | Failed | Endless

  /** The numbers below `n`. */
  function Below(n: nat): (s: set<nat>)
    ensures |s| == n && forall i: nat :: i in s <==> i < n
  {
    if n == 0 then {} else Below(n - 1) + {n - 1}
  }

  /** The chain from `idx` on; `seen` are the indices already visited. A second
      visit to an index means that the walk would go on for ever. */
  function Walk(env: Env, mem: seq<byte>, idx: nat, seen: set<nat>, rd: seq<MemoryExtent>,
                wr: seq<MemoryExtent>): WalkResult
    requires SlotsInRam(env.slots, |mem|)
    decreases Below(env.qlen) - seen
  {
    if idx in seen then Endless
    else
      match VisitAt(env, mem, idx)
      case Drop => Dropped
      case Fail => Failed
      case Piece(d, es) =>
        var v := VisitAt(env, mem, idx);
        var rd', wr' := rd + v.Readable(), wr + v.Writables();
        assert idx in Below(env.qlen) - seen;
        if v.Last() then Chain(rd', wr') else Walk(env, mem, d.next, seen + {idx}, rd', wr')
  }

  // ---- Requests ---------------------------------------------------------------

  const HEADER_LEN: nat := 19

  function PadRight(s: seq<byte>, n: nat): (r: seq<byte>)
    ensures |r| == Max(|s|, n) && s <= r
  {
    if |s| >= n then s else s + Zeros(n - |s|)
  }

  function ResponseHeader(senseLen: nat, status: byte, response: byte): (h: seq<byte>)
    ensures |h| == 12
  {
    ToLe(senseLen, 4) + ToLe(0, 4) + ToLe(0, 2) + [status, response]
  }

  function SenseOf(r: Reply): seq<byte> { if r.sense.None? then [] else r.sense.value }

  /** Everything the device would write if the writable buffers had room. */
  function Response(r: Outcome<Reply>, senseLen: nat): seq<byte> {
    if r.Raises? || |SenseOf(r.result)| >= Limit(4) then ResponseHeader(0, 0, S_TARGET_FAILURE)
    else
      ResponseHeader(|SenseOf(r.result)|, r.result.status, S_OK)
        + PadRight(SenseOf(r.result), senseLen) + r.result.dataIn
  }

  /** The request header and CDB come out of the front extent in one read; the
      device raises unless they are complete and well formed. */
  function RequestOf(env: Env, mem: seq<byte>, rd: seq<MemoryExtent>): (req: Option<seq<byte>>)
    requires InRam(rd, |mem|)
    ensures req.Some? ==> |req.value| == HEADER_LEN + env.cdbLen && env.cdbLen >= 6
  {
    var n := HEADER_LEN + env.cdbLen;
    if Taken(rd, n) < n || n >= COPY_LIMIT then None
    else
      AddrsWithin(rd, |mem|);
      AfterReadAddrs(rd, n);
      var req := ReadAll(mem, Addrs(rd)[..n]);
      if env.cdbLen < 6 || req[16] > 3 || req[17] > 15 then None else Some(req)
  }

  function NonZero(n: nat): Option<nat> { if n > 0 then Some(n) else None }

  /** The disks after the request's command, and the command's result. */
  function CommandOutcome(env: Env, mem: seq<byte>, units: map<nat, UnitState>, req: seq<byte>,
                          rd: seq<MemoryExtent>, wr: seq<MemoryExtent>): (r: (map<nat, UnitState>, Outcome<Reply>))
    requires InRam(rd, |mem|) && env.units.Keys == units.Keys
    requires |req| == HEADER_LEN + env.cdbLen && env.cdbLen >= 6
    ensures r.0.Keys == units.Keys
  {
    AfterReadInRam(rd, |req|, |mem|);
    var rest := AfterRead(rd, |req|);
    Route(env.units, units, FromBe(req[0..8]), req[19..], mem,
          if |Addrs(rest)| > 0 then Some(rest) else None, NonZero(|Addrs(wr)|))
  }

  /** Runs the request; memory, the disks and the number of bytes written. */
  function Serve(env: Env, mem: seq<byte>, units: map<nat, UnitState>, req: seq<byte>,
                 rd: seq<MemoryExtent>, wr: seq<MemoryExtent>): (r: (seq<byte>, map<nat, UnitState>, nat))
    requires InRam(rd, |mem|) && InRam(wr, |mem|) && env.units.Keys == units.Keys
    requires |req| == HEADER_LEN + env.cdbLen && env.cdbLen >= 6
    ensures |r.0| == |mem| && r.1.Keys == units.Keys
  {
    AddrsWithin(wr, |mem|);
    var x := CommandOutcome(env, mem, units, req, rd, wr);
    var resp := Response(x.1, env.senseLen);
    (WriteAll(mem, Addrs(wr), resp), x.0, Min(|resp|, |Addrs(wr)|))
  }

  // ---- Heads and the used ring ------------------------------------------------

  /** How a handler ends: normally, with an exception, or never; and the state
      it leaves, or from which on it only walks in circles. */
  datatype Ended = Ok(st: St) | Fails(st: St) | Hangs(st: St)

  /** Where the used ring keeps the entry for index `i`. */
  function SlotOffset(qlen: nat, i: nat): (off: nat)
    requires qlen > 0
    ensures 4 <= off && off + 8 <= 4 + 8 * qlen
  {
    4 + 8 * (i % qlen)
  }

  /** A used ring entry. */
  function EntryOf(c: Completion): (b: seq<byte>)
    ensures |b| == 8
  {
    ToLe(c.head, 4) + ToLe(c.written, 4)
  }

  /** Memory after an entry at `off` and an index were written to the ring. */
  function PostedMem(env: Env, mem: seq<byte>, off: nat, entry: seq<byte>, index: seq<byte>): (mem': seq<byte>)
    requires SlotsInRam(env.slots, |mem|)
    ensures |mem'| == |mem|
  {
    Written(env.slots, Written(env.slots, mem, env.device + off, entry), env.device + 2, index)
  }

  /** Posts a used entry, then the index, then raises the interrupt. */
  function Post(env: Env, st: St, c: Completion): (r: Ended)
    requires WellFormed(env, st)
    ensures WellFormed(env, r.st) && |r.st.mem| == |st.mem|
  {
    if env.qlen == 0 || c.head >= Limit(4) || c.written >= Limit(4) then Fails(st.(unposted := st.unposted + [c]))
    else
      var used' := (st.used + 1) % INDEX_SPAN;
      var mem' := PostedMem(env, st.mem, SlotOffset(env.qlen, st.used), EntryOf(c), ToLe(used', 2));
      Ok(st.(mem := mem', used := used', isr := Bits.Or(st.isr, 1), line := true, done := st.done + [c]))
  }

  /** Runs the request of a walked chain and posts its completion. */
  function ServeChain(env: Env, st: St, head: nat, rd: seq<MemoryExtent>, wr: seq<MemoryExtent>): (r: Ended)
    requires WellFormed(env, st) && InRam(rd, |st.mem|) && InRam(wr, |st.mem|)
    ensures WellFormed(env, r.st) && |r.st.mem| == |st.mem|
  {
    var req := RequestOf(env, st.mem, rd);
    if req.None? then Fails(st)
    else
      var s := Serve(env, st.mem, st.units, req.value, rd, wr);
      Post(env, st.(mem := s.0, units := s.1), Completion(head, s.2, Addrs(wr)))
  }

  /** What a head leads to, by the outcome of its walk. */
  function AfterWalk(env: Env, st0: St, head: nat, w: WalkResult): (r: Ended)
    requires WellFormed(env, st0) && (w.Chain? ==> InRam(w.rd, |st0.mem|) && InRam(w.wr, |st0.mem|))
    ensures WellFormed(env, r.st) && |r.st.mem| == |st0.mem|
  {
    var st := st0.(heads := st0.heads + [head]);
    match w
    case Endless => Hangs(st)
    case Failed => Fails(st)
    case Dropped => Ok(st.(dropped := st.dropped + [head]))
    case Chain(rd, wr) => ServeChain(env, st, head, rd, wr)
  }

  /** `_syncProcessDescriptor` */
  function ProcessHead(env: Env, st: St, head: nat): (r: Ended)
    requires WellFormed(env, st)
    ensures WellFormed(env, r.st) && |r.st.mem| == |st.mem|
  {
    WalkInRam(env, st.mem, head, {}, [], []);
    AfterWalk(env, st, head, Walk(env, st.mem, head, {}, [], []))
  }

  lemma {:induction false} WalkInRam(env: Env, mem: seq<byte>, idx: nat, seen: set<nat>, rd: seq<MemoryExtent>,
                                     wr: seq<MemoryExtent>)
    requires SlotsInRam(env.slots, |mem|) && InRam(rd, |mem|) && InRam(wr, |mem|)
    ensures var r := Walk(env, mem, idx, seen, rd, wr);
      r.Chain? ==> InRam(r.rd, |mem|) && InRam(r.wr, |mem|)
    decreases Below(env.qlen) - seen
  {
    if idx !in seen && VisitAt(env, mem, idx).Piece? {
      var v := VisitAt(env, mem, idx);
      ResolveInRam(env.slots, v.d.addr, v.d.len, |mem|);
      assert idx in Below(env.qlen) - seen;
      if !v.Last() { WalkInRam(env, mem, v.d.next, seen + {idx}, rd + v.Readable(), wr + v.Writables()); }
    }
  }

  // ---- The available ring -------------------------------------------------------

  function RingLen(qlen: nat): nat { 2 + 2 + 2 * qlen + 2 }

  /** The head in the slot for the 16-bit index `i`. */
  function RingEntry(ring: seq<byte>, qlen: nat, i: Index): nat
    requires qlen > 0 && |ring| == RingLen(qlen)
  {
    FromLe(ring[4 + 2 * (i % qlen)..4 + 2 * (i % qlen) + 2])
  }

  function RingIndex(ring: seq<byte>, qlen: nat): Index
    requires |ring| == RingLen(qlen)
  {
    PackUnpacked(ring[2..4]);
    FromLe(ring[2..4])
  }

  /** How far 16-bit index `from` is behind `to`. */
  function Behind(from: Index, to: Index): nat {
    if from <= to then to - from else to + INDEX_SPAN - from
  }

  lemma BehindNext(from: Index, to: Index)
    requires from != to
    ensures Behind((from + 1) % INDEX_SPAN, to) == Behind(from, to) - 1
  {
    if from + 1 == INDEX_SPAN {
      assert (from + 1) % INDEX_SPAN == 0;
    } else {
      assert (from + 1) % INDEX_SPAN == from + 1;
    }
  }

  /** Hands over the ring's entries from `cur` up to `idx`; the counter is only
      saved when all of them went through. */
  function Drain(env: Env, st: St, ring: seq<byte>, cur: Index, idx: Index): (r: Ended)
    requires WellFormed(env, st) && |ring| == RingLen(env.qlen)
    ensures WellFormed(env, r.st) && |r.st.mem| == |st.mem|
    decreases Behind(cur, idx)
  {
    if cur == idx then Ok(st.(avail := cur))
    else if env.qlen == 0 then Fails(st)
    else
      var r := ProcessHead(env, st, RingEntry(ring, env.qlen, cur));
      BehindNext(cur, idx);
      if r.Ok? then Drain(env, r.st, ring, (cur + 1) % INDEX_SPAN, idx) else r
  }

  /** `_syncProcessAvail` */
  function Notify(env: Env, st: St): (r: Ended)
    requires WellFormed(env, st)
    ensures WellFormed(env, r.st) && |r.st.mem| == |st.mem|
  {
    match ReadBack(env.slots, st.mem, env.driver, RingLen(env.qlen))
    case Unmapped => Ok(st)
    case TooLong => Fails(st)
    case Bytes(ring) => Drain(env, st, ring, st.avail, RingIndex(ring, env.qlen))
  }
}

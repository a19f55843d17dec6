/** One request from end to end: what the guest finds in its writable buffers,
    and what it finds on the disk. */
module RequestProofs {
  import opened Common
  import opened Bytes
  import opened Extents
  import opened Buffers
  import opened GuestMap
  import opened Scsi
  import opened DiskArray
  import opened OutcomeProofs
  import opened VirtQueue
  import opened QueueProofs

  // ---- The response ----------------------------------------------------------

  lemma {:induction false} ZeroBytes(n: nat)
    ensures ToLe(0, n) == Zeros(n)
  {
    if n > 0 { ZeroBytes(n - 1); }
  }

  /** A guest that reads the response by its layout finds the sense length, no
      residual, the status, the response code, the sense data padded to the
      configured length and then the data; or, if the command raised, only
      TARGET_FAILURE. */
  lemma ResponseLayout(r: Outcome<Reply>, senseLen: nat)
    ensures var resp := Response(r, senseLen);
      if r.Raises? || |SenseOf(r.result)| >= Limit(4) then |resp| == 12 && resp[11] == 7
          && forall i :: 0 <= i < 11 ==> resp[i] == 0
      else
        var sense, padded := SenseOf(r.result), Max(|SenseOf(r.result)|, senseLen);
        && |resp| == 12 + padded + |r.result.dataIn|
        && FromLe(resp[0..4]) == |sense| && resp[10] == r.result.status && resp[11] == 0
        && resp[4] == resp[5] == resp[6] == resp[7] == resp[8] == resp[9] == 0
        && resp[12..12 + |sense|] == sense
        && (forall i :: 12 + |sense| <= i < 12 + padded ==> resp[i] == 0)
        && resp[12 + padded..] == r.result.dataIn
  {
    hide ToLe;
    hide ResponseHeader;
    if r.Raises? || |SenseOf(r.result)| >= Limit(4) {
      HeaderLayout(0, 0, S_TARGET_FAILURE);
      ZerosValueBack(Response(r, senseLen)[0..4]);
    } else {
      var sense := SenseOf(r.result);
      var h, p := ResponseHeader(|sense|, r.result.status, S_OK), PadRight(sense, senseLen);
      HeaderLayout(|sense|, r.result.status, S_OK);
      PartsOf(h, p, r.result.dataIn);
      assert Response(r, senseLen)[0..4] == h[0..4];
      assert p[..|sense|] == sense;
      PaddingIsZero(sense, senseLen);
    }
  }

  lemma HeaderLayout(senseLen: nat, status: byte, response: byte)
    requires senseLen < Limit(4)
    ensures var h := ResponseHeader(senseLen, status, response);
      && FromLe(h[0..4]) == senseLen && h[10] == status && h[11] == response
      && (forall i :: 4 <= i < 10 ==> h[i] == 0)
  {
    ZeroBytes(4);
    ZeroBytes(2);
    hide ToLe;
    hide FromLe;
    hide Limit;
    UnpackPacked(senseLen, 4);
    var h := ResponseHeader(senseLen, status, response);
    assert h[0..4] == ToLe(senseLen, 4);
  }

  /** Four bytes that make the number 0 are zero. */
  lemma ZerosValueBack(b: seq<byte>)
    requires |b| == 4 && FromLe(b) == 0
    ensures b[0] == b[1] == b[2] == b[3] == 0
  {
    PackUnpacked(b);
    ZeroBytes(4);
  }

  lemma PartsOf(h: seq<byte>, p: seq<byte>, d: seq<byte>)
    ensures (h + p + d)[..|h|] == h && (h + p + d)[|h|..|h| + |p|] == p && (h + p + d)[|h| + |p|..] == d
  {
  }

  lemma PaddingIsZero(s: seq<byte>, n: nat)
    ensures forall i :: |s| <= i < |PadRight(s, n)| ==> PadRight(s, n)[i] == 0
  {
  }

  /** The writable buffers of the chain, in chain order, receive as much of the
      response as they have room for; the reported length is that number, and no
      other byte changes. */
  lemma ResponseScattered(env: Env, mem: seq<byte>, units: map<nat, UnitState>, req: seq<byte>,
                          rd: seq<MemoryExtent>, wr: seq<MemoryExtent>)
    requires InRam(rd, |mem|) && InRam(wr, |mem|) && env.units.Keys == units.Keys
    requires |req| == HEADER_LEN + env.cdbLen && env.cdbLen >= 6
    requires Distinct(Addrs(wr))
    ensures Within(Addrs(wr), |mem|)
    ensures var s, at := Serve(env, mem, units, req, rd, wr), Addrs(wr);
      var resp := Response(CommandOutcome(env, mem, units, req, rd, wr).1, env.senseLen);
      && s.1 == CommandOutcome(env, mem, units, req, rd, wr).0
      && s.2 == Min(|resp|, |at|)
      && (forall j :: 0 <= j < s.2 ==> s.0[at[j]] == resp[j])
      && (forall a :: 0 <= a < |mem| && a !in at[..s.2] ==> s.0[a] == mem[a])
  {
    hide CommandOutcome;
    hide Response;
    AddrsWithin(wr, |mem|);
    var at, resp := Addrs(wr), Response(CommandOutcome(env, mem, units, req, rd, wr).1, env.senseLen);
    ScatterFacts(mem, at, resp);
  }

  lemma ScatterFacts(mem: seq<byte>, at: seq<nat>, data: seq<byte>)
    requires Within(at, |mem|) && Distinct(at)
    ensures var n := Min(|data|, |at|);
      && (forall j :: 0 <= j < n ==> WriteAll(mem, at, data)[at[j]] == data[j])
      && (forall a :: 0 <= a < |mem| && a !in at[..n] ==> WriteAll(mem, at, data)[a] == mem[a])
  {
    hide WriteAll;
    var n := Min(|data|, |at|);
    forall j | 0 <= j < n ensures WriteAll(mem, at, data)[at[j]] == data[j] { WriteAllAt(mem, at, data, j); }
    forall a | 0 <= a < |mem| && a !in at[..n] ensures WriteAll(mem, at, data)[a] == mem[a] {
      forall i | 0 <= i < |at| && i < |data| ensures at[i] != a { assert at[i] == at[..n][i]; }
      WriteAllFrame(mem, at, data, a);
    }
  }

  /** Posting the completion does not touch a buffer that avoids the used ring. */
  lemma PostKeepsBuffers(env: Env, st: St, c: Completion, i: nat)
    requires WellFormed(env, st) && RingMapped(env) && Avoids(env, c) && i < |c.addrs| && c.addrs[i] < |st.mem|
    ensures Post(env, st, c).Ok? ==> Post(env, st, c).st.mem[c.addrs[i]] == st.mem[c.addrs[i]]
  {
    hide PostedMem;
    hide EntryOf;
    hide ToLe;
    if Post(env, st, c).Ok? {
      PostedMemKeeps(env, st.mem, SlotOffset(env.qlen, st.used), EntryOf(c), ToLe((st.used + 1) % INDEX_SPAN, 2), c, i);
    }
  }

  lemma PostedMemKeeps(env: Env, mem: seq<byte>, off: nat, entry: seq<byte>, index: seq<byte>, c: Completion, i: nat)
    requires SlotsInRam(env.slots, |mem|) && RingMapped(env) && off + |entry| <= UsedLen(env)
    requires 2 + |index| <= UsedLen(env)
    requires Avoids(env, c) && i < |c.addrs| && c.addrs[i] < |mem|
    ensures PostedMem(env, mem, off, entry, index)[c.addrs[i]] == mem[c.addrs[i]]
  {
    hide Written;
    hide RingMapped;
    hide Avoids;
    KeptByWrite(env, mem, off, entry, c, i);
    KeptByWrite(env, Written(env.slots, mem, env.device + off, entry), 2, index, c, i);
  }

  lemma KeptByWrite(env: Env, mem: seq<byte>, off: nat, data: seq<byte>, c: Completion, i: nat)
    requires SlotsInRam(env.slots, |mem|) && RingMapped(env) && off + |data| <= UsedLen(env)
    requires Avoids(env, c) && i < |c.addrs| && c.addrs[i] < |mem|
    ensures Written(env.slots, mem, env.device + off, data)[c.addrs[i]] == mem[c.addrs[i]]
  {
    WrittenFrame(env.slots, mem, env.device + off, data, c.addrs[i]);
  }

  // ---- Block requests through the queue -----------------------------------------

  function UnitOf(req: seq<byte>): nat requires |req| >= 8 { FromBe(req[0..8]) }

  function Cdb(req: seq<byte>): seq<byte> requires |req| >= 19 { req[19..] }

  /** `head` starts a chain with a complete request for a block command. */
  ghost predicate BlockRequest(env: Env, st: St, head: nat, opcode: byte, rd: seq<MemoryExtent>,
                               wr: seq<MemoryExtent>, req: seq<byte>)
    requires WellFormed(env, st)
  {
    && Walk(env, st.mem, head, {}, [], []) == Chain(rd, wr)
    && InRam(rd, |st.mem|) && InRam(wr, |st.mem|)
    && RequestOf(env, st.mem, rd) == Some(req) && env.cdbLen >= 10
    && UnitOf(req) in env.units && env.units[UnitOf(req)].Valid()
    && Cdb(req)[0] == opcode
  }

  /** The unit's image holds the blocks `a`. */
  ghost predicate DiskHolds(env: Env, st: St, lun: nat, a: seq<Block>, tail: seq<byte>)
    requires lun in env.units
  {
    lun in st.units && HoldsBlocks(st.units[lun].image, a, env.units[lun].blockSize, tail)
  }

  ghost predicate InRange(req: seq<byte>, n: nat)
    requires |req| >= HEADER_LEN + 10
  {
    Lba(Cdb(req)) + Count(Cdb(req)) <= n
  }

  /** The blocks a READ asks for. */
  function Asked(req: seq<byte>, a: seq<Block>): seq<Block>
    requires |req| >= HEADER_LEN + 10 && InRange(req, |a|)
  {
    a[Lba(Cdb(req))..Lba(Cdb(req)) + Count(Cdb(req))]
  }

  /** A complete request runs its command, then posts its completion. */
  lemma ServedHead(env: Env, st: St, head: nat, rd: seq<MemoryExtent>, wr: seq<MemoryExtent>, req: seq<byte>)
    requires WellFormed(env, st) && Walk(env, st.mem, head, {}, [], []) == Chain(rd, wr)
    requires InRam(rd, |st.mem|) && InRam(wr, |st.mem|) && RequestOf(env, st.mem, rd) == Some(req)
    ensures var s := Serve(env, st.mem, st.units, req, rd, wr);
      ProcessHead(env, st, head)
        == Post(env, st.(heads := st.heads + [head], mem := s.0, units := s.1), Completion(head, s.2, Addrs(wr)))
  {
    hide Walk;
    hide RequestOf;
    hide Serve;
  }

  // ---- READ(10) -------------------------------------------------------------------

  /** The read data lies behind the response header and the sense area, as far
      as the buffer reaches. */
  ghost predicate ReadData(env: Env, mem: seq<byte>, at: seq<nat>, data: seq<byte>)
    requires Within(at, |mem|)
  {
    forall j :: 0 <= j < |data| && 12 + env.senseLen + j < |at| ==> mem[at[12 + env.senseLen + j]] == data[j]
  }

  lemma GoodResponse(data: seq<byte>, senseLen: nat)
    ensures var resp := Response(Returns(Good(data)), senseLen);
      |resp| == 12 + senseLen + |data| && forall j :: 0 <= j < |data| ==> resp[12 + senseLen + j] == data[j]
  {
    ResponseLayout(Returns(Good(data)), senseLen);
    var resp := Response(Returns(Good(data)), senseLen);
    assert Limit(4) >= 1;
    forall j | 0 <= j < |data| ensures resp[12 + senseLen + j] == data[j] {
      assert resp[12 + senseLen..][j] == data[j];
    }
  }

  /** The bytes a READ asks for, as they are in the image. */
  function OnDisk(env: Env, st: St, req: seq<byte>): seq<byte>
    requires |req| >= HEADER_LEN + 10 && UnitOf(req) in env.units && UnitOf(req) in st.units
  {
    var bs := env.units[UnitOf(req)].blockSize;
    FileRead(st.units[UnitOf(req)].image, BlockBytes(Lba(Cdb(req)), bs), BlockBytes(Count(Cdb(req)), bs))
  }

  lemma ReadOutcome(env: Env, st: St, rd: seq<MemoryExtent>, wr: seq<MemoryExtent>, req: seq<byte>)
    requires WellFormed(env, st) && InRam(rd, |st.mem|) && |Addrs(wr)| > 0
    requires |req| == HEADER_LEN + env.cdbLen && env.cdbLen >= 10
    requires UnitOf(req) in st.units && env.units[UnitOf(req)].Valid() && Cdb(req)[0] == 0x28
    ensures var x := CommandOutcome(env, st.mem, st.units, req, rd, wr);
      && x.1 == Returns(Good(OnDisk(env, st, req)))
      && UnitOf(req) in x.0 && x.0[UnitOf(req)].image == st.units[UnitOf(req)].image
  {
    hide FileRead;
  }

  lemma ServedReadData(env: Env, st: St, rd: seq<MemoryExtent>, wr: seq<MemoryExtent>, req: seq<byte>, data: seq<byte>)
    requires WellFormed(env, st) && InRam(rd, |st.mem|) && InRam(wr, |st.mem|) && Distinct(Addrs(wr))
    requires |req| == HEADER_LEN + env.cdbLen && env.cdbLen >= 6
    requires CommandOutcome(env, st.mem, st.units, req, rd, wr).1 == Returns(Good(data))
    ensures Within(Addrs(wr), |st.mem|)
    ensures ReadData(env, Serve(env, st.mem, st.units, req, rd, wr).0, Addrs(wr), data)
  {
    hide CommandOutcome;
    hide Response;
    hide Serve;
    ResponseScattered(env, st.mem, st.units, req, rd, wr);
    GoodResponse(data, env.senseLen);
  }

  lemma PostKeepsReadData(env: Env, st: St, c: Completion, data: seq<byte>)
    requires WellFormed(env, st) && RingMapped(env) && Avoids(env, c) && Within(c.addrs, |st.mem|)
    requires Post(env, st, c).Ok? && ReadData(env, st.mem, c.addrs, data)
    ensures Within(c.addrs, |Post(env, st, c).st.mem|)
    ensures ReadData(env, Post(env, st, c).st.mem, c.addrs, data)
  {
    hide Post;
    hide Avoids;
    hide RingMapped;
    var mem' := Post(env, st, c).st.mem;
    forall j | 0 <= j < |data| && 12 + env.senseLen + j < |c.addrs|
      ensures mem'[c.addrs[12 + env.senseLen + j]] == data[j]
    {
      PostKeepsBuffers(env, st, c, 12 + env.senseLen + j);
    }
  }

  /** READ(10) of any range: once the request has completed, the guest's buffer
      holds what the image has there, and the disk is as before. */
  lemma ReadCopiesImage(env: Env, st: St, head: nat, rd: seq<MemoryExtent>, wr: seq<MemoryExtent>,
                        req: seq<byte>, c: Completion)
    requires WellFormed(env, st) && RingMapped(env) && BlockRequest(env, st, head, 0x28, rd, wr, req)
    requires Distinct(Addrs(wr)) && |Addrs(wr)| > 0
    requires ProcessHead(env, st, head).Ok? && ProcessHead(env, st, head).st.done == st.done + [c] && Avoids(env, c)
    ensures c.addrs == Addrs(wr)
    ensures var st' := ProcessHead(env, st, head).st;
      && Within(c.addrs, |st'.mem|) && ReadData(env, st'.mem, c.addrs, OnDisk(env, st, req))
      && st'.units[UnitOf(req)].image == st.units[UnitOf(req)].image
  {
    hide ReadData;
    hide OnDisk;
    var s := Serve(env, st.mem, st.units, req, rd, wr);
    var st1, c1 := st.(heads := st.heads + [head], mem := s.0, units := s.1), Completion(head, s.2, Addrs(wr));
    ServedHead(env, st, head, rd, wr, req);
    assert c == c1 by {
      hide ProcessHead;
      assert (st.done + [c1])[|st.done|] == (st.done + [c])[|st.done|];
    }
    ReadOutcome(env, st, rd, wr, req);
    ServedReadData(env, st, rd, wr, req, OnDisk(env, st, req));
    PostKeepsReadData(env, st1, c1, OnDisk(env, st, req));
    hide ProcessHead;
    hide CommandOutcome;
  }

  /** Of a disk that holds blocks, these are the blocks asked for. */
  lemma ReadReachesGuest(env: Env, st: St, head: nat, rd: seq<MemoryExtent>, wr: seq<MemoryExtent>,
                         req: seq<byte>, a: seq<Block>, tail: seq<byte>, c: Completion)
    requires WellFormed(env, st) && RingMapped(env) && BlockRequest(env, st, head, 0x28, rd, wr, req)
    requires DiskHolds(env, st, UnitOf(req), a, tail) && InRange(req, |a|)
    requires Distinct(Addrs(wr)) && |Addrs(wr)| > 0
    requires ProcessHead(env, st, head).Ok? && ProcessHead(env, st, head).st.done == st.done + [c] && Avoids(env, c)
    ensures c.addrs == Addrs(wr)
    ensures var st' := ProcessHead(env, st, head).st;
      && Within(c.addrs, |st'.mem|) && ReadData(env, st'.mem, c.addrs, Join(Asked(req, a)))
      && DiskHolds(env, st', UnitOf(req), a, tail)
  {
    hide ProcessHead;
    hide ReadData;
    hide HoldsBlocks;
    hide Join;
    hide FileRead;
    hide Walk;
    hide RequestOf;
    ReadCopiesImage(env, st, head, rd, wr, req, c);
    ReadGivesBlocks(st.units[UnitOf(req)].image, a, env.units[UnitOf(req)].blockSize, tail,
                    Lba(Cdb(req)), Count(Cdb(req)));
  }

  // ---- WRITE(10) ------------------------------------------------------------------

  /** The data-out extents of a WRITE hold its blocks, none of them split. */
  ghost predicate DataFits(cfg: UnitConfig, req: seq<byte>, rest: seq<MemoryExtent>)
    requires cfg.Valid() && |req| >= HEADER_LEN + 10
  {
    && cfg.kind.Disk?
    && BlocksFit(rest, BlockBytes(Count(Cdb(req)), cfg.blockSize), cfg.blockSize)
  }

  /** The blocks a WRITE sends, as they are in guest memory. */
  function SentBlocks(env: Env, mem: seq<byte>, rd: seq<MemoryExtent>, req: seq<byte>): (ds: seq<Block>)
    requires |req| >= HEADER_LEN + 10 && UnitOf(req) in env.units && InRam(rd, |mem|)
    ensures |ds| == Count(Cdb(req))
  {
    AfterReadInRam(rd, |req|, |mem|);
    AddrsWithin(AfterRead(rd, |req|), |mem|);
    DataBlocks(mem, Addrs(AfterRead(rd, |req|)), Count(Cdb(req)), env.units[UnitOf(req)].blockSize)
  }

  lemma NonEmptyAddrs(es: seq<MemoryExtent>)
    requires NonEmpty(es)
    ensures |Addrs(es)| > 0 <==> es != []
  {
  }

  lemma WriteOutcome(env: Env, st: St, rd: seq<MemoryExtent>, wr: seq<MemoryExtent>, req: seq<byte>)
    requires WellFormed(env, st) && InRam(rd, |st.mem|) && |req| == HEADER_LEN + env.cdbLen && env.cdbLen >= 10
    requires UnitOf(req) in st.units && Cdb(req)[0] == 0x2A && env.units[UnitOf(req)].kind.Disk?
    requires NonEmpty(AfterRead(rd, |req|)) && env.units[UnitOf(req)].Valid()
    ensures InRam(AfterRead(rd, |req|), |st.mem|)
    ensures var x, bs := CommandOutcome(env, st.mem, st.units, req, rd, wr), env.units[UnitOf(req)].blockSize;
      var rest, units := AfterRead(rd, |req|), x.0;
      && (BlocksFit(rest, BlockBytes(Count(Cdb(req)), bs), bs) ==> x.1 == Returns(Good([])))
      && UnitOf(req) in units
      && units[UnitOf(req)].image
         == WriteBlocks(st.units[UnitOf(req)].image, BlockBytes(Lba(Cdb(req)), bs), Count(Cdb(req)), bs, st.mem,
                        AfterRead(rd, |req|)).0
  {
    hide WriteBlocks;
    hide BlocksFit;
    var rest, bs := AfterRead(rd, |req|), env.units[UnitOf(req)].blockSize;
    AfterReadInRam(rd, |req|, |st.mem|);
    WriteSucceedsIff(st.units[UnitOf(req)].image, BlockBytes(Lba(Cdb(req)), bs), Count(Cdb(req)), bs, st.mem, rest);
    if rest == [] {
      NoDataFits(Count(Cdb(req)), bs);
      NothingWritten(st.units[UnitOf(req)].image, BlockBytes(Lba(Cdb(req)), bs), Count(Cdb(req)), bs, st.mem);
    } else {
      NonEmptyAddrs(rest);
    }
  }

  /** Resolution gives no empty extents, so a walk collects none. */
  lemma {:induction false} WalkNonEmpty(env: Env, mem: seq<byte>, idx: nat, seen: set<nat>,
                                        rd: seq<MemoryExtent>, wr: seq<MemoryExtent>)
    requires SlotsInRam(env.slots, |mem|) && NonEmpty(rd) && NonEmpty(wr)
    ensures var r := Walk(env, mem, idx, seen, rd, wr);
      r.Chain? ==> NonEmpty(r.rd) && NonEmpty(r.wr)
    decreases Below(env.qlen) - seen
  {
    if idx !in seen && VisitAt(env, mem, idx).Piece? {
      var v := VisitAt(env, mem, idx);
      ResolveIffMapped(env.slots, v.d.addr, v.d.len);
      ResolveCovers(env.slots, v.d.addr, v.d.len);
      assert idx in Below(env.qlen) - seen;
      if !v.Last() { WalkNonEmpty(env, mem, v.d.next, seen + {idx}, rd + v.Readable(), wr + v.Writables()); }
    }
  }

  lemma RestNonEmpty(rd: seq<MemoryExtent>, n: nat)
    requires NonEmpty(rd)
    ensures NonEmpty(AfterRead(rd, n))
  {
  }

  /** WRITE(10): a request whose data fits block by block leaves exactly its
      blocks on the disk. */
  lemma WriteReachesDisk(env: Env, st: St, head: nat, rd: seq<MemoryExtent>, wr: seq<MemoryExtent>,
                         req: seq<byte>, a: seq<Block>, tail: seq<byte>)
    requires WellFormed(env, st) && BlockRequest(env, st, head, 0x2A, rd, wr, req)
    requires DiskHolds(env, st, UnitOf(req), a, tail) && InRange(req, |a|)
    requires DataFits(env.units[UnitOf(req)], req, AfterRead(rd, |req|))
    ensures var r := ProcessHead(env, st, head);
      r.Ok? ==> DiskHolds(env, r.st, UnitOf(req), Overwrite(a, Lba(Cdb(req)), SentBlocks(env, st.mem, rd, req)), tail)
  {
    var rest, bs := AfterRead(rd, |req|), env.units[UnitOf(req)].blockSize;
    var lba, count, image := Lba(Cdb(req)), Count(Cdb(req)), st.units[UnitOf(req)].image;
    AfterReadInRam(rd, |req|, |st.mem|);
    AddrsWithin(rest, |st.mem|);
    WalkNonEmpty(env, st.mem, head, {}, [], []);
    RestNonEmpty(rd, |req|);
    WriteSucceedsIff(image, BlockBytes(lba, bs), count, bs, st.mem, rest);
    WriteStoresBlocks(image, a, tail, lba, count, bs, st.mem, rest);
    WriteOutcome(env, st, rd, wr, req);
    ServedHead(env, st, head, rd, wr, req);
    hide ProcessHead;
    hide WriteBlocks;
    hide HoldsBlocks;
    hide CommandOutcome;
  }

  /** What one request writes to the disk, a later one that asks for any part of
      it reads back into guest memory, whatever happened in between to memory, the
      queue and its set-up, other disks and this one, as long as the image has the
      same bytes where the later request reads. */
  lemma DiskRoundTrip(env: Env, st: St, w: nat, rdW: seq<MemoryExtent>, wrW: seq<MemoryExtent>, reqW: seq<byte>,
                      env': Env, later: St, r: nat, rdR: seq<MemoryExtent>, wrR: seq<MemoryExtent>, reqR: seq<byte>,
                      a: seq<Block>, tail: seq<byte>, c: Completion)
    requires WellFormed(env, st) && BlockRequest(env, st, w, 0x2A, rdW, wrW, reqW)
    requires DiskHolds(env, st, UnitOf(reqW), a, tail) && InRange(reqW, |a|)
    requires DataFits(env.units[UnitOf(reqW)], reqW, AfterRead(rdW, |reqW|)) && ProcessHead(env, st, w).Ok?
    requires WellFormed(env', later) && RingMapped(env') && BlockRequest(env', later, r, 0x28, rdR, wrR, reqR)
    requires UnitOf(reqR) == UnitOf(reqW) && env'.units[UnitOf(reqR)].blockSize == env.units[UnitOf(reqW)].blockSize
    requires PartOf(reqR, reqW)
    requires OnDisk(env', later, reqR) == OnDisk(env, ProcessHead(env, st, w).st, reqR)
    requires Distinct(Addrs(wrR)) && |Addrs(wrR)| > 0
    requires ProcessHead(env', later, r).Ok? && ProcessHead(env', later, r).st.done == later.done + [c]
    requires Avoids(env', c)
    ensures var mem, first := ProcessHead(env', later, r).st.mem, Lba(Cdb(reqR)) - Lba(Cdb(reqW));
      && Within(c.addrs, |mem|)
      && ReadData(env', mem, c.addrs, Join(SentBlocks(env, st.mem, rdW, reqW)[first..first + Count(Cdb(reqR))]))
  {
    hide ProcessHead;
    hide ReadData;
    hide OnDisk;
    hide Join;
    hide SentBlocks;
    hide DataFits;
    hide DiskHolds;
    hide RingMapped;
    hide Avoids;
    hide Distinct;
    hide Walk;
    hide RequestOf;
    WrittenOnDisk(env, st, w, rdW, wrW, reqW, reqR, a, tail);
    ReadCopiesImage(env', later, r, rdR, wrR, reqR, c);
  }

  /** After a WRITE, the image has its blocks where any part of them is asked for. */
  lemma WrittenOnDisk(env: Env, st: St, w: nat, rd: seq<MemoryExtent>, wr: seq<MemoryExtent>, req: seq<byte>,
                      part: seq<byte>, a: seq<Block>, tail: seq<byte>)
    requires WellFormed(env, st) && BlockRequest(env, st, w, 0x2A, rd, wr, req)
    requires DiskHolds(env, st, UnitOf(req), a, tail) && InRange(req, |a|)
    requires DataFits(env.units[UnitOf(req)], req, AfterRead(rd, |req|)) && ProcessHead(env, st, w).Ok?
    requires |part| >= HEADER_LEN + 10 && UnitOf(part) == UnitOf(req) && PartOf(part, req)
    ensures var st', first := ProcessHead(env, st, w).st, Lba(Cdb(part)) - Lba(Cdb(req));
      OnDisk(env, st', part) == Join(SentBlocks(env, st.mem, rd, req)[first..first + Count(Cdb(part))])
  {
    hide ProcessHead;
    hide HoldsBlocks;
    hide Join;
    hide FileRead;
    hide Walk;
    hide RequestOf;
    hide SentBlocks;
    hide DataFits;
    hide Lba;
    hide Count;
    var ds := SentBlocks(env, st.mem, rd, req);
    var lba, count := Lba(Cdb(part)), Count(Cdb(part));
    WriteReachesDisk(env, st, w, rd, wr, req, a, tail);
    ReadGivesBlocks(ProcessHead(env, st, w).st.units[UnitOf(req)].image, Overwrite(a, Lba(Cdb(req)), ds),
                    env.units[UnitOf(req)].blockSize, tail, lba, count);
    OverwrittenPart(a, Lba(Cdb(req)), ds, lba - Lba(Cdb(req)), count);
  }

  lemma OverwrittenPart(a: seq<Block>, at: nat, ds: seq<Block>, first: nat, count: nat)
    requires at + |ds| <= |a| && first + count <= |ds|
    ensures Overwrite(a, at, ds)[at + first..at + first + count] == ds[first..first + count]
  {
  }

  /** The blocks of one request are among those of another. */
  predicate PartOf(req: seq<byte>, all: seq<byte>)
    requires |req| >= HEADER_LEN + 10 && |all| >= HEADER_LEN + 10
  {
    && Lba(Cdb(all)) <= Lba(Cdb(req))
    && Lba(Cdb(req)) + Count(Cdb(req)) <= Lba(Cdb(all)) + Count(Cdb(all))
  }
}

/** What a driver lays out in memory, by Virtio 1.2 sections 2.7.5, 2.7.6, 2.7.8
    and 5.6.6.1, is what the device takes from there, and the other way round:
    requests that a driver puts into its table, and what it finds of them in its
    buffers and on the disk. */
module DriverView {
  import opened Common
  import opened Bytes
  import opened Extents
  import opened Buffers
  import opened GuestMap
  import opened Scsi
  import opened DiskArray
  import opened VirtQueue
  import opened ChainProofs
  import opened TableProofs
  import opened QueueProofs
  import opened RequestProofs
  import opened DrainProofs
  import opened OutcomeProofs

  // ---- The available ring ---------------------------------------------------------

  function PackSlots(slots: seq<nat>): (b: seq<byte>)
    ensures |b| == 2 * |slots|
  {
    if slots == [] then [] else ToLe(slots[0], 2) + PackSlots(slots[1..])
  }

  /** le16 flags, le16 idx, le16 ring[], le16 used_event */
  function PackAvail(flags: nat, idx: nat, slots: seq<nat>, usedEvent: nat): (b: seq<byte>)
    ensures |b| == RingLen(|slots|)
  {
    ToLe(flags, 2) + ToLe(idx, 2) + PackSlots(slots) + ToLe(usedEvent, 2)
  }

  lemma {:induction false} SlotBytes(slots: seq<nat>, i: nat)
    requires i < |slots|
    ensures PackSlots(slots)[2 * i..2 * i + 2] == ToLe(slots[i], 2)
  {
    hide ToLe;
    if i > 0 {
      SlotBytes(slots[1..], i - 1);
      assert PackSlots(slots)[2 * i..2 * i + 2] == PackSlots(slots[1..])[2 * (i - 1)..2 * (i - 1) + 2];
    }
  }

  lemma AvailReads(flags: nat, idx: nat, slots: seq<nat>, usedEvent: nat, i: Index)
    requires |slots| > 0 && idx < INDEX_SPAN
    ensures RingIndex(PackAvail(flags, idx, slots, usedEvent), |slots|) == idx
    ensures slots[i % |slots|] < INDEX_SPAN ==>
      RingEntry(PackAvail(flags, idx, slots, usedEvent), |slots|, i) == slots[i % |slots|]
  {
    assert Limit(2) == 256 * Limit(1) == INDEX_SPAN;
    hide ToLe;
    hide FromLe;
    hide Limit;
    var b, k := PackAvail(flags, idx, slots, usedEvent), i % |slots|;
    UnpackPacked(idx, 2);
    if slots[k] < INDEX_SPAN { UnpackPacked(slots[k], 2); }
    SlotBytes(slots, k);
    assert b[2..4] == ToLe(idx, 2);
    AvailSlot(flags, idx, slots, usedEvent, k);
  }

  lemma AvailSlot(flags: nat, idx: nat, slots: seq<nat>, usedEvent: nat, k: nat)
    requires k < |slots|
    ensures PackAvail(flags, idx, slots, usedEvent)[4 + 2 * k..4 + 2 * k + 2] == PackSlots(slots)[2 * k..2 * k + 2]
  {
    hide PackSlots;
    hide ToLe;
    Middle(ToLe(flags, 2) + ToLe(idx, 2), PackSlots(slots), ToLe(usedEvent, 2), 2 * k, 2 * k + 2);
  }

  lemma Middle<T>(x: seq<T>, y: seq<T>, z: seq<T>, i: nat, j: nat)
    requires i <= j <= |y|
    ensures (x + y + z)[|x| + i..|x| + j] == y[i..j]
  {
  }

  /** A driver that keeps head `n` in slot `n` modulo the queue length, and the
      number of heads modulo 65536 as index, gives the device a ring it can
      follow for ever, provided the queue length divides 65536. */
  lemma PublishedRingHolds(flags: nat, slots: seq<nat>, usedEvent: nat, published: seq<nat>, heads: seq<nat>)
    requires 0 < |slots| < INDEX_SPAN && INDEX_SPAN % |slots| == 0
    requires heads <= published && |published| <= |heads| + |slots|
    requires forall n :: |heads| <= n < |published| ==> slots[n % |slots|] == published[n] && published[n] < INDEX_SPAN
    ensures SnapshotHolds(PackAvail(flags, |published| % INDEX_SPAN, slots, usedEvent), |slots|, published, heads)
  {
    hide PackAvail;
    hide RingIndex;
    hide RingEntry;
    var idx := |published| % INDEX_SPAN;
    AvailReads(flags, idx, slots, usedEvent, 0);
    forall n | |heads| <= n < |published|
      ensures RingEntry(PackAvail(flags, idx, slots, usedEvent), |slots|, n % INDEX_SPAN) == published[n]
    {
      WrapSlot(n, |slots|);
      AvailReads(flags, idx, slots, usedEvent, n % INDEX_SPAN);
    }
  }

  // ---- Requests ---------------------------------------------------------------------------

  /** The LUN goes out as its eight bytes in order, which the device reads most
      significant first; then le64 id, task attribute, priority, CRN and the CDB. */
  function PackRequest(lun: nat, id: nat, taskAttr: byte, priority: byte, crn: byte, cdb: seq<byte>): (b: seq<byte>)
    ensures |b| == HEADER_LEN + |cdb|
  {
    ToBe(lun, 8) + ToLe(id, 8) + [taskAttr, priority, crn] + cdb
  }

  /** A request that lies in front of the chain's readable bytes is taken exactly
      when it does not reach into a second extent and its task attribute and
      priority are in range; then the unit and the CDB are the driver's. */
  lemma RequestAcceptedIff(env: Env, mem: seq<byte>, rd: seq<MemoryExtent>, lun: nat, id: nat, taskAttr: byte,
                           priority: byte, crn: byte, cdb: seq<byte>)
    requires InRam(rd, |mem|) && Within(Addrs(rd), |mem|) && |cdb| == env.cdbLen
    requires 6 <= env.cdbLen < COPY_LIMIT - HEADER_LEN
    requires lun < Limit(8) && HEADER_LEN + env.cdbLen <= |Addrs(rd)|
    requires ReadAll(mem, Addrs(rd)[..HEADER_LEN + env.cdbLen]) == PackRequest(lun, id, taskAttr, priority, crn, cdb)
    ensures RequestOf(env, mem, rd).Some? <==> HEADER_LEN + env.cdbLen <= rd[0].len && taskAttr <= 3 && priority <= 15
    ensures RequestOf(env, mem, rd).Some? ==>
      UnitOf(RequestOf(env, mem, rd).value) == lun && Cdb(RequestOf(env, mem, rd).value) == cdb
  {
    hide ToLe;
    hide ToBe;
    hide FromBe;
    hide Limit;
    UnpackPackedBe(lun, 8);
    var b := PackRequest(lun, id, taskAttr, priority, crn, cdb);
    assert b[0..8] == ToBe(lun, 8) && b[19..] == cdb;
    assert rd != [];
  }

  /** Opcode, flags, be32 block address, group, be16 block count, control. */
  function PackCdb10(op: byte, flags: byte, lba: nat, group: byte, count: nat, control: byte): (b: seq<byte>)
    ensures |b| == 10
  {
    [op, flags] + ToBe(lba, 4) + [group] + ToBe(count, 2) + [control]
  }

  lemma CdbReads(op: byte, flags: byte, lba: nat, group: byte, count: nat, control: byte, rest: seq<byte>)
    requires lba < Limit(4) && count < Limit(2)
    ensures var cdb := PackCdb10(op, flags, lba, group, count, control) + rest;
      cdb[0] == op && cdb[1] == flags && Lba(cdb) == lba && Count(cdb) == count
  {
    hide ToBe;
    hide FromBe;
    hide Limit;
    UnpackPackedBe(lba, 4);
    UnpackPackedBe(count, 2);
    var cdb := PackCdb10(op, flags, lba, group, count, control) + rest;
    assert cdb[2..6] == ToBe(lba, 4) && cdb[7..9] == ToBe(count, 2);
  }

  // ---- Requests in the driver's terms -------------------------------------------------------

  datatype Request = Request(lun: nat, id: nat, taskAttr: byte, priority: byte, crn: byte, cdb: seq<byte>) {
    function Bytes(): (b: seq<byte>)
      ensures |b| == HEADER_LEN + |cdb|
    {
      PackRequest(lun, id, taskAttr, priority, crn, cdb)
    }

    predicate InRange() {
      lun < Limit(8) && taskAttr <= 3 && priority <= 15 && |cdb| >= 6 && HEADER_LEN + |cdb| < COPY_LIMIT
    }
  }

  /** The CDB of a READ or WRITE; `rest` fills it up to the configured length. */
  datatype BlockCmd = BlockCmd(op: byte, flags: byte, lba: nat, group: byte, count: nat, control: byte,
                               rest: seq<byte>) {
    function Cdb(): (b: seq<byte>)
      ensures |b| == 10 + |rest|
    {
      PackCdb10(op, flags, lba, group, count, control) + rest
    }

    predicate InRange() { lba < Limit(4) && count < Limit(2) }
  }

  /** The first readable buffer of the path that is not empty, that of `path[k]`,
      starts with the request, all of it in one memory slot. */
  ghost predicate RequestFirst(env: Env, mem: seq<byte>, table: seq<Descriptor>, path: seq<nat>, k: nat,
                               req: seq<byte>)
    requires SlotsInRam(env.slots, |mem|) && AllUsable(env, table, path)
  {
    && k < |path| && (forall j :: 0 <= j < k ==> table[path[j]].flags / 2 % 2 == 1 || table[path[j]].len == 0)
    && var d := table[path[k]];
       && Usable(env, d) && d.flags / 2 % 2 == 0 && |req| <= d.len && OneSlot(env.slots, d.addr, |req|)
       && FlatBytes(env.slots, mem, d.addr, |req|) == req
  }

  /** The driver has put a complete chain into the descriptor table, with the
      request first and buffers for the reply that are apart from each other and
      from the used ring. */
  ghost predicate Prepared(env: Env, st: St, table: seq<Descriptor>, path: seq<nat>, q: Request)
    requires WellFormed(env, st)
  {
    && TableAt(env, st.mem, table) && TableChain(env, table, path) && AllUsable(env, table, path)
    && env.qlen <= INDEX_SPAN && RingMapped(env)
    && q.InRange() && |q.cdb| == env.cdbLen
    && (exists k :: RequestFirst(env, st.mem, table, path, k, q.Bytes()))
    && RoomForReply(env, path[0], BuffersOf(env, table, path, true))
  }

  ghost predicate RequestInFront(mem: seq<byte>, rd: seq<MemoryExtent>, req: seq<byte>) {
    && rd != [] && |req| <= rd[0].len && rd[0].base + |req| <= |mem|
    && mem[rd[0].base..rd[0].base + |req|] == req
  }

  ghost predicate RoomForReply(env: Env, head: nat, at: seq<nat>) {
    Distinct(at) && |at| < Limit(4) && Avoids(env, Completion(head, 0, at))
  }

  lemma {:induction false} FirstExtent(env: Env, mem: seq<byte>, table: seq<Descriptor>, path: seq<nat>, k: nat,
                                       req: seq<byte>)
    requires SlotsInRam(env.slots, |mem|) && Disjoint(env.slots) && AllUsable(env, table, path)
    requires RequestFirst(env, mem, table, path, k, req) && |req| > 0
    ensures RequestInFront(mem, ExtentsOf(env, table, path, false), req)
  {
    hide Disjoint;
    hide Mapped;
    var d := table[path[0]];
    var rest := ExtentsOf(env, table, path[1..], false);
    assert Usable(env, d);
    ResolveIffMapped(env.slots, d.addr, d.len);
    if k == 0 {
      FrontOfBuffer(env, mem, d.addr, d.len, req);
      var es := Resolve(env.slots, d.addr, d.len).value;
      assert (es + rest)[0] == es[0];
    } else {
      assert table[path[0]].flags / 2 % 2 == 1 || d.len == 0;
      assert RequestFirst(env, mem, table, path[1..], k - 1, req) by {
        forall j | 0 <= j < k - 1 ensures table[path[1..][j]].flags / 2 % 2 == 1 || table[path[1..][j]].len == 0 {
          assert table[path[j + 1]].flags / 2 % 2 == 1 || table[path[j + 1]].len == 0;
        }
      }
      FirstExtent(env, mem, table, path[1..], k - 1, req);
      assert [] + rest == rest;
    }
  }

  /** The front of a buffer that lies in one slot is the front of its first
      extent. */
  lemma FrontOfBuffer(env: Env, mem: seq<byte>, gpa: nat, len: nat, req: seq<byte>)
    requires SlotsInRam(env.slots, |mem|) && Disjoint(env.slots) && Mapped(env.slots, gpa, len)
    requires 0 < |req| <= len && OneSlot(env.slots, gpa, |req|) && FlatBytes(env.slots, mem, gpa, |req|) == req
    ensures Resolve(env.slots, gpa, len).Some? && RequestInFront(mem, Resolve(env.slots, gpa, len).value, req)
  {
    hide Disjoint;
    hide Flat;
    hide FlatBytes;
    hide FindSlot;
    ResolveIffMapped(env.slots, gpa, len);
    ResolveInRam(env.slots, gpa, len, |mem|);
    FlatInOneSlot(env.slots, mem, gpa, |req|);
    var e := ExtentAt(FindSlot(env.slots, gpa).value, gpa, len);
    assert Resolve(env.slots, gpa, len).value[0] == e;
  }

  lemma FlatInOneSlot(rs: seq<SlotRange>, mem: seq<byte>, gpa: nat, n: nat)
    requires SlotsInRam(rs, |mem|) && Disjoint(rs) && Mapped(rs, gpa, n) && n > 0 && OneSlot(rs, gpa, n)
    ensures FindSlot(rs, gpa).Some?
    ensures var base := FindSlot(rs, gpa).value.Host(gpa);
      base + n <= |mem| && FlatBytes(rs, mem, gpa, n) == mem[base..base + n]
  {
    hide Disjoint;
    hide FindSlot;
    var base := FindSlot(rs, gpa).value.Host(gpa);
    forall i | 0 <= i < n ensures Flat(rs, gpa, n)[i] == base + i { InsideOneSlot(rs, gpa, i); }
  }

  lemma InsideOneSlot(rs: seq<SlotRange>, gpa: nat, i: nat)
    requires Disjoint(rs) && FindSlot(rs, gpa).Some? && FindSlot(rs, gpa).value.Has(gpa + i)
    ensures Translate(rs, gpa + i) == Some(FindSlot(rs, gpa).value.Host(gpa) + i)
  {
    var s := FindSlot(rs, gpa).value;
    FindSlotFinds(rs, s, gpa + i);
    SameSlot(rs, s, FindSlot(rs, gpa + i).value, gpa + i);
  }

  /** What the other proofs need of a prepared request. */
  lemma PreparedFacts(env: Env, st: St, table: seq<Descriptor>, path: seq<nat>, q: Request)
    requires WellFormed(env, st) && Prepared(env, st, table, path, q)
    ensures path != [] && RingMapped(env) && AllUsable(env, table, path) && |q.Bytes()| == HEADER_LEN + env.cdbLen
    ensures |q.cdb| == env.cdbLen >= 6 && path[0] < Limit(4) && env.qlen > 0
    ensures var rd, wr := ExtentsOf(env, table, path, false), ExtentsOf(env, table, path, true);
      && Walk(env, st.mem, path[0], {}, [], []) == Chain(rd, wr)
      && InRam(rd, |st.mem|) && InRam(wr, |st.mem|) && RequestInFront(st.mem, rd, q.Bytes())
      && Addrs(rd) == BuffersOf(env, table, path, false) && Addrs(wr) == BuffersOf(env, table, path, true)
    ensures var at := BuffersOf(env, table, path, true);
      Distinct(at) && |at| < Limit(4) && forall c: Completion :: c.addrs == at ==> Avoids(env, c)
  {
    hide Walk;
    hide ExtentsOf;
    hide BuffersOf;
    hide Addrs;
    hide RequestFirst;
    hide RequestInFront;
    hide Usable;
    hide Limit;
    hide InRam;
    hide Distinct;
    WalkedChain(env, st.mem, table, path);
    WalkInRam(env, st.mem, path[0], {}, [], []);
    var k :| RequestFirst(env, st.mem, table, path, k, q.Bytes());
    FirstExtent(env, st.mem, table, path, k, q.Bytes());
    IndexIsSmall();
    FirstInTable(table, path, env);
  }

  lemma FirstInTable(table: seq<Descriptor>, path: seq<nat>, env: Env)
    requires path != [] && AllUsable(env, table, path)
    ensures path[0] < |table|
  {
  }

  /** A prepared request is found by the walk and taken as the driver meant it. */
  lemma PreparedIsRequest(env: Env, st: St, table: seq<Descriptor>, path: seq<nat>, q: Request)
    requires WellFormed(env, st) && Prepared(env, st, table, path, q)
    ensures AllUsable(env, table, path)
    ensures var rd, wr := ExtentsOf(env, table, path, false), ExtentsOf(env, table, path, true);
      && Walk(env, st.mem, path[0], {}, [], []) == Chain(rd, wr)
      && InRam(rd, |st.mem|) && InRam(wr, |st.mem|)
      && RequestOf(env, st.mem, rd) == Some(q.Bytes()) && UnitOf(q.Bytes()) == q.lun && Cdb(q.Bytes()) == q.cdb
  {
    hide Walk;
    hide ToLe;
    hide ToBe;
    hide FromBe;
    hide Limit;
    hide ExtentsOf;
    hide BuffersOf;
    hide Addrs;
    hide TableAt;
    hide TableChain;
    hide AllUsable;
    PreparedFacts(env, st, table, path, q);
    var rd, req := ExtentsOf(env, table, path, false), q.Bytes();
    AddrsWithin(rd, |st.mem|);
    FrontBytes(st.mem, rd, req);
    RequestAcceptedIff(env, st.mem, rd, q.lun, q.id, q.taskAttr, q.priority, q.crn, q.cdb);
    RequestIsFront(env, st.mem, rd, req);
  }

  lemma FrontBytes(mem: seq<byte>, rd: seq<MemoryExtent>, req: seq<byte>)
    requires InRam(rd, |mem|) && RequestInFront(mem, rd, req)
    ensures |req| <= |Addrs(rd)| && Within(Addrs(rd), |mem|)
    ensures ReadAll(mem, Addrs(rd)[..|req|]) == req
  {
    AddrsWithin(rd, |mem|);
    var got := ReadAll(mem, Addrs(rd)[..|req|]);
    forall i | 0 <= i < |req| ensures got[i] == req[i] {
      assert mem[rd[0].base..rd[0].base + |req|][i] == mem[rd[0].base + i];
    }
  }

  /** A request that is taken is the bytes in front. */
  lemma RequestIsFront(env: Env, mem: seq<byte>, rd: seq<MemoryExtent>, req: seq<byte>)
    requires InRam(rd, |mem|) && RequestOf(env, mem, rd).Some? && |req| == HEADER_LEN + env.cdbLen
    requires |req| <= |Addrs(rd)| && Within(Addrs(rd), |mem|) && ReadAll(mem, Addrs(rd)[..|req|]) == req
    ensures RequestOf(env, mem, rd) == Some(req)
  {
  }

  /** The disks and the result of a prepared request's command. */
  ghost function ResultOf(env: Env, st: St, table: seq<Descriptor>, path: seq<nat>, q: Request)
    : (r: (map<nat, UnitState>, Outcome<Reply>))
    requires WellFormed(env, st) && Prepared(env, st, table, path, q)
    ensures r.0.Keys == st.units.Keys
  {
    PreparedFacts(env, st, table, path, q);
    CommandOutcome(env, st.mem, st.units, q.Bytes(), ExtentsOf(env, table, path, false),
                   ExtentsOf(env, table, path, true))
  }

  /** The device completes a prepared request: its command's effect on the disks
      is there, its reply is in the chain's writable buffers, and its completion
      is the last one posted. */
  lemma PreparedCompletes(env: Env, st: St, table: seq<Descriptor>, path: seq<nat>, q: Request)
    requires WellFormed(env, st) && Prepared(env, st, table, path, q)
    ensures path != [] && AllUsable(env, table, path)
    ensures var r, x := ProcessHead(env, st, path[0]), ResultOf(env, st, table, path, q);
      var reply := ChainReply(path[0], BuffersOf(env, table, path, true), Response(x.1, env.senseLen));
      && r.Ok? && r.st.done == st.done + [reply.Posted()] && ReplyHeld(r.st.mem, reply)
      && r.st.units == x.0 && r.st.heads == st.heads + [path[0]] && r.st.isr > 0 && r.st.line
  {
    hide ProcessHead;
    hide CommandOutcome;
    hide Response;
    hide Walk;
    hide RequestOf;
    hide ExtentsOf;
    hide BuffersOf;
    hide PostedMem;
    hide Bits.Or;
    hide WriteAll;
    hide Addrs;
    hide Limit;
    hide Avoids;
    hide RingMapped;
    hide Distinct;
    hide Prepared;
    hide Request.Bytes;
    PreparedFacts(env, st, table, path, q);
    PreparedIsRequest(env, st, table, path, q);
    var rd, wr := ExtentsOf(env, table, path, false), ExtentsOf(env, table, path, true);
    ServedHead(env, st, path[0], rd, wr, q.Bytes());
    AddrsWithin(wr, |st.mem|);
    var s, at := Serve(env, st.mem, st.units, q.Bytes(), rd, wr), Addrs(wr);
    var resp := Response(ResultOf(env, st, table, path, q).1, env.senseLen);
    ScatterFacts(st.mem, at, resp);
    PostKeepsReply(env, st.(heads := st.heads + [path[0]], mem := s.0, units := s.1), ChainReply(path[0], at, resp));
    OrOne(st.isr);
  }

  lemma PostKeepsReply(env: Env, st: St, reply: ChainReply)
    requires WellFormed(env, st) && RingMapped(env) && Avoids(env, reply.Posted()) && ReplyHeld(st.mem, reply)
    ensures Post(env, st, reply.Posted()).Ok? ==> ReplyHeld(Post(env, st, reply.Posted()).st.mem, reply)
  {
    hide Post;
    hide Avoids;
    hide RingMapped;
    if Post(env, st, reply.Posted()).Ok? {
      var mem' := Post(env, st, reply.Posted()).st.mem;
      forall j | 0 <= j < Min(|reply.resp|, |reply.at|) ensures mem'[reply.at[j]] == reply.resp[j] {
        PostKeepsBuffers(env, st, reply.Posted(), j);
      }
    }
  }

  // ---- What the driver finds ------------------------------------------------------------------

  /** What a driver reads of a request that completed well: the length of
      everything in the used entry; header and sense area, of which every field is
      zero; and the data behind them, each as far as its buffers reach. */
  ghost predicate Answered(env: Env, mem: seq<byte>, c: Completion, data: seq<byte>) {
    && Within(c.addrs, |mem|)
    && c.written == Min(12 + env.senseLen + |data|, |c.addrs|)
    && (forall j :: 0 <= j < 12 + env.senseLen && j < |c.addrs| ==> mem[c.addrs[j]] == 0)
    && ReadData(env, mem, c.addrs, data)
  }

  /** What it reads of a request that was refused with additional sense code
      `asc`: le32 sense length 18, status 2 in byte 10, response 0 in byte 11; then
      fixed-format sense data with code 0x70, sense key 5 in its byte 2 and `asc` in
      its byte 12, and zeros up to the configured length. */
  ghost predicate Refused(env: Env, mem: seq<byte>, c: Completion, asc: byte) {
    var n := 12 + Max(18, env.senseLen);
    && Within(c.addrs, |mem|) && c.written == Min(n, |c.addrs|)
    && forall j :: 0 <= j < n && j < |c.addrs| ==> mem[c.addrs[j]] == RefusalByte(asc, j)
  }

  function RefusalByte(asc: byte, j: nat): byte {
    if j == 0 then 18 else if j == 10 then 2 else if j == 12 then 0x70 else if j == 14 then 5
    else if j == 24 then asc else 0
  }

  /** What it reads of a command that raised: a header alone, with response 7,
      VIRTIO_SCSI_S_TARGET_FAILURE, and nothing else. */
  ghost predicate TargetFailed(mem: seq<byte>, c: Completion) {
    && Within(c.addrs, |mem|) && c.written == Min(12, |c.addrs|)
    && forall j :: 0 <= j < 12 && j < |c.addrs| ==> mem[c.addrs[j]] == if j == 11 then 7 else 0
  }

  lemma GoodAnswers(env: Env, mem: seq<byte>, head: nat, at: seq<nat>, data: seq<byte>)
    requires ReplyHeld(mem, ChainReply(head, at, Response(Returns(Reply(0, None, data)), env.senseLen)))
    ensures Answered(env, mem, ChainReply(head, at, Response(Returns(Reply(0, None, data)), env.senseLen)).Posted(),
                     data)
  {
    hide Response;
    hide FromLe;
    var resp := Response(Returns(Reply(0, None, data)), env.senseLen);
    assert 0 < Limit(4);
    hide Limit;
    ResponseLayout(Returns(Reply(0, None, data)), env.senseLen);
    ZerosValueBack(resp[0..4]);
    GoodResponse(data, env.senseLen);
  }

  lemma RefusalAnswers(env: Env, mem: seq<byte>, head: nat, at: seq<nat>, asc: byte)
    requires ReplyHeld(mem, ChainReply(head, at, Response(Returns(Refusal(asc)), env.senseLen)))
    ensures Refused(env, mem, ChainReply(head, at, Response(Returns(Refusal(asc)), env.senseLen)).Posted(), asc)
  {
    hide Response;
    hide Refusal;
    hide RefusalByte;
    RefusalBytes(asc, env.senseLen);
  }

  lemma RefusalBytes(asc: byte, senseLen: nat)
    ensures var resp := Response(Returns(Refusal(asc)), senseLen);
      |resp| == 12 + Max(18, senseLen) && forall j :: 0 <= j < |resp| ==> resp[j] == RefusalByte(asc, j)
  {
    hide Response;
    hide FromLe;
    EighteenFits();
    hide Limit;
    var resp, sense := Response(Returns(Refusal(asc)), senseLen), Refusal(asc).sense.value;
    ResponseLayout(Returns(Refusal(asc)), senseLen);
    SenseLength(resp[0..4]);
    SenseBytes(asc);
    forall j | 0 <= j < |resp| ensures resp[j] == RefusalByte(asc, j) {
      if j < 4 {
        assert resp[0..4][j] == resp[j];
      } else if 12 <= j < 30 {
        assert resp[12..30][j - 12] == resp[j];
      }
    }
  }

  lemma SenseBytes(asc: byte)
    ensures forall j :: 0 <= j < 18 ==> Refusal(asc).sense.value[j] == RefusalByte(asc, 12 + j)
  {
  }

  lemma EighteenFits()
    ensures 18 < Limit(4)
  {
    assert Limit(4) == 256 * Limit(3);
    assert Limit(3) >= 1;
  }

  lemma SenseLength(b: seq<byte>)
    requires |b| == 4 && FromLe(b) == 18
    ensures b == [18, 0, 0, 0]
  {
    PackUnpacked(b);
    ZeroBytes(3);
    assert ToLe(18, 4) == [18] + ToLe(0, 3);
  }

  lemma RaiseAnswers(env: Env, mem: seq<byte>, head: nat, at: seq<nat>)
    requires ReplyHeld(mem, ChainReply(head, at, Response(Raises, env.senseLen)))
    ensures TargetFailed(mem, ChainReply(head, at, Response(Raises, env.senseLen)).Posted())
  {
    hide Response;
    ResponseLayout(Raises, env.senseLen);
  }

  /** The head ends normally with one more completion, its own, for the buffers
      `at`. */
  ghost predicate CompletesOne(st: St, r: Ended, head: nat, at: seq<nat>) {
    && r.Ok? && |r.st.done| == |st.done| + 1 && st.done <= r.st.done
    && r.st.done[|st.done|].head == head && r.st.done[|st.done|].addrs == at
  }

  /** What the driver sends behind the request. */
  ghost function DataBehind(env: Env, table: seq<Descriptor>, path: seq<nat>, q: Request): seq<MemoryExtent>
    requires AllUsable(env, table, path)
  {
    AfterRead(ExtentsOf(env, table, path, false), |q.Bytes()|)
  }

  ghost function DataOutOf(env: Env, table: seq<Descriptor>, path: seq<nat>, q: Request): Option<seq<MemoryExtent>>
    requires AllUsable(env, table, path)
  {
    var rest := DataBehind(env, table, path, q);
    if rest == [] then None else Some(rest)
  }

  /** The request is the given command for blocks the disk has, of a unit with a
      usable block size. */
  ghost predicate AsksForBlocks(env: Env, st: St, q: Request, cmd: BlockCmd, op: byte, a: seq<Block>, tail: seq<byte>) {
    && q.cdb == cmd.Cdb() && cmd.InRange() && cmd.op == op && cmd.lba + cmd.count <= |a|
    && q.lun in env.units && env.units[q.lun].Valid() && DiskHolds(env, st, q.lun, a, tail)
  }

  /** No block of the data behind the request lies in two extents. */
  ghost predicate DataIsInBlocks(cfg: UnitConfig, rest: seq<MemoryExtent>, count: nat) {
    cfg.Valid() && cfg.kind.Disk? && BlocksFit(rest, count * cfg.blockSize, cfg.blockSize)
  }

  /** The image holds the blocks `a` with `count` of them, from block `lba` on,
      replaced by the guest bytes at `at`. */
  ghost predicate HoldsWritten(cfg: UnitConfig, image: seq<byte>, a: seq<Block>, tail: seq<byte>, lba: nat, count: nat,
                               mem: seq<byte>, at: seq<nat>)
    requires lba + count <= |a|
  {
    && Within(at, |mem|)
    && HoldsBlocks(image, Overwrite(a, lba, DataBlocks(mem, at, count, cfg.blockSize)), cfg.blockSize, tail)
  }

  /** The room for data-in, if the driver has given any buffer at all. */
  function RoomIn(at: seq<nat>): Option<nat> { if at == [] then None else Some(|at|) }

  /** The unit with the request's LUN runs its command. */
  lemma ResultIsExecute(env: Env, st: St, table: seq<Descriptor>, path: seq<nat>, q: Request)
    requires WellFormed(env, st) && Prepared(env, st, table, path, q)
    ensures path != [] && AllUsable(env, table, path) && |q.cdb| >= 6
    ensures var out, at, x := DataOutOf(env, table, path, q), BuffersOf(env, table, path, true),
                              ResultOf(env, st, table, path, q);
      && (out.Some? ==> InRam(out.value, |st.mem|) && NonEmpty(out.value))
      && (if q.lun in st.units then
            var e := Execute(env.units[q.lun], st.units[q.lun], q.cdb, st.mem, out, RoomIn(at));
            x == (st.units[q.lun := e.0], e.1)
          else x == (st.units, Returns(Refusal(0x25))))
  {
    hide Walk;
    hide RequestOf;
    hide ExtentsOf;
    hide BuffersOf;
    hide Addrs;
    hide Execute;
    hide Prepared;
    hide NonEmpty;
    hide InRam;
    hide Limit;
    hide Avoids;
    hide Distinct;
    PreparedFacts(env, st, table, path, q);
    PreparedIsRequest(env, st, table, path, q);
    var rd, wr := ExtentsOf(env, table, path, false), ExtentsOf(env, table, path, true);
    ReadableNonEmpty(env, st.mem, path[0], rd, wr);
    RestNonEmpty(rd, |q.Bytes()|);
    AfterReadInRam(rd, |q.Bytes()|, |st.mem|);
    var rest := AfterRead(rd, |q.Bytes()|);
    NonEmptyAddrs(rest);
    if q.lun !in st.units { UnknownUnit(env.units, st.units, q.lun, q.cdb, st.mem, None, None); }
  }

  /** A driver that prepares a READ(10) finds the blocks in its buffers, behind
      the response header and the sense area, the good outcome in the header and
      the length of all of it in the used entry. */
  lemma DriverReads(env: Env, st: St, table: seq<Descriptor>, path: seq<nat>, q: Request, cmd: BlockCmd,
                    a: seq<Block>, tail: seq<byte>)
    requires WellFormed(env, st) && Prepared(env, st, table, path, q)
    requires AsksForBlocks(env, st, q, cmd, 0x28, a, tail)
    requires AllUsable(env, table, path) && BuffersOf(env, table, path, true) != []
    ensures path != [] && AllUsable(env, table, path)
    ensures var r := ProcessHead(env, st, path[0]);
      && CompletesOne(st, r, path[0], BuffersOf(env, table, path, true))
      && Answered(env, r.st.mem, r.st.done[|st.done|], Join(a[cmd.lba..cmd.lba + cmd.count]))
      && DiskHolds(env, r.st, q.lun, a, tail)
  {
    hide ProcessHead;
    hide ExtentsOf;
    hide BuffersOf;
    hide HoldsBlocks;
    hide Prepared;
    hide PackCdb10;
    hide Lba;
    hide Count;
    hide Join;
    hide Execute;
    hide Answered;
    hide ReplyHeld;
    hide Response;
    hide ResultOf;
    hide InRam;
    hide NonEmpty;
    PreparedCompletes(env, st, table, path, q);
    ResultIsExecute(env, st, table, path, q);
    CdbReads(cmd.op, cmd.flags, cmd.lba, cmd.group, cmd.count, cmd.control, cmd.rest);
    var data := Join(a[cmd.lba..cmd.lba + cmd.count]);
    var at := BuffersOf(env, table, path, true);
    ReadExecutes(env.units[q.lun], st.units[q.lun], q.cdb, st.mem, DataOutOf(env, table, path, q), |at|, a, tail);
    GoodAnswers(env, ProcessHead(env, st, path[0]).st.mem, path[0], at, data);
  }

  /** Behind the request comes the rest of the readable buffers. */
  lemma DataBehindRequest(env: Env, st: St, table: seq<Descriptor>, path: seq<nat>, q: Request)
    requires WellFormed(env, st) && Prepared(env, st, table, path, q)
    ensures AllUsable(env, table, path) && |q.Bytes()| <= |BuffersOf(env, table, path, false)|
    ensures var rest := DataBehind(env, table, path, q);
      && Addrs(rest) == BuffersOf(env, table, path, false)[|q.Bytes()|..] && Within(Addrs(rest), |st.mem|)
      && InRam(rest, |st.mem|) && NonEmpty(rest)
  {
    hide Walk;
    hide Prepared;
    hide ExtentsOf;
    hide BuffersOf;
    hide Distinct;
    hide Avoids;
    hide Limit;
    PreparedFacts(env, st, table, path, q);
    var rd, wr := ExtentsOf(env, table, path, false), ExtentsOf(env, table, path, true);
    AfterReadAddrs(rd, |q.Bytes()|);
    AfterReadInRam(rd, |q.Bytes()|, |st.mem|);
    AddrsWithin(AfterRead(rd, |q.Bytes()|), |st.mem|);
    ReadableNonEmpty(env, st.mem, path[0], rd, wr);
    RestNonEmpty(rd, |q.Bytes()|);
  }

  /** The command of a prepared WRITE(10) whose data fits. */
  lemma PreparedWrite(env: Env, st: St, table: seq<Descriptor>, path: seq<nat>, q: Request, cmd: BlockCmd,
                      a: seq<Block>, tail: seq<byte>)
    requires WellFormed(env, st) && Prepared(env, st, table, path, q) && AllUsable(env, table, path)
    requires AsksForBlocks(env, st, q, cmd, 0x2A, a, tail)
    requires DataIsInBlocks(env.units[q.lun], DataBehind(env, table, path, q), cmd.count)
    ensures var x, at := ResultOf(env, st, table, path, q), Addrs(DataBehind(env, table, path, q));
      && x.1 == Returns(Reply(0, None, [])) && q.lun in x.0
      && HoldsWritten(env.units[q.lun], x.0[q.lun].image, a, tail, cmd.lba, cmd.count, st.mem, at)
  {
    hide ExtentsOf;
    hide BuffersOf;
    hide BlocksFit;
    hide DataBlocks;
    hide HoldsBlocks;
    hide Overwrite;
    hide Prepared;
    hide PackCdb10;
    hide Lba;
    hide Count;
    hide NonEmpty;
    hide ResultOf;
    hide InRam;
    hide Addrs;
    hide Execute;
    hide DataBehind;
    ResultIsExecute(env, st, table, path, q);
    DataBehindRequest(env, st, table, path, q);
    CdbReads(cmd.op, cmd.flags, cmd.lba, cmd.group, cmd.count, cmd.control, cmd.rest);
    WriteExecutes(env.units[q.lun], st.units[q.lun], q.cdb, st.mem, DataBehind(env, table, path, q),
                  RoomIn(BuffersOf(env, table, path, true)), a, tail);
  }

  /** A driver that prepares a WRITE(10) whose data lies behind the request, no
      block of it in two extents, finds its blocks on the disk, every other block
      as before, and the good outcome in its buffers. */
  lemma DriverWrites(env: Env, st: St, table: seq<Descriptor>, path: seq<nat>, q: Request, cmd: BlockCmd,
                     a: seq<Block>, tail: seq<byte>)
    requires WellFormed(env, st) && Prepared(env, st, table, path, q) && AllUsable(env, table, path)
    requires AsksForBlocks(env, st, q, cmd, 0x2A, a, tail)
    requires DataIsInBlocks(env.units[q.lun], DataBehind(env, table, path, q), cmd.count)
    ensures path != [] && |q.Bytes()| <= |BuffersOf(env, table, path, false)|
    ensures var r, at := ProcessHead(env, st, path[0]), BuffersOf(env, table, path, false)[|q.Bytes()|..];
      && CompletesOne(st, r, path[0], BuffersOf(env, table, path, true))
      && Answered(env, r.st.mem, r.st.done[|st.done|], [])
      && q.lun in r.st.units
      && HoldsWritten(env.units[q.lun], r.st.units[q.lun].image, a, tail, cmd.lba, cmd.count, st.mem, at)
  {
    hide ProcessHead;
    hide ExtentsOf;
    hide BuffersOf;
    hide DataIsInBlocks;
    hide HoldsWritten;
    hide Prepared;
    hide NonEmpty;
    hide Answered;
    hide ReplyHeld;
    hide Response;
    hide ResultOf;
    hide InRam;
    hide Addrs;
    hide DataBehind;
    hide BlockCmd.Cdb;
    hide HoldsBlocks;
    PreparedCompletes(env, st, table, path, q);
    DataBehindRequest(env, st, table, path, q);
    PreparedWrite(env, st, table, path, q, cmd, a, tail);
    GoodAnswers(env, ProcessHead(env, st, path[0]).st.mem, path[0], BuffersOf(env, table, path, true), []);
  }

  ghost predicate SameImages(us: map<nat, UnitState>, us': map<nat, UnitState>) {
    us.Keys == us'.Keys && forall l :: l in us ==> us[l].image == us'[l].image
  }

  /** TEST UNIT READY: the good outcome without data, and no disk changes. */
  lemma DriverAsksReady(env: Env, st: St, table: seq<Descriptor>, path: seq<nat>, q: Request)
    requires WellFormed(env, st) && Prepared(env, st, table, path, q) && q.lun in env.units && q.cdb[0] == 0x00
    ensures path != [] && AllUsable(env, table, path)
    ensures var r := ProcessHead(env, st, path[0]);
      && CompletesOne(st, r, path[0], BuffersOf(env, table, path, true))
      && Answered(env, r.st.mem, r.st.done[|st.done|], []) && SameImages(st.units, r.st.units)
  {
    hide ProcessHead;
    hide BuffersOf;
    hide Prepared;
    hide Answered;
    hide ReplyHeld;
    hide Response;
    hide ResultOf;
    hide Execute;
    hide NonEmpty;
    hide InRam;
    PreparedCompletes(env, st, table, path, q);
    ResultIsExecute(env, st, table, path, q);
    var at := BuffersOf(env, table, path, true);
    TestUnitReady(env.units[q.lun], st.units[q.lun], q.cdb, st.mem, DataOutOf(env, table, path, q), RoomIn(at));
    GoodAnswers(env, ProcessHead(env, st, path[0]).st.mem, path[0], at, []);
  }

  /** A LUN without a unit is answered with additional sense code 0x25, an
      operation code the unit does not know with 0x20, and a bad field with 0x24; no
      disk changes, and the unit remembers its sense data. */
  lemma DriverIsRefused(env: Env, st: St, table: seq<Descriptor>, path: seq<nat>, q: Request, asc: byte)
    requires WellFormed(env, st) && Prepared(env, st, table, path, q)
    requires if q.lun !in env.units then asc == 0x25
             else if !Supported(env.units[q.lun].kind, q.cdb[0]) then asc == 0x20
             else
               && asc == 0x24 && env.units[q.lun].Valid() && q.cdb[0] != 0x00
               && !IsPage(env.units[q.lun].kind, q.cdb[0]) && BadField(q.cdb)
    ensures path != [] && AllUsable(env, table, path)
    ensures var r := ProcessHead(env, st, path[0]);
      && CompletesOne(st, r, path[0], BuffersOf(env, table, path, true))
      && Refused(env, r.st.mem, r.st.done[|st.done|], asc) && SameImages(st.units, r.st.units)
      && (q.lun in env.units ==> r.st.units[q.lun].lastSense == Assigned(Refusal(asc).sense))
  {
    hide ProcessHead;
    hide BuffersOf;
    hide Prepared;
    hide Refused;
    hide ReplyHeld;
    hide Response;
    hide ResultOf;
    hide Execute;
    hide BadField;
    hide NonEmpty;
    hide InRam;
    PreparedCompletes(env, st, table, path, q);
    ResultIsExecute(env, st, table, path, q);
    var at, out := BuffersOf(env, table, path, true), DataOutOf(env, table, path, q);
    if q.lun in env.units {
      if Supported(env.units[q.lun].kind, q.cdb[0]) {
        BlockOutcome(env.units[q.lun], st.units[q.lun], q.cdb, st.mem, out, RoomIn(at));
      } else {
        UnknownOpcode(env.units[q.lun], st.units[q.lun], q.cdb, st.mem, out, RoomIn(at));
      }
    }
    RefusalAnswers(env, ProcessHead(env, st, path[0]).st.mem, path[0], at, asc);
  }

  /** A command that raises is answered with TARGET_FAILURE and nothing else; only
      a WRITE(10) may have changed its disk. */
  lemma DriverSeesFailure(env: Env, st: St, table: seq<Descriptor>, path: seq<nat>, q: Request)
    requires WellFormed(env, st) && Prepared(env, st, table, path, q) && AllUsable(env, table, path)
    requires q.lun in env.units && env.units[q.lun].Valid() && Supported(env.units[q.lun].kind, q.cdb[0])
    requires q.cdb[0] != 0x00 && !IsPage(env.units[q.lun].kind, q.cdb[0]) && !BadField(q.cdb)
    requires CannotRun(env.units[q.lun], st.units[q.lun], q.cdb, DataOutOf(env, table, path, q),
                       RoomIn(BuffersOf(env, table, path, true)))
    ensures path != []
    ensures var r := ProcessHead(env, st, path[0]);
      && CompletesOne(st, r, path[0], BuffersOf(env, table, path, true))
      && TargetFailed(r.st.mem, r.st.done[|st.done|])
      && (q.cdb[0] != 0x2A ==> SameImages(st.units, r.st.units))
  {
    hide ProcessHead;
    hide BuffersOf;
    hide Prepared;
    hide TargetFailed;
    hide ReplyHeld;
    hide Response;
    hide ResultOf;
    hide Execute;
    hide BadField;
    hide CannotRun;
    hide NonEmpty;
    hide InRam;
    PreparedCompletes(env, st, table, path, q);
    ResultIsExecute(env, st, table, path, q);
    var at, out := BuffersOf(env, table, path, true), DataOutOf(env, table, path, q);
    BlockOutcome(env.units[q.lun], st.units[q.lun], q.cdb, st.mem, out, RoomIn(at));
    RaiseAnswers(env, ProcessHead(env, st, path[0]).st.mem, path[0], at);
  }

  /** REQUEST SENSE brings the sense data of the unit's last command into the
      driver's buffers, as much as it allows for, and clears it. */
  lemma DriverAsksForSense(env: Env, st: St, table: seq<Descriptor>, path: seq<nat>, q: Request)
    requires WellFormed(env, st) && Prepared(env, st, table, path, q) && q.lun in env.units
    requires q.cdb[0] == 0x03 && q.cdb[1] % 2 == 0 && st.units[q.lun].lastSense.Assigned?
    requires AllUsable(env, table, path) && BuffersOf(env, table, path, true) != []
    ensures path != [] && AllUsable(env, table, path)
    ensures var r, sense := ProcessHead(env, st, path[0]), SenseToReport(st.units[q.lun].lastSense.data);
      && CompletesOne(st, r, path[0], BuffersOf(env, table, path, true))
      && Answered(env, r.st.mem, r.st.done[|st.done|], sense[..Min(q.cdb[4], |sense|)])
      && SameImages(st.units, r.st.units) && r.st.units[q.lun].lastSense == Assigned(None)
  {
    hide ProcessHead;
    hide BuffersOf;
    hide Prepared;
    hide Answered;
    hide ReplyHeld;
    hide Response;
    hide ResultOf;
    hide Execute;
    hide NonEmpty;
    hide InRam;
    PreparedCompletes(env, st, table, path, q);
    ResultIsExecute(env, st, table, path, q);
    var at, sense := BuffersOf(env, table, path, true), SenseToReport(st.units[q.lun].lastSense.data);
    AskForSense(env.units[q.lun], st.units[q.lun], q.cdb, st.mem, DataOutOf(env, table, path, q), |at|);
    GoodAnswers(env, ProcessHead(env, st, path[0]).st.mem, path[0], at, sense[..Min(q.cdb[4], |sense|)]);
  }

  lemma ReadableNonEmpty(env: Env, mem: seq<byte>, head: nat, rd: seq<MemoryExtent>, wr: seq<MemoryExtent>)
    requires SlotsInRam(env.slots, |mem|) && Walk(env, mem, head, {}, [], []) == Chain(rd, wr)
    ensures NonEmpty(rd) && NonEmpty(wr)
  {
    WalkNonEmpty(env, mem, head, {}, [], []);
  }

  // ---- A ring of prepared requests ---------------------------------------------------------

  datatype Job = Job(path: seq<nat>, q: Request)

  /** The driver has prepared a request for each pending head. */
  ghost predicate AllPrepared(env: Env, st: St, table: seq<Descriptor>, heads: seq<nat>, jobs: seq<Job>)
    requires WellFormed(env, st)
  {
    && |jobs| == |heads|
    && forall i :: 0 <= i < |jobs| ==> Prepared(env, st, table, jobs[i].path, jobs[i].q) && jobs[i].path[0] == heads[i]
  }

  lemma PreparedIsServed(env: Env, st: St, table: seq<Descriptor>, path: seq<nat>, q: Request)
    requires WellFormed(env, st) && Prepared(env, st, table, path, q)
    ensures path != [] && Walk(env, st.mem, path[0], {}, [], []).Chain? && Served(env, st.mem, path[0])
    ensures AllUsable(env, table, path) && WritableAt(env, st.mem, path[0]) == BuffersOf(env, table, path, true)
  {
    hide Walk;
    hide RequestOf;
    hide ExtentsOf;
    hide BuffersOf;
    hide Prepared;
    hide Distinct;
    hide Avoids;
    hide Limit;
    PreparedFacts(env, st, table, path, q);
    PreparedIsRequest(env, st, table, path, q);
  }

  /** The completions posted, in order, are those of the jobs, for the buffers of
      their descriptors. */
  ghost predicate CompletesJobs(env: Env, table: seq<Descriptor>, before: seq<Completion>, after: seq<Completion>,
                                jobs: seq<Job>)
  {
    && before <= after && |after| == |before| + |jobs|
    && forall i :: 0 <= i < |jobs| ==>
         && AllUsable(env, table, jobs[i].path) && jobs[i].path != []
         && after[|before| + i].head == jobs[i].path[0]
         && after[|before| + i].addrs == BuffersOf(env, table, jobs[i].path, true)
  }

  /** A notification on a ring of prepared requests, whose writable buffers stay
      clear of the descriptor table, each other's requests and the used ring,
      ends normally and posts exactly their completions, in order. */
  lemma NotifyCompletesAll(env: Env, st: St, ring: seq<byte>, published: seq<nat>, table: seq<Descriptor>,
                           jobs: seq<Job>, keep: set<nat>)
    requires WellFormed(env, st) && |ring| == RingLen(env.qlen)
    requires ReadBack(env.slots, st.mem, env.driver, RingLen(env.qlen)) == Bytes(ring)
    requires SnapshotHolds(ring, env.qlen, published, st.heads) && st.avail == |st.heads| % INDEX_SPAN
    requires AllPrepared(env, st, table, published[|st.heads|..], jobs)
    requires Separate(env, st.mem, published[|st.heads|..], keep)
    ensures var r := Notify(env, st);
      && r.Ok? && r.st.heads == published && r.st.avail == |published| % INDEX_SPAN
      && CompletesJobs(env, table, st.done, r.st.done, jobs) && r.st.dropped == st.dropped
      && (jobs != [] ==> r.st.isr > 0 && r.st.line)
  {
    hide ReadBack;
    hide Drain;
    hide RingHeads;
    hide ProcessAll;
    hide Separate;
    hide Served;
    hide Prepared;
    hide Walk;
    hide WritableAt;
    hide AllUsable;
    hide BuffersOf;
    var idx, heads := RingIndex(ring, env.qlen), published[|st.heads|..];
    forall i | 0 <= i < |heads|
      ensures jobs[i].path != [] && Walk(env, st.mem, heads[i], {}, [], []).Chain? && Served(env, st.mem, heads[i])
      ensures AllUsable(env, table, jobs[i].path)
      ensures WritableAt(env, st.mem, heads[i]) == BuffersOf(env, table, jobs[i].path, true)
    {
      PreparedIsServed(env, st, table, jobs[i].path, jobs[i].q);
    }
    RingHeadsArePublished(ring, env.qlen, published, |st.heads|);
    DrainIsProcessAll(env, st, ring, st.avail, idx);
    AllOkIff(env, st, heads, keep);
    AllCompleted(env, st, heads, keep);
    DrainIsPublished(env, st, ring, published);
    DrainHistory(env, st, ring, st.avail, idx);
  }
}

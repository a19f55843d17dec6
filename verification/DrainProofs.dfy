/** When a drain raises, and what it leaves when its chains and rings do not get
    in each other's way: a guest can tell both from the memory it had at the
    notification. */
module DrainProofs {
  import Bits
  import opened Common
  import opened Bytes
  import opened Extents
  import opened Buffers
  import opened GuestMap
  import opened Scsi
  import opened VirtQueue
  import opened ChainProofs
  import opened QueueProofs
  import opened RequestProofs

  // ---- Exactly when a drain raises -------------------------------------------------

  /** The heads one after the other, up to one that does not end normally. */
  function ProcessAll(env: Env, st: St, heads: seq<nat>): (r: Ended)
    requires WellFormed(env, st)
    ensures WellFormed(env, r.st) && |r.st.mem| == |st.mem|
    decreases |heads|
  {
    if heads == [] then Ok(st)
    else
      var r := ProcessHead(env, st, heads[0]);
      if r.Ok? then ProcessAll(env, r.st, heads[1..]) else r
  }

  /** A drain is its ring's heads one after the other. */
  lemma {:induction false} DrainIsProcessAll(env: Env, st: St, ring: seq<byte>, cur: Index, idx: Index)
    requires WellFormed(env, st) && env.qlen > 0 && |ring| == RingLen(env.qlen)
    ensures var r := ProcessAll(env, st, RingHeads(ring, env.qlen, cur, idx));
      Drain(env, st, ring, cur, idx) == if r.Ok? then Ok(r.st.(avail := idx)) else r
    decreases Behind(cur, idx)
  {
    hide ProcessHead;
    if cur != idx {
      var r := ProcessHead(env, st, RingEntry(ring, env.qlen, cur));
      BehindNext(cur, idx);
      if r.Ok? { DrainIsProcessAll(env, r.st, ring, (cur + 1) % INDEX_SPAN, idx); }
    }
  }

  /** The device raises at a head: its chain cannot be walked, or the request is
      refused, or the length of the reply does not fit into a used entry. */
  ghost predicate MakesRaise(env: Env, st: St, head: nat)
    requires WellFormed(env, st)
  {
    WalkInRam(env, st.mem, head, {}, [], []);
    var w := Walk(env, st.mem, head, {}, [], []);
    || w.Failed?
    || (w.Chain? &&
          var req := RequestOf(env, st.mem, w.rd);
          req.None? || Serve(env, st.mem, st.units, req.value, w.rd, w.wr).2 >= Limit(4))
  }

  lemma HeadEnds(env: Env, st: St, head: nat)
    requires WellFormed(env, st) && env.qlen > 0 && head < Limit(4)
    ensures ProcessHead(env, st, head).Fails? <==> MakesRaise(env, st, head)
    ensures ProcessHead(env, st, head).Hangs? <==> Walk(env, st.mem, head, {}, [], []) == Endless
  {
    hide Walk;
    hide RequestOf;
    hide Serve;
    hide Limit;
    hide PostedMem;
  }

  /** The first `k` heads go through and the next one raises. */
  ghost predicate RaisesAt(env: Env, st: St, heads: seq<nat>, k: nat)
    requires WellFormed(env, st) && k < |heads|
  {
    var r := ProcessAll(env, st, heads[..k]);
    r.Ok? && MakesRaise(env, r.st, heads[k])
  }

  ghost predicate SomeRaises(env: Env, st: St, heads: seq<nat>)
    requires WellFormed(env, st)
  {
    exists k :: 0 <= k < |heads| && RaisesAt(env, st, heads, k)
  }

  lemma RaisesLater(env: Env, st: St, heads: seq<nat>)
    requires WellFormed(env, st) && heads != [] && ProcessHead(env, st, heads[0]).Ok?
    requires !MakesRaise(env, st, heads[0])
    ensures SomeRaises(env, st, heads) <==> SomeRaises(env, ProcessHead(env, st, heads[0]).st, heads[1..])
  {
    hide ProcessHead;
    hide MakesRaise;
    var st1, rest := ProcessHead(env, st, heads[0]).st, heads[1..];
    forall k | 0 <= k < |rest| ensures RaisesAt(env, st1, rest, k) <==> RaisesAt(env, st, heads, k + 1) {
      assert heads[..k + 1][1..] == rest[..k];
    }
    if SomeRaises(env, st, heads) {
      var k :| 0 <= k < |heads| && RaisesAt(env, st, heads, k);
      assert heads[..0] == [];
      assert k > 0;
      assert RaisesAt(env, st1, rest, k - 1);
    }
    if SomeRaises(env, st1, rest) {
      var k :| 0 <= k < |rest| && RaisesAt(env, st1, rest, k);
      assert RaisesAt(env, st, heads, k + 1);
    }
  }

  lemma {:induction false} AllRaiseIff(env: Env, st: St, heads: seq<nat>)
    requires WellFormed(env, st) && env.qlen > 0 && forall i :: 0 <= i < |heads| ==> heads[i] < Limit(4)
    ensures ProcessAll(env, st, heads).Fails? <==> SomeRaises(env, st, heads)
    decreases |heads|
  {
    hide ProcessHead;
    hide MakesRaise;
    if heads != [] {
      var r := ProcessHead(env, st, heads[0]);
      HeadEnds(env, st, heads[0]);
      if r.Ok? {
        AllRaiseIff(env, r.st, heads[1..]);
        RaisesLater(env, st, heads);
      } else if r.Fails? {
        assert heads[..0] == [];
        assert RaisesAt(env, st, heads, 0);
      } else {
        forall k | 0 <= k < |heads| ensures !RaisesAt(env, st, heads, k) {
          if k > 0 { assert heads[..k][0] == heads[0]; } else { assert heads[..0] == []; }
        }
      }
    }
  }

  ghost predicate Are16Bit(heads: seq<nat>) {
    forall i :: 0 <= i < |heads| ==> heads[i] < INDEX_SPAN
  }

  lemma {:induction false} RingHeadsSmall(ring: seq<byte>, qlen: nat, cur: Index, idx: Index)
    requires qlen > 0 && |ring| == RingLen(qlen)
    ensures Are16Bit(RingHeads(ring, qlen, cur, idx))
    decreases Behind(cur, idx)
  {
    hide RingEntry;
    if cur != idx {
      BehindNext(cur, idx);
      EntryIsSmall(ring, qlen, cur);
      RingHeadsSmall(ring, qlen, (cur + 1) % INDEX_SPAN, idx);
    }
  }

  lemma EntryIsSmall(ring: seq<byte>, qlen: nat, i: Index)
    requires qlen > 0 && |ring| == RingLen(qlen)
    ensures RingEntry(ring, qlen, i) < INDEX_SPAN
  {
    assert Limit(2) == 256 * Limit(1) == INDEX_SPAN;
    PackUnpacked(ring[4 + 2 * (i % qlen)..4 + 2 * (i % qlen) + 2]);
  }

  lemma IndexIsSmall()
    ensures INDEX_SPAN <= Limit(4)
  {
    assert Limit(4) == 256 * Limit(3) && Limit(3) == 256 * Limit(2);
  }

  /** A drain raises exactly when, behind some heads that go through, there is one
      whose chain, in the memory it meets, makes the device raise. */
  lemma DrainFailsIff(env: Env, st: St, ring: seq<byte>, cur: Index, idx: Index)
    requires WellFormed(env, st) && env.qlen > 0 && |ring| == RingLen(env.qlen)
    ensures Drain(env, st, ring, cur, idx).Fails? <==> SomeRaises(env, st, RingHeads(ring, env.qlen, cur, idx))
  {
    hide ProcessAll;
    hide Drain;
    hide RingHeads;
    hide SomeRaises;
    hide Limit;
    DrainIsProcessAll(env, st, ring, cur, idx);
    RingHeadsSmall(ring, env.qlen, cur, idx);
    IndexIsSmall();
    AllRaiseIff(env, st, RingHeads(ring, env.qlen, cur, idx));
  }

  // ---- Memory that stays ---------------------------------------------------------------

  /** The same bytes at the host addresses `keep`. */
  ghost predicate Agree(mem: seq<byte>, mem': seq<byte>, keep: set<nat>) {
    |mem| == |mem'| && forall a :: a in keep && a < |mem| ==> mem[a] == mem'[a]
  }

  /** No address of a guest range is kept at one of these host addresses. */
  ghost predicate ApartFrom(rs: seq<SlotRange>, gpa: nat, len: nat, keep: set<nat>) {
    forall a: nat :: gpa <= a < gpa + len && Translate(rs, a).Some? ==> Translate(rs, a).value !in keep
  }

  /** The descriptor table is kept. */
  ghost predicate KeepsTable(env: Env, keep: set<nat>) {
    forall a: nat :: env.desc <= a < env.desc + 16 * env.qlen && Translate(env.slots, a).Some?
      ==> Translate(env.slots, a).value in keep
  }

  lemma WrittenKeeps(rs: seq<SlotRange>, mem: seq<byte>, gpa: nat, data: seq<byte>, keep: set<nat>)
    requires SlotsInRam(rs, |mem|) && Disjoint(rs) && ApartFrom(rs, gpa, |data|, keep)
    ensures Agree(mem, Written(rs, mem, gpa, data), keep)
  {
    ResolveIffMapped(rs, gpa, |data|);
    if Mapped(rs, gpa, |data|) {
      hide Written;
      forall h | h in keep && h < |mem| ensures mem[h] == Written(rs, mem, gpa, data)[h] {
        forall a: nat | gpa <= a < gpa + |data| ensures Translate(rs, a) != Some(h) {
          assert Translate(rs, a).Some?;
        }
        WrittenFrame(rs, mem, gpa, data, h);
      }
    }
  }

  lemma WriteAllKeeps(mem: seq<byte>, at: seq<nat>, data: seq<byte>, keep: set<nat>)
    requires Within(at, |mem|) && forall i :: 0 <= i < |at| ==> at[i] !in keep
    ensures Agree(mem, WriteAll(mem, at, data), keep)
  {
    hide WriteAll;
    forall h | h in keep && h < |mem| ensures mem[h] == WriteAll(mem, at, data)[h] {
      WriteAllFrame(mem, at, data, h);
    }
  }

  lemma PostedKeeps(env: Env, mem: seq<byte>, off: nat, entry: seq<byte>, index: seq<byte>, keep: set<nat>)
    requires SlotsInRam(env.slots, |mem|) && Disjoint(env.slots)
    requires ApartFrom(env.slots, env.device, UsedLen(env), keep)
    requires off + |entry| <= UsedLen(env) && 2 + |index| <= UsedLen(env)
    ensures Agree(mem, PostedMem(env, mem, off, entry, index), keep)
  {
    hide Written;
    WrittenKeeps(env.slots, mem, env.device + off, entry, keep);
    WrittenKeeps(env.slots, Written(env.slots, mem, env.device + off, entry), env.device + 2, index, keep);
  }

  /** A read inside the table is the same in both memories. */
  lemma SameRead(env: Env, mem: seq<byte>, mem': seq<byte>, keep: set<nat>, gpa: nat, n: nat)
    requires SlotsInRam(env.slots, |mem|) && Disjoint(env.slots) && Agree(mem, mem', keep) && KeepsTable(env, keep)
    requires env.desc <= gpa && gpa + n <= env.desc + 16 * env.qlen
    ensures ReadBack(env.slots, mem, gpa, n) == ReadBack(env.slots, mem', gpa, n)
  {
    var es := Resolve(env.slots, gpa, n);
    if n > 0 && es.Some? {
      var s := FindSlot(env.slots, gpa).value;
      var e := ExtentAt(s, gpa, n);
      assert es.value[0] == e;
      ResolveInRam(env.slots, gpa, n, |mem|);
      var x, y := mem[e.base..e.base + e.len], mem'[e.base..e.base + e.len];
      forall i | 0 <= i < e.len ensures x[i] == y[i] {
        FindSlotFinds(env.slots, s, gpa + i);
        SameSlot(env.slots, s, FindSlot(env.slots, gpa + i).value, gpa + i);
        assert Translate(env.slots, gpa + i) == Some(e.base + i);
      }
      assert x == y;
    }
  }

  lemma SameVisit(env: Env, mem: seq<byte>, mem': seq<byte>, keep: set<nat>, idx: nat)
    requires SlotsInRam(env.slots, |mem|) && Disjoint(env.slots) && Agree(mem, mem', keep) && KeepsTable(env, keep)
    ensures VisitAt(env, mem, idx) == VisitAt(env, mem', idx)
  {
    hide ReadBack;
    hide Resolve;
    if idx < env.qlen {
      Bits.ModSmall(idx, env.qlen);
      SameRead(env, mem, mem', keep, env.desc + 16 * idx, 16);
    }
  }

  lemma {:induction false} SameWalk(env: Env, mem: seq<byte>, mem': seq<byte>, keep: set<nat>, idx: nat,
                                    seen: set<nat>, rd: seq<MemoryExtent>, wr: seq<MemoryExtent>)
    requires SlotsInRam(env.slots, |mem|) && Disjoint(env.slots) && Agree(mem, mem', keep) && KeepsTable(env, keep)
    ensures Walk(env, mem, idx, seen, rd, wr) == Walk(env, mem', idx, seen, rd, wr)
    decreases Below(env.qlen) - seen
  {
    hide VisitAt;
    SameVisit(env, mem, mem', keep, idx);
    var v := VisitAt(env, mem, idx);
    if idx !in seen && v.Piece? && !v.Last() {
      PieceBelow(env, mem, idx);
      assert idx in Below(env.qlen) - seen;
      SameWalk(env, mem, mem', keep, v.d.next, seen + {idx}, rd + v.Readable(), wr + v.Writables());
    }
  }

  lemma PieceBelow(env: Env, mem: seq<byte>, idx: nat)
    requires SlotsInRam(env.slots, |mem|) && VisitAt(env, mem, idx).Piece?
    ensures idx in Below(env.qlen)
  {
  }

  /** The first `n` of the addresses are kept. */
  ghost predicate FrontKept(at: seq<nat>, n: nat, keep: set<nat>) {
    forall i :: 0 <= i < |at| && i < n ==> at[i] in keep
  }

  lemma SameRequest(env: Env, mem: seq<byte>, mem': seq<byte>, keep: set<nat>, rd: seq<MemoryExtent>)
    requires InRam(rd, |mem|) && Agree(mem, mem', keep) && FrontKept(Addrs(rd), HEADER_LEN + env.cdbLen, keep)
    ensures RequestOf(env, mem, rd) == RequestOf(env, mem', rd)
  {
    var n := HEADER_LEN + env.cdbLen;
    if Taken(rd, n) >= n {
      AddrsWithin(rd, |mem|);
      AfterReadAddrs(rd, n);
      assert ReadAll(mem, Addrs(rd)[..n]) == ReadAll(mem', Addrs(rd)[..n]);
    }
  }

  // ---- A snapshot whose chains do not get in each other's way ------------------------------

  /** The chain of `head` writes nothing that is kept, its request is kept, and
      its writable buffers stay below 4 GiB. */
  ghost predicate ChainKept(env: Env, mem: seq<byte>, head: nat, keep: set<nat>)
    requires SlotsInRam(env.slots, |mem|)
  {
    var w := Walk(env, mem, head, {}, [], []);
    w.Chain? ==>
      && FrontKept(Addrs(w.rd), HEADER_LEN + env.cdbLen, keep)
      && (forall i :: 0 <= i < |Addrs(w.wr)| ==> Addrs(w.wr)[i] !in keep)
      && |Addrs(w.wr)| < Limit(4)
  }

  /** `keep` has the descriptor table and the requests of the pending chains; what
      the device writes on their behalf, and the used ring, lie elsewhere. */
  ghost predicate Separate(env: Env, mem: seq<byte>, heads: seq<nat>, keep: set<nat>)
    requires SlotsInRam(env.slots, |mem|)
  {
    && Disjoint(env.slots) && env.qlen > 0 && KeepsTable(env, keep)
    && ApartFrom(env.slots, env.device, UsedLen(env), keep)
    && (forall i :: 0 <= i < |heads| ==> heads[i] < Limit(4) && ChainKept(env, mem, heads[i], keep))
  }

  /** The device can handle the head: it is dropped as invalid, or starts a chain
      with a request that is taken. */
  ghost predicate Served(env: Env, mem: seq<byte>, head: nat)
    requires SlotsInRam(env.slots, |mem|)
  {
    WalkInRam(env, mem, head, {}, [], []);
    var w := Walk(env, mem, head, {}, [], []);
    w.Dropped? || (w.Chain? && RequestOf(env, mem, w.rd).Some?)
  }

  lemma SameChain(env: Env, mem: seq<byte>, mem': seq<byte>, keep: set<nat>, head: nat)
    requires SlotsInRam(env.slots, |mem|) && Disjoint(env.slots) && Agree(mem, mem', keep) && KeepsTable(env, keep)
    requires ChainKept(env, mem, head, keep)
    ensures Walk(env, mem, head, {}, [], []) == Walk(env, mem', head, {}, [], [])
    ensures ChainKept(env, mem', head, keep) && (Served(env, mem, head) <==> Served(env, mem', head))
    ensures var w := Walk(env, mem, head, {}, [], []);
      w.Chain? ==> InRam(w.rd, |mem|) && InRam(w.wr, |mem|) && RequestOf(env, mem, w.rd) == RequestOf(env, mem', w.rd)
  {
    hide Walk;
    hide RequestOf;
    SameWalk(env, mem, mem', keep, head, {}, [], []);
    WalkInRam(env, mem, head, {}, [], []);
    var w := Walk(env, mem, head, {}, [], []);
    if w.Chain? { SameRequest(env, mem, mem', keep, w.rd); }
  }

  /** One head of a separate snapshot: how it ends, and that what is kept stays. */
  lemma HeadKeeps(env: Env, st: St, head: nat, keep: set<nat>)
    requires WellFormed(env, st) && Separate(env, st.mem, [head], keep)
    ensures var r := ProcessHead(env, st, head);
      && Agree(st.mem, r.st.mem, keep)
      && (r.Ok? <==> Served(env, st.mem, head))
      && (r.Hangs? <==> Walk(env, st.mem, head, {}, [], []) == Endless)
  {
    hide Walk;
    hide RequestOf;
    hide Serve;
    hide PostedMem;
    hide Limit;
    hide EntryOf;
    hide ToLe;
    hide KeepsTable;
    hide ApartFrom;
    assert [head][0] == head;
    var w := Walk(env, st.mem, head, {}, [], []);
    WalkInRam(env, st.mem, head, {}, [], []);
    if w.Chain? && RequestOf(env, st.mem, w.rd).Some? {
      var req := RequestOf(env, st.mem, w.rd).value;
      var s := Serve(env, st.mem, st.units, req, w.rd, w.wr);
      ServeKeeps(env, st, req, w.rd, w.wr, keep);
      PostKeeps(env, st.(heads := st.heads + [head], mem := s.0, units := s.1), Completion(head, s.2, Addrs(w.wr)),
                keep);
    }
  }

  lemma ServeKeeps(env: Env, st: St, req: seq<byte>, rd: seq<MemoryExtent>, wr: seq<MemoryExtent>, keep: set<nat>)
    requires WellFormed(env, st) && InRam(rd, |st.mem|) && InRam(wr, |st.mem|)
    requires |req| == HEADER_LEN + env.cdbLen && env.cdbLen >= 6
    requires forall i :: 0 <= i < |Addrs(wr)| ==> Addrs(wr)[i] !in keep
    ensures var s := Serve(env, st.mem, st.units, req, rd, wr);
      Agree(st.mem, s.0, keep) && s.2 <= |Addrs(wr)|
  {
    hide CommandOutcome;
    hide Response;
    hide WriteAll;
    AddrsWithin(wr, |st.mem|);
    WriteAllKeeps(st.mem, Addrs(wr), Response(CommandOutcome(env, st.mem, st.units, req, rd, wr).1, env.senseLen),
                  keep);
  }

  lemma PostKeeps(env: Env, st: St, c: Completion, keep: set<nat>)
    requires WellFormed(env, st) && Disjoint(env.slots) && ApartFrom(env.slots, env.device, UsedLen(env), keep)
    ensures Agree(st.mem, Post(env, st, c).st.mem, keep)
  {
    hide PostedMem;
    hide ApartFrom;
    hide EntryOf;
    hide ToLe;
    if Post(env, st, c).Ok? {
      PostedKeeps(env, st.mem, SlotOffset(env.qlen, st.used), EntryOf(c), ToLe((st.used + 1) % INDEX_SPAN, 2), keep);
    }
  }

  lemma SeparateParts(env: Env, mem: seq<byte>, heads: seq<nat>, keep: set<nat>)
    requires SlotsInRam(env.slots, |mem|) && heads != [] && Separate(env, mem, heads, keep)
    ensures Separate(env, mem, [heads[0]], keep) && Separate(env, mem, heads[1..], keep)
  {
    hide ChainKept;
    hide KeepsTable;
    hide ApartFrom;
  }

  lemma SeparateAcross(env: Env, mem: seq<byte>, mem': seq<byte>, heads: seq<nat>, keep: set<nat>)
    requires SlotsInRam(env.slots, |mem|) && Separate(env, mem, heads, keep) && Agree(mem, mem', keep)
    ensures Separate(env, mem', heads, keep)
    ensures forall i :: 0 <= i < |heads| ==> (Served(env, mem, heads[i]) <==> Served(env, mem', heads[i]))
  {
    hide ChainKept;
    hide KeepsTable;
    hide ApartFrom;
    hide Served;
    forall i | 0 <= i < |heads|
      ensures ChainKept(env, mem', heads[i], keep) && (Served(env, mem, heads[i]) <==> Served(env, mem', heads[i]))
    {
      SameChain(env, mem, mem', keep, heads[i]);
    }
  }

  ghost predicate AllServed(env: Env, mem: seq<byte>, heads: seq<nat>)
    requires SlotsInRam(env.slots, |mem|)
  {
    forall i :: 0 <= i < |heads| ==> Served(env, mem, heads[i])
  }

  lemma {:induction false} AllOkIff(env: Env, st: St, heads: seq<nat>, keep: set<nat>)
    requires WellFormed(env, st) && Separate(env, st.mem, heads, keep)
    ensures ProcessAll(env, st, heads).Ok? <==> AllServed(env, st.mem, heads)
    ensures Agree(st.mem, ProcessAll(env, st, heads).st.mem, keep)
    decreases |heads|
  {
    hide ProcessHead;
    hide Separate;
    hide Served;
    if heads != [] {
      var r := ProcessHead(env, st, heads[0]);
      SeparateParts(env, st.mem, heads, keep);
      HeadKeeps(env, st, heads[0], keep);
      if r.Ok? {
        SeparateAcross(env, st.mem, r.st.mem, heads[1..], keep);
        AllOkIff(env, r.st, heads[1..], keep);
        assert heads == [heads[0]] + heads[1..];
      }
    }
  }

  /** A guest whose chains and rings stay out of each other's way can tell from the
      memory it had at the notification whether the drain ends normally: exactly
      when every pending head is one the device can handle. */
  lemma DrainOkIff(env: Env, st: St, ring: seq<byte>, cur: Index, idx: Index, keep: set<nat>)
    requires WellFormed(env, st) && env.qlen > 0 && |ring| == RingLen(env.qlen)
    requires Separate(env, st.mem, RingHeads(ring, env.qlen, cur, idx), keep)
    ensures Drain(env, st, ring, cur, idx).Ok? <==> AllServed(env, st.mem, RingHeads(ring, env.qlen, cur, idx))
  {
    hide Drain;
    hide RingHeads;
    hide ProcessAll;
    hide AllServed;
    hide Separate;
    DrainIsProcessAll(env, st, ring, cur, idx);
    AllOkIff(env, st, RingHeads(ring, env.qlen, cur, idx), keep);
  }

  // ---- A drain runs its requests one after the other -----------------------------------------

  /** What the chain of `head` is to receive at `at`. */
  datatype ChainReply = ChainReply(head: nat, at: seq<nat>, resp: seq<byte>) {
    function Posted(): Completion { Completion(head, Min(|resp|, |at|), at) }
  }

  /** The disks and the replies when the requests run one after the other on the
      memory `mem`, with nothing written to it in between. */
  function Sequential(env: Env, mem: seq<byte>, units: map<nat, UnitState>, heads: seq<nat>)
    : (r: (map<nat, UnitState>, seq<ChainReply>))
    requires SlotsInRam(env.slots, |mem|) && env.units.Keys == units.Keys
    ensures r.0.Keys == units.Keys
    decreases |heads|
  {
    if heads == [] then (units, [])
    else
      WalkInRam(env, mem, heads[0], {}, [], []);
      var w := Walk(env, mem, heads[0], {}, [], []);
      if !w.Chain? || RequestOf(env, mem, w.rd).None? then Sequential(env, mem, units, heads[1..])
      else
        var x := CommandOutcome(env, mem, units, RequestOf(env, mem, w.rd).value, w.rd, w.wr);
        var rest := Sequential(env, mem, x.0, heads[1..]);
        (rest.0, [ChainReply(heads[0], Addrs(w.wr), Response(x.1, env.senseLen))] + rest.1)
  }

  function Posted(rs: seq<ChainReply>): (cs: seq<Completion>)
    ensures |cs| == |rs| && forall i :: 0 <= i < |rs| ==> cs[i] == rs[i].Posted()
  {
    seq(|rs|, i requires 0 <= i < |rs| => rs[i].Posted())
  }

  /** All readable buffers of the chain, data-out included, are kept. */
  ghost predicate DataKept(env: Env, mem: seq<byte>, head: nat, keep: set<nat>)
    requires SlotsInRam(env.slots, |mem|)
  {
    var w := Walk(env, mem, head, {}, [], []);
    w.Chain? ==> FrontKept(Addrs(w.rd), |Addrs(w.rd)|, keep)
  }

  ghost predicate AllDataKept(env: Env, mem: seq<byte>, heads: seq<nat>, keep: set<nat>)
    requires SlotsInRam(env.slots, |mem|)
  {
    forall i :: 0 <= i < |heads| ==> DataKept(env, mem, heads[i], keep)
  }

  ghost predicate SameAt(mem: seq<byte>, mem': seq<byte>, at: seq<nat>) {
    |mem| == |mem'| && Within(at, |mem|) && forall i :: 0 <= i < |at| ==> mem[at[i]] == mem'[at[i]]
  }

  lemma {:induction false} SameBlocks(image: seq<byte>, pos: nat, count: nat, bs: nat, mem: seq<byte>, mem': seq<byte>,
                                      es: seq<MemoryExtent>)
    requires InRam(es, |mem|) && SameAt(mem, mem', Addrs(es))
    ensures WriteBlocks(image, pos, count, bs, mem, es) == WriteBlocks(image, pos, count, bs, mem', es)
    decreases count
  {
    hide FileWrite;
    if count > 0 && Taken(es, bs) == bs {
      AfterReadAddrs(es, bs);
      AfterReadInRam(es, bs, |mem|);
      var d := ReadAll(mem, Addrs(es)[..bs]);
      assert d == ReadAll(mem', Addrs(es)[..bs]);
      SameBlocks(FileWrite(image, pos, d), pos + bs, count - 1, bs, mem, mem', AfterRead(es, bs));
    }
  }

  lemma SameDispatch(cfg: UnitConfig, u: UnitState, cdb: seq<byte>, mem: seq<byte>, mem': seq<byte>,
                     es: seq<MemoryExtent>, inLen: Option<nat>)
    requires |cdb| >= 6 && InRam(es, |mem|) && SameAt(mem, mem', Addrs(es))
    ensures Dispatch(cfg, u, cdb, mem, Some(es), inLen) == Dispatch(cfg, u, cdb, mem', Some(es), inLen)
  {
    hide WriteBlocks;
    hide FillBlocks;
    hide ExecRead10;
    hide ExecRequestSense;
    if |cdb| >= 10 {
      SameBlocks(u.image, BlockBytes(Lba(cdb), cfg.blockSize), Count(cdb), cfg.blockSize, mem, mem', es);
    }
    if Taken(es, cfg.blockSize) == cfg.blockSize {
      AfterReadAddrs(es, cfg.blockSize);
      assert ReadAll(mem, Addrs(es)[..cfg.blockSize]) == ReadAll(mem', Addrs(es)[..cfg.blockSize]);
    }
  }

  /** A command sees of memory what its chain's readable buffers hold. */
  lemma SameCommand(env: Env, mem: seq<byte>, mem': seq<byte>, units: map<nat, UnitState>, req: seq<byte>,
                    rd: seq<MemoryExtent>, wr: seq<MemoryExtent>)
    requires InRam(rd, |mem|) && env.units.Keys == units.Keys && SameAt(mem, mem', Addrs(rd))
    requires |req| == HEADER_LEN + env.cdbLen && env.cdbLen >= 6
    ensures CommandOutcome(env, mem, units, req, rd, wr) == CommandOutcome(env, mem', units, req, rd, wr)
  {
    hide Dispatch;
    hide FromBe;
    var rest, lun, cdb := AfterRead(rd, |req|), FromBe(req[0..8]), req[19..];
    AfterReadInRam(rd, |req|, |mem|);
    AfterReadAddrs(rd, |req|);
    var out := if |Addrs(rest)| > 0 then Some(rest) else None;
    if lun in units {
      if out.Some? {
        SameDispatch(env.units[lun], units[lun], cdb, mem, mem', rest, NonZero(|Addrs(wr)|));
      } else {
        WithoutData(env.units[lun], units[lun], cdb, mem, mem', NonZero(|Addrs(wr)|));
      }
    }
  }

  lemma WithoutData(cfg: UnitConfig, u: UnitState, cdb: seq<byte>, mem: seq<byte>, mem': seq<byte>, inLen: Option<nat>)
    requires |cdb| >= 6
    ensures Dispatch(cfg, u, cdb, mem, None, inLen) == Dispatch(cfg, u, cdb, mem', None, inLen)
  {
  }

  lemma KeptIsSame(mem: seq<byte>, mem': seq<byte>, rd: seq<MemoryExtent>, keep: set<nat>)
    requires InRam(rd, |mem|) && Agree(mem, mem', keep) && FrontKept(Addrs(rd), |Addrs(rd)|, keep)
    ensures SameAt(mem, mem', Addrs(rd))
  {
    AddrsWithin(rd, |mem|);
  }

  lemma {:induction false} SameSequential(env: Env, mem: seq<byte>, mem': seq<byte>, units: map<nat, UnitState>,
                                          heads: seq<nat>, keep: set<nat>)
    requires SlotsInRam(env.slots, |mem|) && env.units.Keys == units.Keys && Agree(mem, mem', keep)
    requires Separate(env, mem, heads, keep) && AllDataKept(env, mem, heads, keep)
    ensures Sequential(env, mem, units, heads) == Sequential(env, mem', units, heads)
    ensures AllDataKept(env, mem', heads, keep)
    decreases |heads|
  {
    hide Walk;
    hide RequestOf;
    hide CommandOutcome;
    hide Response;
    hide KeepsTable;
    hide ApartFrom;
    hide ChainKept;
    if heads != [] {
      var w := Walk(env, mem, heads[0], {}, [], []);
      SeparateParts(env, mem, heads, keep);
      SameChain(env, mem, mem', keep, heads[0]);
      assert DataKept(env, mem, heads[0], keep);
      forall i | 0 <= i < |heads| - 1 ensures DataKept(env, mem, heads[1..][i], keep) {
        assert DataKept(env, mem, heads[i + 1], keep);
      }
      if w.Chain? && RequestOf(env, mem, w.rd).Some? {
        var req := RequestOf(env, mem, w.rd).value;
        KeptIsSame(mem, mem', w.rd, keep);
        SameCommand(env, mem, mem', units, req, w.rd, w.wr);
        SameSequential(env, mem, mem', CommandOutcome(env, mem, units, req, w.rd, w.wr).0, heads[1..], keep);
      } else {
        SameSequential(env, mem, mem', units, heads[1..], keep);
      }
      forall i | 0 <= i < |heads| ensures DataKept(env, mem', heads[i], keep) {
        if i > 0 { assert heads[i] == heads[1..][i - 1]; }
      }
    }
  }

  lemma PartsKept(env: Env, mem: seq<byte>, heads: seq<nat>, keep: set<nat>)
    requires SlotsInRam(env.slots, |mem|) && heads != [] && AllDataKept(env, mem, heads, keep)
    ensures DataKept(env, mem, heads[0], keep) && AllDataKept(env, mem, heads[1..], keep)
  {
    hide DataKept;
  }

  /** A chain that is served leaves the disks, its completion and its reply as
      running its request does. */
  lemma HeadIsSequential(env: Env, st: St, head: nat, keep: set<nat>)
    requires WellFormed(env, st) && Separate(env, st.mem, [head], keep) && Served(env, st.mem, head)
    ensures var r, q := ProcessHead(env, st, head), Sequential(env, st.mem, st.units, [head]);
      && r.Ok? && r.st.units == q.0 && |q.1| <= 1 && r.st.heads == st.heads + [head]
      && r.st.done == st.done + Posted(q.1)
      && r.st.dropped == (if q.1 == [] then st.dropped + [head] else st.dropped)
  {
    hide Walk;
    hide RequestOf;
    hide CommandOutcome;
    hide Response;
    hide PostedMem;
    hide KeepsTable;
    hide ApartFrom;
    HeadKeeps(env, st, head, keep);
    WalkInRam(env, st.mem, head, {}, [], []);
    assert [head][1..] == [];
    var q := Sequential(env, st.mem, st.units, [head]);
    var w := Walk(env, st.mem, head, {}, [], []);
    assert Sequential(env, st.mem, st.units, []) == (st.units, []);
    if !w.Chain? {
      assert q == (st.units, []);
      assert st.done + Posted(q.1) == st.done;
    } else {
      var x := CommandOutcome(env, st.mem, st.units, RequestOf(env, st.mem, w.rd).value, w.rd, w.wr);
      assert Sequential(env, st.mem, x.0, []) == (x.0, []);
      assert |q.1| == 1;
      assert Posted(q.1) == [q.1[0].Posted()];
    }
  }

  /** What one head adds. */
  lemma OneHead(env: Env, mem: seq<byte>, units: map<nat, UnitState>, head: nat, rest: seq<nat>)
    requires SlotsInRam(env.slots, |mem|) && env.units.Keys == units.Keys
    ensures var q := Sequential(env, mem, units, [head]);
      var later := Sequential(env, mem, q.0, rest);
      Sequential(env, mem, units, [head] + rest) == (later.0, q.1 + later.1)
  {
    hide Walk;
    hide RequestOf;
    hide CommandOutcome;
    hide Response;
    hide Addrs;
    WalkInRam(env, mem, head, {}, [], []);
    assert [head][1..] == [] && ([head] + rest)[1..] == rest && ([head] + rest)[0] == head;
    var w := Walk(env, mem, head, {}, [], []);
    if !w.Chain? || RequestOf(env, mem, w.rd).None? {
      assert Sequential(env, mem, units, [head]) == Sequential(env, mem, units, []) == (units, []);
      assert [] + Sequential(env, mem, units, rest).1 == Sequential(env, mem, units, rest).1;
    } else {
      var x := CommandOutcome(env, mem, units, RequestOf(env, mem, w.rd).value, w.rd, w.wr);
      var one := [ChainReply(head, Addrs(w.wr), Response(x.1, env.senseLen))];
      assert Sequential(env, mem, x.0, []) == (x.0, []);
      assert Sequential(env, mem, units, [head]) == (x.0, one + []);
      assert one + [] == one;
    }
  }

  lemma {:induction false} AllSequential(env: Env, st: St, heads: seq<nat>, keep: set<nat>)
    requires WellFormed(env, st) && Separate(env, st.mem, heads, keep)
    requires AllServed(env, st.mem, heads) && AllDataKept(env, st.mem, heads, keep)
    ensures var r, q := ProcessAll(env, st, heads), Sequential(env, st.mem, st.units, heads);
      && r.Ok? && r.st.units == q.0
      && r.st.heads == st.heads + heads && r.st.done == st.done + Posted(q.1)
    decreases |heads|
  {
    hide ProcessHead;
    hide Sequential;
    hide Separate;
    hide Served;
    hide DataKept;
    if heads == [] {
      NoHeads(env, st);
    } else {
      var h, rest := heads[0], heads[1..];
      SeparateParts(env, st.mem, heads, keep);
      PartsKept(env, st.mem, heads, keep);
      HeadKeeps(env, st, h, keep);
      HeadIsSequential(env, st, h, keep);
      var st1, q := ProcessHead(env, st, h).st, Sequential(env, st.mem, st.units, [h]);
      SeparateAcross(env, st.mem, st1.mem, rest, keep);
      SameSequential(env, st.mem, st1.mem, q.0, rest, keep);
      AllSequential(env, st1, rest, keep);
      OneHead(env, st.mem, st.units, h, rest);
      assert heads == [h] + rest;
      ConcatAssoc(st.heads, [h], rest);
      PostedConcat(st.done, q.1, Sequential(env, st.mem, q.0, rest).1);
    }
  }

  lemma NoHeads(env: Env, st: St)
    requires WellFormed(env, st)
    ensures Sequential(env, st.mem, st.units, []) == (st.units, [])
    ensures st.heads == st.heads + [] && st.done == st.done + Posted([])
  {
  }

  lemma PostedConcat(done: seq<Completion>, a: seq<ChainReply>, b: seq<ChainReply>)
    ensures done + Posted(a) + Posted(b) == done + Posted(a + b)
  {
    assert Posted(a) + Posted(b) == Posted(a + b);
  }

  // ---- What the guest then finds in its buffers -------------------------------------------------

  function AddrSet(at: seq<nat>): set<nat> { set i | 0 <= i < |at| :: at[i] }

  /** The host addresses the chain of a head lets the device write. */
  function WritableAt(env: Env, mem: seq<byte>, head: nat): seq<nat>
    requires SlotsInRam(env.slots, |mem|)
  {
    var w := Walk(env, mem, head, {}, [], []);
    if w.Chain? then Addrs(w.wr) else []
  }

  /** No two writable bytes of the pending chains are the same, and none is in the
      used ring. */
  ghost predicate BuffersApart(env: Env, mem: seq<byte>, heads: seq<nat>)
    requires SlotsInRam(env.slots, |mem|)
  {
    && (forall i :: 0 <= i < |heads| ==> OwnBuffers(env, WritableAt(env, mem, heads[i])))
    && (forall i, j :: 0 <= i < j < |heads| ==>
          AddrSet(WritableAt(env, mem, heads[i])) !! AddrSet(WritableAt(env, mem, heads[j])))
  }

  ghost predicate OwnBuffers(env: Env, at: seq<nat>) {
    Distinct(at) && ApartFrom(env.slots, env.device, UsedLen(env), AddrSet(at))
  }

  /** The buffers hold as much of the reply as they have room for. */
  ghost predicate ReplyHeld(mem: seq<byte>, c: ChainReply) {
    Within(c.at, |mem|) && forall j :: 0 <= j < Min(|c.resp|, |c.at|) ==> mem[c.at[j]] == c.resp[j]
  }

  lemma HeadReply(env: Env, st: St, head: nat, keep: set<nat>)
    requires WellFormed(env, st) && Separate(env, st.mem, [head], keep) && Served(env, st.mem, head)
    requires OwnBuffers(env, WritableAt(env, st.mem, head))
    ensures var q := Sequential(env, st.mem, st.units, [head]);
      forall c :: c in q.1 ==>
        c.at == WritableAt(env, st.mem, head) && ReplyHeld(ProcessHead(env, st, head).st.mem, c)
  {
    hide Walk;
    hide RequestOf;
    hide CommandOutcome;
    hide Response;
    hide PostedMem;
    hide KeepsTable;
    hide ApartFrom;
    hide WriteAll;
    hide Addrs;
    hide Post;
    HeadKeeps(env, st, head, keep);
    WalkInRam(env, st.mem, head, {}, [], []);
    assert [head][1..] == [] && Sequential(env, st.mem, st.units, []) == (st.units, []);
    var w := Walk(env, st.mem, head, {}, [], []);
    if w.Chain? {
      var req := RequestOf(env, st.mem, w.rd).value;
      var x := CommandOutcome(env, st.mem, st.units, req, w.rd, w.wr);
      var s := Serve(env, st.mem, st.units, req, w.rd, w.wr);
      var at, resp := Addrs(w.wr), Response(x.1, env.senseLen);
      var st1, c := st.(heads := st.heads + [head], mem := s.0, units := s.1), Completion(head, s.2, at);
      AddrsWithin(w.wr, |st.mem|);
      ScatterFacts(st.mem, at, resp);
      PostKeeps(env, st1, c, AddrSet(at));
      HeldAcross(s.0, Post(env, st1, c).st.mem, ChainReply(head, at, resp), AddrSet(at));
    }
  }

  lemma HeldAcross(mem: seq<byte>, mem': seq<byte>, c: ChainReply, keep: set<nat>)
    requires ReplyHeld(mem, c) && Agree(mem, mem', keep) && AddrSet(c.at) <= keep
    ensures ReplyHeld(mem', c)
  {
    forall j | 0 <= j < Min(|c.resp|, |c.at|) ensures mem'[c.at[j]] == c.resp[j] {
      assert c.at[j] in AddrSet(c.at);
    }
  }

  /** Buffers that no later chain writes can be kept as well. */
  lemma KeepMore(env: Env, mem: seq<byte>, heads: seq<nat>, keep: set<nat>, at: seq<nat>)
    requires SlotsInRam(env.slots, |mem|) && Separate(env, mem, heads, keep) && OwnBuffers(env, at)
    requires forall i :: 0 <= i < |heads| ==> AddrSet(at) !! AddrSet(WritableAt(env, mem, heads[i]))
    ensures Separate(env, mem, heads, keep + AddrSet(at))
  {
    hide Walk;
    hide Addrs;
    hide AddrSet;
    forall i | 0 <= i < |heads| ensures ChainKept(env, mem, heads[i], keep + AddrSet(at)) {
      assert ChainKept(env, mem, heads[i], keep);
      var w := WritableAt(env, mem, heads[i]);
      forall k | 0 <= k < |w| ensures w[k] !in AddrSet(at) { InAddrSet(w, k); }
    }
  }

  lemma InAddrSet(at: seq<nat>, k: nat)
    requires k < |at|
    ensures at[k] in AddrSet(at)
  {
  }

  lemma ApartParts(env: Env, mem: seq<byte>, mem': seq<byte>, heads: seq<nat>, keep: set<nat>)
    requires SlotsInRam(env.slots, |mem|) && heads != [] && BuffersApart(env, mem, heads)
    requires Separate(env, mem, heads[1..], keep) && Agree(mem, mem', keep)
    ensures BuffersApart(env, mem', heads[1..])
    ensures forall i :: 0 <= i < |heads| - 1 ==>
      AddrSet(WritableAt(env, mem, heads[0])) !! AddrSet(WritableAt(env, mem', heads[1..][i]))
  {
    hide Walk;
    hide AddrSet;
    hide OwnBuffers;
    hide KeepsTable;
    hide ApartFrom;
    hide ChainKept;
    var rest := heads[1..];
    forall i | 0 <= i < |rest| ensures WritableAt(env, mem', rest[i]) == WritableAt(env, mem, heads[i + 1]) {
      SameChain(env, mem, mem', keep, rest[i]);
    }
  }

  lemma {:induction false} AllReplies(env: Env, st: St, heads: seq<nat>, keep: set<nat>)
    requires WellFormed(env, st) && Separate(env, st.mem, heads, keep)
    requires AllServed(env, st.mem, heads) && AllDataKept(env, st.mem, heads, keep)
    requires BuffersApart(env, st.mem, heads)
    ensures var mem := ProcessAll(env, st, heads).st.mem;
      forall c :: c in Sequential(env, st.mem, st.units, heads).1 ==> ReplyHeld(mem, c)
    decreases |heads|
  {
    hide ProcessHead;
    hide Sequential;
    hide Separate;
    hide Served;
    hide DataKept;
    hide ReplyHeld;
    hide OwnBuffers;
    hide WritableAt;
    hide AddrSet;
    if heads == [] {
      NoHeads(env, st);
    } else {
      var h, rest := heads[0], heads[1..];
      var at := WritableAt(env, st.mem, h);
      SeparateParts(env, st.mem, heads, keep);
      PartsKept(env, st.mem, heads, keep);
      HeadKeeps(env, st, h, keep);
      HeadIsSequential(env, st, h, keep);
      HeadReply(env, st, h, keep);
      var st1, q := ProcessHead(env, st, h).st, Sequential(env, st.mem, st.units, [h]);
      SeparateAcross(env, st.mem, st1.mem, rest, keep);
      SameSequential(env, st.mem, st1.mem, q.0, rest, keep);
      ApartParts(env, st.mem, st1.mem, heads, keep);
      AllReplies(env, st1, rest, keep);
      KeepMore(env, st1.mem, rest, keep, at);
      AllOkIff(env, st1, rest, keep + AddrSet(at));
      var mem := ProcessAll(env, st, heads).st.mem;
      forall c | c in q.1 ensures ReplyHeld(mem, c) { HeldAcross(st1.mem, mem, c, keep + AddrSet(at)); }
      OneHead(env, st.mem, st.units, h, rest);
      assert heads == [h] + rest;
    }
  }

  /** A notification whose chains, data and rings stay out of each other's way runs
      the pending requests one after the other on the memory it found: the disks,
      the completions and what lies in the guest's buffers afterwards are those of
      that simple execution. */
  lemma DrainIsSequential(env: Env, st: St, ring: seq<byte>, cur: Index, idx: Index, keep: set<nat>)
    requires WellFormed(env, st) && env.qlen > 0 && |ring| == RingLen(env.qlen)
    requires var heads := RingHeads(ring, env.qlen, cur, idx);
      && Separate(env, st.mem, heads, keep) && AllServed(env, st.mem, heads)
      && AllDataKept(env, st.mem, heads, keep) && BuffersApart(env, st.mem, heads)
    ensures var r, heads := Drain(env, st, ring, cur, idx), RingHeads(ring, env.qlen, cur, idx);
      var q := Sequential(env, st.mem, st.units, heads);
      && r.Ok? && r.st.heads == st.heads + heads && r.st.avail == idx
      && r.st.units == q.0 && r.st.done == st.done + Posted(q.1)
      && forall c :: c in q.1 ==> ReplyHeld(r.st.mem, c)
  {
    hide Drain;
    hide RingHeads;
    hide ProcessAll;
    hide Separate;
    hide AllServed;
    hide AllDataKept;
    hide BuffersApart;
    hide Sequential;
    hide ReplyHeld;
    var heads := RingHeads(ring, env.qlen, cur, idx);
    DrainIsProcessAll(env, st, ring, cur, idx);
    AllSequential(env, st, heads, keep);
    AllReplies(env, st, heads, keep);
  }

  // ---- Runs of careful drivers ---------------------------------------------------------------------

  /** The completions posted for the heads, in order: each has its head and the
      addresses of its chain's writable buffers. */
  ghost predicate CompletedAs(env: Env, mem: seq<byte>, before: seq<Completion>, after: seq<Completion>,
                              heads: seq<nat>)
    requires SlotsInRam(env.slots, |mem|)
  {
    && before <= after && |after| == |before| + |heads|
    && forall i :: 0 <= i < |heads| ==>
         after[|before| + i].head == heads[i] && after[|before| + i].addrs == WritableAt(env, mem, heads[i])
  }

  lemma HeadCompletes(env: Env, st: St, head: nat, keep: set<nat>)
    requires WellFormed(env, st) && Separate(env, st.mem, [head], keep) && Served(env, st.mem, head)
    ensures var r := ProcessHead(env, st, head);
      if Walk(env, st.mem, head, {}, [], []).Chain? then CompletedAs(env, st.mem, st.done, r.st.done, [head])
      else r.st.done == st.done
  {
    hide Walk;
    hide RequestOf;
    hide Serve;
    hide PostedMem;
    hide KeepsTable;
    hide ApartFrom;
    HeadKeeps(env, st, head, keep);
  }

  lemma {:induction false} AllCompleted(env: Env, st: St, heads: seq<nat>, keep: set<nat>)
    requires WellFormed(env, st) && Separate(env, st.mem, heads, keep) && AllServed(env, st.mem, heads)
    requires forall i :: 0 <= i < |heads| ==> Walk(env, st.mem, heads[i], {}, [], []).Chain?
    ensures CompletedAs(env, st.mem, st.done, ProcessAll(env, st, heads).st.done, heads)
    decreases |heads|
  {
    hide ProcessHead;
    hide Separate;
    hide Served;
    hide Walk;
    if heads != [] {
      var h, rest := heads[0], heads[1..];
      var st1 := ProcessHead(env, st, h).st;
      SeparateParts(env, st.mem, heads, keep);
      HeadKeeps(env, st, h, keep);
      HeadCompletes(env, st, h, keep);
      SeparateAcross(env, st.mem, st1.mem, rest, keep);
      SameWritable(env, st.mem, st1.mem, rest, keep);
      AllCompleted(env, st1, rest, keep);
      JoinCompleted(env, st.mem, st.done, st1.done, ProcessAll(env, st, heads).st.done, h, rest);
      assert heads == [h] + rest;
    }
  }

  lemma SameWritable(env: Env, mem: seq<byte>, mem': seq<byte>, heads: seq<nat>, keep: set<nat>)
    requires SlotsInRam(env.slots, |mem|) && Separate(env, mem, heads, keep) && Agree(mem, mem', keep)
    ensures forall i :: 0 <= i < |heads| ==>
      && Walk(env, mem', heads[i], {}, [], []) == Walk(env, mem, heads[i], {}, [], [])
      && WritableAt(env, mem', heads[i]) == WritableAt(env, mem, heads[i])
  {
    hide Walk;
    hide KeepsTable;
    hide ApartFrom;
    hide ChainKept;
    forall i | 0 <= i < |heads|
      ensures Walk(env, mem', heads[i], {}, [], []) == Walk(env, mem, heads[i], {}, [], [])
    {
      SameChain(env, mem, mem', keep, heads[i]);
    }
  }

  lemma JoinCompleted(env: Env, mem: seq<byte>, a: seq<Completion>, b: seq<Completion>, c: seq<Completion>,
                      h: nat, rest: seq<nat>)
    requires SlotsInRam(env.slots, |mem|)
    requires CompletedAs(env, mem, a, b, [h]) && CompletedAs(env, mem, b, c, rest)
    ensures CompletedAs(env, mem, a, c, [h] + rest)
  {
    hide WritableAt;
    var heads := [h] + rest;
    forall i | 0 <= i < |heads|
      ensures c[|a| + i].head == heads[i] && c[|a| + i].addrs == WritableAt(env, mem, heads[i])
    {
      if i == 0 {
        assert c[|a|] == b[|a|] && [h][0] == h;
      } else {
        assert c[|b| + (i - 1)].head == rest[i - 1];
      }
    }
  }

  /** The pending chains write outside the used ring. */
  ghost predicate RingSpared(env: Env, mem: seq<byte>, heads: seq<nat>)
    requires SlotsInRam(env.slots, |mem|)
  {
    forall i :: 0 <= i < |heads| ==>
      ApartFrom(env.slots, env.device, UsedLen(env), AddrSet(WritableAt(env, mem, heads[i])))
  }

  lemma SparedAvoids(env: Env, c: Completion)
    requires ApartFrom(env.slots, env.device, UsedLen(env), AddrSet(c.addrs))
    ensures Avoids(env, c)
  {
    forall i, a: nat | 0 <= i < |c.addrs| && env.device <= a < env.device + UsedLen(env)
      ensures Translate(env.slots, a) != Some(c.addrs[i])
    {
      InAddrSet(c.addrs, i);
    }
  }

  lemma {:induction false} AllSpared(env: Env, st: St, heads: seq<nat>, keep: set<nat>)
    requires WellFormed(env, st) && Separate(env, st.mem, heads, keep) && AllServed(env, st.mem, heads)
    requires RingSpared(env, st.mem, heads) && AllAvoid(env, st.done)
    ensures AllAvoid(env, ProcessAll(env, st, heads).st.done)
    decreases |heads|
  {
    hide ProcessHead;
    hide Separate;
    hide Served;
    hide Walk;
    hide ApartFrom;
    hide Avoids;
    hide WritableAt;
    if heads != [] {
      var h, rest := heads[0], heads[1..];
      var st1 := ProcessHead(env, st, h).st;
      SeparateParts(env, st.mem, heads, keep);
      HeadKeeps(env, st, h, keep);
      HeadCompletes(env, st, h, keep);
      SeparateAcross(env, st.mem, st1.mem, rest, keep);
      SameWritable(env, st.mem, st1.mem, rest, keep);
      if st1.done != st.done {
        assert [h][0] == h;
        SparedAvoids(env, st1.done[|st.done|]);
      }
      forall i | 0 <= i < |rest|
        ensures ApartFrom(env.slots, env.device, UsedLen(env), AddrSet(WritableAt(env, st1.mem, rest[i])))
      {
        assert rest[i] == heads[i + 1];
      }
      AllSpared(env, st1, rest, keep);
    }
  }

  /** A driver checks this on the memory it hands over with a notification: every
      pending head is one the device can handle, and the chains stay out of the
      descriptor table, each other's requests and the used ring. */
  ghost predicate Sound(env: Env, mem: seq<byte>, heads: seq<nat>)
    requires SlotsInRam(env.slots, |mem|)
  {
    && AllServed(env, mem, heads) && RingSpared(env, mem, heads)
    && exists keep :: Separate(env, mem, heads, keep)
  }

  ghost predicate Careful(env: Env, st: St, e: Event)
    requires WellFormed(env, st)
  {
    e.NotifyQueue? ==> |st.heads| <= |e.published| && Sound(env, st.mem, e.published[|st.heads|..])
  }

  ghost predicate RunCareful(env: Env, st: St, es: seq<Event>)
    requires WellFormed(env, st) && AllSane(es, |st.mem|, st.units.Keys)
    decreases |es|
  {
    es == [] ||
    ( && Sane(es[0], |st.mem|, st.units.Keys) && Careful(env, st, es[0])
      && (Step(env, st, es[0]).Ok? ==> RunCareful(NextEnv(env, es[0]), Step(env, st, es[0]).st, es[1..])))
  }

  /** A notification of a careful driver ends normally. */
  lemma SoundNotify(env: Env, st: St, published: seq<nat>)
    requires WellFormed(env, st) && RingMapped(env) && AllAvoid(env, st.done)
    requires Allowed(env, st, NotifyQueue(published)) && Careful(env, st, NotifyQueue(published))
    requires st.avail == |st.heads| % INDEX_SPAN
    ensures var r := Notify(env, st);
      r.Ok? && AllAvoid(env, r.st.done) && r.st.avail == |r.st.heads| % INDEX_SPAN
  {
    hide ReadBack;
    hide Drain;
    hide RingHeads;
    hide ProcessAll;
    hide Separate;
    hide AllServed;
    hide RingSpared;
    hide AllAvoid;
    var ring := ReadBack(env.slots, st.mem, env.driver, RingLen(env.qlen)).bytes;
    var idx, heads := RingIndex(ring, env.qlen), published[|st.heads|..];
    var keep :| Separate(env, st.mem, heads, keep);
    RingHeadsArePublished(ring, env.qlen, published, |st.heads|);
    DrainIsProcessAll(env, st, ring, st.avail, idx);
    AllOkIff(env, st, heads, keep);
    AllSpared(env, st, heads, keep);
    DrainIsPublished(env, st, ring, published);
  }

  lemma {:induction false} CarefulRunEnds(env: Env, st: St, es: seq<Event>)
    requires WellFormed(env, st) && RingMapped(env) && AllAvoid(env, st.done)
    requires AllSane(es, |st.mem|, st.units.Keys) && RunAllowed(env, st, es) && RunCareful(env, st, es)
    requires st.avail == |st.heads| % INDEX_SPAN
    ensures Run(env, st, es).Ok? && AllAvoid(env, Run(env, st, es).st.done)
    decreases |es|
  {
    hide Notify;
    hide Careful;
    hide AllAvoid;
    hide RingMapped;
    if es != [] {
      assert RingMapped(env) ==> Mapped(env.slots, env.device, UsedLen(env)) by { MappedRing(env); }
      if es[0].NotifyQueue? { SoundNotify(env, st, es[0].published); }
      CarefulRunEnds(env, Step(env, st, es[0]).st, es[1..]);
    }
  }

  lemma MappedRing(env: Env)
    ensures RingMapped(env) ==> Mapped(env.slots, env.device, UsedLen(env))
  {
  }

  /** Exactly once, with nothing about how the device ends among the hypotheses:
      since a reset, for a driver that keeps to the ring protocol and is careful at
      each notification, every event ends normally, the heads handed over are
      those published, each is completed or dropped, and the used ring accounts
      for every completion. */
  lemma CarefulSinceReset(env: Env, st: St, es: seq<Event>)
    requires WellFormed(env, st) && UsedRingPlaced(env)
    requires AllSane(es, |st.mem|, st.units.Keys) && RunAllowed(env, st, es) && RunCareful(env, st, es)
    requires st.avail == st.used == 0 && st.heads == [] && st.done == [] && st.dropped == [] && st.unposted == []
    ensures var r := Run(env, st, es);
      && r.Ok? && r.st.heads == LastPublished(es, [])
      && |r.st.heads| == |r.st.done| + |r.st.dropped| && UsedRingHolds(env, r.st)
  {
    hide Run;
    CarefulRunEnds(env, st, es);
    SinceReset(env, st, es);
  }
}

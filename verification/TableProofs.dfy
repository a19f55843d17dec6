/** The descriptor table as a driver lays it out (Virtio 1.2, section 2.7.5), and
    what the device makes of it: which descriptor it reads, which buffers a chain
    has, and where a walk ends. */
module TableProofs {
  import Bits
  import opened Common
  import opened Bytes
  import opened Extents
  import opened GuestMap
  import opened VirtQueue
  import opened ChainProofs

  // ---- Descriptors ------------------------------------------------------------

  /** le64 addr, le32 len, le16 flags, le16 next */
  function PackDescriptor(d: Descriptor): (b: seq<byte>)
    ensures |b| == 16
  {
    ToLe(d.addr, 8) + ToLe(d.len, 4) + ToLe(d.flags, 2) + ToLe(d.next, 2)
  }

  predicate Encodable(d: Descriptor) {
    d.addr < Limit(8) && d.len < Limit(4) && d.flags < Limit(2) && d.next < Limit(2)
  }

  lemma DescriptorRoundTrip(d: Descriptor)
    requires Encodable(d)
    ensures Decode(PackDescriptor(d)) == d
  {
    hide ToLe;
    hide FromLe;
    hide Limit;
    UnpackPacked(d.addr, 8);
    UnpackPacked(d.len, 4);
    UnpackPacked(d.flags, 2);
    UnpackPacked(d.next, 2);
    var b := PackDescriptor(d);
    assert b[0..8] == ToLe(d.addr, 8) && b[8..12] == ToLe(d.len, 4);
    assert b[12..14] == ToLe(d.flags, 2) && b[14..16] == ToLe(d.next, 2);
  }

  // ---- The table ----------------------------------------------------------------

  function PackTable(table: seq<Descriptor>): (b: seq<byte>)
    ensures |b| == 16 * |table|
  {
    if table == [] then [] else PackDescriptor(table[0]) + PackTable(table[1..])
  }

  lemma {:induction false} TableBytes(table: seq<Descriptor>, i: nat)
    requires i < |table|
    ensures PackTable(table)[16 * i..16 * i + 16] == PackDescriptor(table[i])
  {
    hide PackDescriptor;
    if i > 0 {
      TableBytes(table[1..], i - 1);
      assert PackTable(table)[16 * i..16 * i + 16] == PackTable(table[1..])[16 * (i - 1)..16 * (i - 1) + 16];
    }
  }

  /** The guest bytes from the descriptor area on are `table`, and no descriptor
      lies in two memory slots. */
  ghost predicate TableAt(env: Env, mem: seq<byte>, table: seq<Descriptor>)
    requires SlotsInRam(env.slots, |mem|)
  {
    && |table| == env.qlen && Disjoint(env.slots) && Mapped(env.slots, env.desc, 16 * |table|)
    && FlatBytes(env.slots, mem, env.desc, 16 * |table|) == PackTable(table)
    && forall i :: 0 <= i < |table| ==> Encodable(table[i]) && OneSlot(env.slots, env.desc + 16 * i, 16)
  }

  /** The device's read of descriptor `i` gives the driver's. */
  lemma TableRead(env: Env, mem: seq<byte>, table: seq<Descriptor>, i: nat)
    requires SlotsInRam(env.slots, |mem|) && TableAt(env, mem, table) && i < |table|
    ensures ReadBack(env.slots, mem, env.desc + 16 * i, 16) == Bytes(PackDescriptor(table[i]))
  {
    hide PackDescriptor;
    hide PackTable;
    hide Encodable;
    hide Disjoint;
    hide ReadBack;
    hide Flat;
    hide FlatBytes;
    hide OneSlot;
    hide Mapped;
    hide Copyable;
    hide SlotsInRam;
    var gpa := env.desc + 16 * i;
    PartOfFlat(env.slots, mem, env.desc, 16 * |table|, 16 * i, 16);
    IsCopyable(env.slots, gpa, 16);
    ReadBackInOneSlot(env.slots, mem, gpa, 16);
    TableBytes(table, i);
  }

  lemma IsCopyable(rs: seq<SlotRange>, gpa: nat, n: nat)
    requires Mapped(rs, gpa, n) && n < COPY_LIMIT
    ensures Copyable(rs, gpa, n)
  {
  }

  lemma PartOfFlat(rs: seq<SlotRange>, mem: seq<byte>, gpa: nat, len: nat, off: nat, n: nat)
    requires SlotsInRam(rs, |mem|) && Mapped(rs, gpa, len) && off + n <= len
    ensures Mapped(rs, gpa + off, n)
    ensures FlatBytes(rs, mem, gpa + off, n) == FlatBytes(rs, mem, gpa, len)[off..off + n]
  {
    var part, all := Flat(rs, gpa + off, n), Flat(rs, gpa, len);
    forall i | 0 <= i < n ensures part[i] == all[off + i] {
      assert gpa + off + i == gpa + (off + i);
    }
  }

  lemma FlagBits(flags: nat)
    ensures Bits.And(flags, DESC_F_INDIRECT) != 0 <==> flags / 4 % 2 == 1
    ensures Bits.And(flags, DESC_F_WRITE) != 0 <==> flags / 2 % 2 == 1
    ensures Bits.And(flags, DESC_F_NEXT) == 0 <==> flags % 2 == 0
  {
    hide Bits.And;
    Bits.LowBits(flags);
  }

  /** The device can use the descriptor: it is not indirect and its buffer is
      mapped. */
  ghost predicate Usable(env: Env, d: Descriptor) {
    d.flags / 4 % 2 == 0 && Mapped(env.slots, d.addr, d.len)
  }

  /** What the walk sees at index `idx` is descriptor `idx` of the table: its
      buffer is guest memory from `addr` on, for the device to write if and only
      if flag bit 1 is set, and the chain ends there if and only if bit 0 is not.
      An indirect descriptor (bit 2) and an unmapped buffer raise; an index out of
      range drops the chain. */
  lemma VisitIsTable(env: Env, mem: seq<byte>, table: seq<Descriptor>, idx: nat)
    requires SlotsInRam(env.slots, |mem|) && TableAt(env, mem, table)
    ensures var v := VisitAt(env, mem, idx);
      if idx >= |table| then v == Drop
      else if !Usable(env, table[idx]) then v == Fail
      else
        && v.Piece? && v.d == table[idx] && Resolve(env.slots, table[idx].addr, table[idx].len) == Some(v.es)
        && Addrs(v.es) == Flat(env.slots, table[idx].addr, table[idx].len)
        && (v.Writable() <==> table[idx].flags / 2 % 2 == 1)
        && (v.Last() <==> table[idx].flags % 2 == 0)
  {
    hide ReadBack;
    hide Resolve;
    hide Addrs;
    hide Flat;
    hide PackDescriptor;
    hide Decode;
    hide Bits.And;
    hide PackTable;
    if idx < |table| {
      var d := table[idx];
      Bits.ModSmall(idx, env.qlen);
      TableRead(env, mem, table, idx);
      DescriptorRoundTrip(d);
      FlagBits(d.flags);
      ResolveIffMapped(env.slots, d.addr, d.len);
      if Usable(env, d) { ResolveIsFlat(env.slots, d.addr, d.len); }
    }
  }

  /** A descriptor that is not mapped drops the chain. */
  lemma UnmappedDescriptor(env: Env, mem: seq<byte>, idx: nat)
    requires SlotsInRam(env.slots, |mem|) && idx < env.qlen && !Mapped(env.slots, env.desc + 16 * idx, 16)
    ensures VisitAt(env, mem, idx) == Drop
  {
    hide Resolve;
    Bits.ModSmall(idx, env.qlen);
    ResolveIffMapped(env.slots, env.desc + 16 * idx, 16);
  }

  // ---- Chains in the table ----------------------------------------------------------

  /** Descriptor `a` can be used and names `b` as the next one. */
  ghost predicate Names(env: Env, table: seq<Descriptor>, a: nat, b: nat) {
    a < |table| && Usable(env, table[a]) && table[a].flags % 2 == 1 && table[a].next == b
  }

  /** Each descriptor of the path names the next one. */
  ghost predicate TablePath(env: Env, table: seq<Descriptor>, path: seq<nat>) {
    path != [] && forall i :: 0 <= i < |path| - 1 ==> Names(env, table, path[i], path[i + 1])
  }

  /** A complete chain: its last descriptor can be used and names no other. */
  ghost predicate TableChain(env: Env, table: seq<Descriptor>, path: seq<nat>) {
    && TablePath(env, table, path)
    && var last := path[|path| - 1];
       last < |table| && Usable(env, table[last]) && table[last].flags % 2 == 0
  }

  ghost predicate AllUsable(env: Env, table: seq<Descriptor>, path: seq<nat>) {
    forall i :: 0 <= i < |path| ==> path[i] < |table| && Usable(env, table[path[i]])
  }

  /** The host addresses of the path's buffers that the device may write (flag
      bit 1), or of those it may read, in order. */
  ghost function BuffersOf(env: Env, table: seq<Descriptor>, path: seq<nat>, writable: bool): seq<nat>
    requires AllUsable(env, table, path)
  {
    if path == [] then []
    else
      var d := table[path[0]];
      assert Usable(env, d);
      (if (d.flags / 2 % 2 == 1) == writable then Flat(env.slots, d.addr, d.len) else [])
        + BuffersOf(env, table, path[1..], writable)
  }

  /** The same as the extents the buffers lie in. */
  ghost function ExtentsOf(env: Env, table: seq<Descriptor>, path: seq<nat>, writable: bool): seq<MemoryExtent>
    requires AllUsable(env, table, path)
  {
    if path == [] then []
    else
      var d := table[path[0]];
      assert Usable(env, d);
      ResolveIffMapped(env.slots, d.addr, d.len);
      (if (d.flags / 2 % 2 == 1) == writable then Resolve(env.slots, d.addr, d.len).value else [])
        + ExtentsOf(env, table, path[1..], writable)
  }

  lemma NamesIsLinks(env: Env, mem: seq<byte>, table: seq<Descriptor>, a: nat, b: nat)
    requires SlotsInRam(env.slots, |mem|) && TableAt(env, mem, table)
    ensures Names(env, table, a, b) <==> Links(env, mem, a, b)
  {
    hide VisitAt;
    hide Usable;
    hide TableAt;
    hide Addrs;
    hide Flat;
    VisitIsTable(env, mem, table, a);
  }

  lemma PathIsLinkPath(env: Env, mem: seq<byte>, table: seq<Descriptor>, path: seq<nat>)
    requires SlotsInRam(env.slots, |mem|) && TableAt(env, mem, table)
    ensures TablePath(env, table, path) <==> LinkPath(env, mem, path)
  {
    hide Names;
    hide Links;
    hide TableAt;
    forall i | 0 <= i < |path| - 1
      ensures Names(env, table, path[i], path[i + 1]) <==> Links(env, mem, path[i], path[i + 1])
    {
      NamesIsLinks(env, mem, table, path[i], path[i + 1]);
    }
  }

  lemma ChainIsUsable(env: Env, table: seq<Descriptor>, path: seq<nat>)
    requires TableChain(env, table, path)
    ensures AllUsable(env, table, path)
  {
    hide Usable;
    forall i | 0 <= i < |path| ensures path[i] < |table| && Usable(env, table[path[i]]) {
      if i < |path| - 1 { assert Names(env, table, path[i], path[i + 1]); }
    }
  }

  lemma TableChainIsChain(env: Env, mem: seq<byte>, table: seq<Descriptor>, path: seq<nat>)
    requires SlotsInRam(env.slots, |mem|) && TableAt(env, mem, table)
    ensures TableChain(env, table, path) <==> IsChain(env, mem, path)
  {
    hide VisitAt;
    hide Usable;
    hide Addrs;
    hide Flat;
    hide Links;
    hide Names;
    hide TableAt;
    PathIsLinkPath(env, mem, table, path);
    if path != [] {
      VisitIsTable(env, mem, table, path[|path| - 1]);
        forall i | 0 <= i < |path| && LinkPath(env, mem, path) && VisitAt(env, mem, path[|path| - 1]).Piece?
        ensures VisitAt(env, mem, path[i]).Piece?
      {
        if i < |path| - 1 { LinksIsPiece(env, mem, path[i], path[i + 1]); }
      }
    }
  }

  lemma LinksIsPiece(env: Env, mem: seq<byte>, a: nat, b: nat)
    requires SlotsInRam(env.slots, |mem|)
    ensures Links(env, mem, a, b) ==> VisitAt(env, mem, a).Piece?
  {
  }

  lemma {:induction false} GatherIsExtents(env: Env, mem: seq<byte>, table: seq<Descriptor>, path: seq<nat>,
                                           writable: bool)
    requires SlotsInRam(env.slots, |mem|) && TableAt(env, mem, table) && AllUsable(env, table, path)
    requires forall i :: 0 <= i < |path| ==> VisitAt(env, mem, path[i]).Piece?
    ensures Gather(env, mem, path, writable) == ExtentsOf(env, table, path, writable)
    ensures Addrs(ExtentsOf(env, table, path, writable)) == BuffersOf(env, table, path, writable)
  {
    hide VisitAt;
    hide Usable;
    hide Flat;
    hide Resolve;
    hide TableAt;
    if path != [] {
      VisitIsTable(env, mem, table, path[0]);
      GatherIsExtents(env, mem, table, path[1..], writable);
      var v := VisitAt(env, mem, path[0]);
      AddrsConcat(if v.Writable() == writable then v.es else [], Gather(env, mem, path[1..], writable));
    }
  }

  // ---- The walk, on the table -------------------------------------------------------

  /** The walk yields a chain if and only if the driver has put a complete one into
      the table, which is then no longer than the queue; the two buffers are those of its descriptors, in order. */
  lemma WalkIsTableChain(env: Env, mem: seq<byte>, table: seq<Descriptor>, head: nat)
    requires SlotsInRam(env.slots, |mem|) && TableAt(env, mem, table)
    ensures Walk(env, mem, head, {}, [], []).Chain?
       <==> exists path :: TableChain(env, table, path) && path[0] == head
    ensures forall path :: TableChain(env, table, path) && path[0] == head ==>
      var w := Walk(env, mem, head, {}, [], []);
      && AllUsable(env, table, path) && w.Chain? && |path| <= |table|
      && Addrs(w.rd) == BuffersOf(env, table, path, false)
      && Addrs(w.wr) == BuffersOf(env, table, path, true)
  {
    hide Walk;
    hide TableAt;
    hide Names;
    hide IsChain;
    hide Usable;
    hide Addrs;
    hide BuffersOf;
    hide ExtentsOf;
    hide AllUsable;
    WalkChainIff(env, mem, head);
    forall path ensures TableChain(env, table, path) <==> IsChain(env, mem, path) {
      TableChainIsChain(env, mem, table, path);
    }
    forall path | TableChain(env, table, path) && path[0] == head
      ensures var w := Walk(env, mem, head, {}, [], []);
        && AllUsable(env, table, path) && w.Chain? && |path| <= |table|
        && Addrs(w.rd) == BuffersOf(env, table, path, false)
        && Addrs(w.wr) == BuffersOf(env, table, path, true)
    {
      WalkedChain(env, mem, table, path);
    }
  }

  lemma WalkedChain(env: Env, mem: seq<byte>, table: seq<Descriptor>, path: seq<nat>)
    requires SlotsInRam(env.slots, |mem|) && TableAt(env, mem, table) && TableChain(env, table, path)
    ensures AllUsable(env, table, path) && |path| <= |table|
    ensures Walk(env, mem, path[0], {}, [], [])
         == Chain(ExtentsOf(env, table, path, false), ExtentsOf(env, table, path, true))
    ensures Addrs(ExtentsOf(env, table, path, false)) == BuffersOf(env, table, path, false)
    ensures Addrs(ExtentsOf(env, table, path, true)) == BuffersOf(env, table, path, true)
  {
    hide Walk;
    hide VisitAt;
    hide Usable;
    hide Addrs;
    hide Gather;
    hide BuffersOf;
    hide ExtentsOf;
    ChainIsUsable(env, table, path);
    TableChainIsChain(env, mem, table, path);
    ChainIsWalked(env, mem, path);
    GatherIsExtents(env, mem, table, path, false);
    GatherIsExtents(env, mem, table, path, true);
  }

  /** The device never leaves the chain if and only if the descriptors the table
      links from the head come to the same one twice. */
  lemma LoopEndlessIffTableLoops(env: Env, mem: seq<byte>, table: seq<Descriptor>, head: nat)
    requires SlotsInRam(env.slots, |mem|) && TableAt(env, mem, table)
    ensures (forall n :: Turns(env, mem, Running(head, [], []), n).Running?)
       <==> exists path :: TablePath(env, table, path) && path[0] == head && Repeats(path)
  {
    hide TableAt;
    hide TablePath;
    hide LinkPath;
    hide Repeats;
    hide Turns;
    LoopEndlessIffRepeats(env, mem, head);
    forall path ensures TablePath(env, table, path) <==> LinkPath(env, mem, path) {
      PathIsLinkPath(env, mem, table, path);
    }
  }

  lemma {:induction false} TurnsAlong(env: Env, mem: seq<byte>, path: seq<nat>, rd: seq<MemoryExtent>,
                                      wr: seq<MemoryExtent>)
    requires SlotsInRam(env.slots, |mem|) && LinkPath(env, mem, path)
    ensures var s := Turns(env, mem, Running(path[0], rd, wr), |path| - 1);
      s.Running? && s.idx == path[|path| - 1]
    decreases |path|
  {
    hide VisitAt;
    if |path| > 1 {
      var v := VisitAt(env, mem, path[0]);
      assert Links(env, mem, path[0], path[1]);
      assert LinkPath(env, mem, path[1..]) by {
        forall i | 0 <= i < |path| - 2 ensures Links(env, mem, path[1..][i], path[1..][i + 1]) {
          assert Links(env, mem, path[i + 1], path[i + 2]);
        }
      }
      TurnsAlong(env, mem, path[1..], rd + v.Readable(), wr + v.Writables());
    }
  }

  /** A chain that comes to an index out of range is dropped; one that comes to an
      indirect descriptor or an unmapped buffer makes the device raise. Neither
      changes memory, disks, rings or the interrupt. */
  lemma BrokenChain(env: Env, st: St, table: seq<Descriptor>, path: seq<nat>)
    requires WellFormed(env, st) && TableAt(env, st.mem, table) && TablePath(env, table, path)
    ensures var last, st' := path[|path| - 1], st.(heads := st.heads + [path[0]]);
      && (last >= |table| ==>
            ProcessHead(env, st, path[0]) == Ok(st'.(dropped := st.dropped + [path[0]])))
      && (last < |table| && !Usable(env, table[last]) ==> ProcessHead(env, st, path[0]) == Fails(st'))
  {
    hide VisitAt;
    hide Walk;
    hide Usable;
    hide TableAt;
    hide TablePath;
    hide ServeChain;
    hide Addrs;
    hide Flat;
    assert path != [] by { assert TablePath(env, table, path); PathIsLinkPath(env, st.mem, table, path); }
    var head, last := path[0], path[|path| - 1];
    PathIsLinkPath(env, st.mem, table, path);
    TurnsAlong(env, st.mem, path, [], []);
    VisitIsTable(env, st.mem, table, last);
    var s := Running(head, [], []);
    var t := Turns(env, st.mem, s, |path| - 1);
    TurnsAdd(env, st.mem, s, |path| - 1, 1);
    assert Turns(env, st.mem, Turn(env, st.mem, t), 0) == Turn(env, st.mem, t);
    LoopEndsIffNoRevisit(env, st.mem, head);
    assert Turns(env, st.mem, s, |path|) == Turn(env, st.mem, t);
  }
}
